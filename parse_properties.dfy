/** What parseGeometry promises about its result: the three early exits, the
    flag bits, the point count and axis order, the discarded Z and M passes,
    the shorthand figure and shape, and the version-2-only segments. */
module ParseProperties {
  import opened Bytes
  import opened Wrappers
  import opened ClrGeometry
  import opened ClrWire

  /** The SRID as parseGeometry stores it (uint32 bytes reinterpreted as int32). */
  function SridAt(data: seq<byte>, pos: nat): Int32
  {
    ToInt32(ReadUInt32(data, pos).value)
  }

  function AfterSrid(data: seq<byte>, pos: nat): nat { ReadUInt32(data, pos).pos }
  function VersionAt(data: seq<byte>, pos: nat): byte { ReadUInt8(data, AfterSrid(data, pos)).value }
  function AfterVersion(data: seq<byte>, pos: nat): nat { ReadUInt8(data, AfterSrid(data, pos)).pos }
  function FlagsAt(data: seq<byte>, pos: nat): byte { ReadUInt8(data, AfterVersion(data, pos)).value }
  function AfterFlags(data: seq<byte>, pos: nat): nat { ReadUInt8(data, AfterVersion(data, pos)).pos }

  /** The SRID does not stop the parse: always for geometry, and for
      geography only when it lies in 4210..4999. */
  predicate SridAccepted(data: seq<byte>, pos: nat, isGeography: bool)
  {
    !isGeography || ValidGeographySrid(SridAt(data, pos))
  }

  /** The header reaches the arrays: SRID accepted, version at most 2 and
      not both shorthand flags. */
  predicate HeaderAccepted(data: seq<byte>, pos: nat, isGeography: bool)
  {
    && SridAccepted(data, pos, isGeography)
    && VersionAt(data, pos) <= 2
    && !(Bit(FlagsAt(data, pos), 3) && Bit(FlagsAt(data, pos), 4))
  }

  /** A geography whose SRID bytes are FF FF FF FF (SRID -1) stops after those
      4 bytes with everything but the SRID still zero or empty. */
  lemma GeographyUnspecifiedSridStops(data: seq<byte>, pos: nat)
    requires pos + 4 <= |data| && data[pos..pos + 4] == [0xFF, 0xFF, 0xFF, 0xFF]
    ensures Parse(data, pos, true) == Got(EMPTY_GEOMETRY.(srid := -1), pos + 4)
  {
    LittleEndian4(data[pos..pos + 4]);
  }

  /** A geography SRID other than -1 outside 4210..4999 stops the parse
      right after the SRID, not valid and otherwise empty. This includes a
      buffer too short for the SRID, which reads as 0. */
  lemma GeographyInvalidSridRejected(data: seq<byte>, pos: nat)
    requires SridAt(data, pos) != -1 && !ValidGeographySrid(SridAt(data, pos))
    ensures var r := Parse(data, pos, true);
      && r.value == EMPTY_GEOMETRY.(srid := SridAt(data, pos))
      && !r.value.properties.v
      && r.pos == AfterSrid(data, pos)
  {
  }

  /** The SRID of a geometry (not geography) is stored and never checked:
      the version byte is always read next. */
  lemma GeometrySridNeverChecked(data: seq<byte>, pos: nat)
    ensures Parse(data, pos, false).value.srid == SridAt(data, pos)
    ensures Parse(data, pos, false).value.version == VersionAt(data, pos)
  {
  }

  /** A version byte above 2 stops the parse right after it, marked not
      valid, with no flags, points, figures, shapes or segments. */
  lemma UnsupportedVersionRejected(data: seq<byte>, pos: nat, isGeography: bool)
    requires SridAccepted(data, pos, isGeography) && VersionAt(data, pos) > 2
    ensures var r := Parse(data, pos, isGeography);
      && r.value == EMPTY_GEOMETRY.(srid := SridAt(data, pos), version := VersionAt(data, pos))
      && !r.value.properties.v
      && r.pos == AfterSrid(data, pos) + 1
  {
    var q := AfterSrid(data, pos);
    assert ReadLE(data, q, 1).value > 2;
  }

  /** Versions 0, 1 and 2 go on to the flags: bit 0 is Z, 1 M, 2 V, 3 P,
      4 L, and H is bit 5 in version 2 only. V is cleared when P and L are
      both set. */
  lemma FlagBitsDecoded(data: seq<byte>, pos: nat, isGeography: bool)
    requires SridAccepted(data, pos, isGeography) && VersionAt(data, pos) <= 2
    ensures var props := Parse(data, pos, isGeography).value.properties;
      var flags := FlagsAt(data, pos);
      && props.z == Bit(flags, 0)
      && props.m == Bit(flags, 1)
      && props.v == (Bit(flags, 2) && !(Bit(flags, 3) && Bit(flags, 4)))
      && props.p == Bit(flags, 3)
      && props.l == Bit(flags, 4)
      && props.h == (VersionAt(data, pos) == 2 && Bit(flags, 5))
  {
  }

  /** P and L together are invalid: V is cleared and nothing after the flags
      byte is consumed. */
  lemma BothShorthandsRejected(data: seq<byte>, pos: nat, isGeography: bool)
    requires SridAccepted(data, pos, isGeography) && VersionAt(data, pos) <= 2
    requires Bit(FlagsAt(data, pos), 3) && Bit(FlagsAt(data, pos), 4)
    ensures var r := Parse(data, pos, isGeography);
      && !r.value.properties.v
      && r.value.points == [] && r.value.figures == [] && r.value.shapes == [] && r.value.segments == []
      && r.pos == AfterFlags(data, pos)
  {
  }

  /** The number of points: 1 for P, 2 for L, otherwise the uint32 after the
      flags byte. */
  function PointCount(data: seq<byte>, pos: nat): UInt32
  {
    var flags := FlagsAt(data, pos);
    if Bit(flags, 3) then 1 else if Bit(flags, 4) then 2 else ReadUInt32(data, AfterFlags(data, pos)).value
  }

  /** Where the point doubles start: right after the flags for a shorthand,
      after the point count otherwise. */
  function PointsStart(data: seq<byte>, pos: nat): nat
  {
    var flags := FlagsAt(data, pos);
    if Bit(flags, 3) || Bit(flags, 4) then AfterFlags(data, pos) else ReadUInt32(data, AfterFlags(data, pos)).pos
  }

  /** Exactly PointCount points are decoded, 16 bytes each: X then Y for a
      geometry, Y then X for a geography (stored swapped, so X is always the
      second double there). A truncated buffer gives zero coordinates, not
      fewer points. */
  lemma PointsDecoded(data: seq<byte>, pos: nat, isGeography: bool)
    requires HeaderAccepted(data, pos, isGeography)
    ensures var pts := Parse(data, pos, isGeography).value.points;
      var p0 := PointsStart(data, pos);
      && |pts| == PointCount(data, pos)
      && forall k :: 0 <= k < |pts| ==> pts[k] == PointSlot(data, p0, k, isGeography)
  {
    var props := FlagsOf(FlagsAt(data, pos), VersionAt(data, pos));
    var nPoints := CountOf(data, AfterFlags(data, pos), if props.p then Some(1) else if props.l then Some(2) else None);
    ReadPointsSlots(data, nPoints.pos, nPoints.value, isGeography);
  }

  /** readPointsZ and readPointsM work on a copy of the points: whatever the
      flags, no decoded point carries a Z or M value. */
  lemma ZAndMNeverStored(data: seq<byte>, pos: nat, isGeography: bool)
    ensures var pts := Parse(data, pos, isGeography).value.points;
      forall k :: 0 <= k < |pts| ==> pts[k].z == None && pts[k].m == None
  {
    if HeaderAccepted(data, pos, isGeography) {
      var props := FlagsOf(FlagsAt(data, pos), VersionAt(data, pos));
      var nPoints := CountOf(data, AfterFlags(data, pos), if props.p then Some(1) else if props.l then Some(2) else None);
      ReadPointsSlots(data, nPoints.pos, nPoints.value, isGeography);
    }
  }

  /** The cursor after the points and the Z and M passes: each pass still
      consumes one double per point. */
  function PointsEnd(data: seq<byte>, pos: nat): nat
  {
    var flags := FlagsAt(data, pos);
    var n := PointCount(data, pos);
    var afterXY := DoublesEnd(data, PointsStart(data, pos), 2 * n);
    var afterZ := if Bit(flags, 0) then DoublesEnd(data, afterXY, n) else afterXY;
    if Bit(flags, 1) then DoublesEnd(data, afterZ, n) else afterZ
  }

  /** With exactly one of P and L set, one (STROKE, 0) figure and one root
      shape (-1, 0, Point or LineString) are made up without reading; in
      version 1 the parse ends right after the points and Z/M passes. */
  lemma ShorthandSynthesised(data: seq<byte>, pos: nat, isGeography: bool)
    requires HeaderAccepted(data, pos, isGeography)
    requires Bit(FlagsAt(data, pos), 3) || Bit(FlagsAt(data, pos), 4)
    ensures var r := Parse(data, pos, isGeography);
      && r.value.figures == [Figure(FIGURE_STROKE, 0)]
      && r.value.shapes == [Shape(-1, 0, if Bit(FlagsAt(data, pos), 3) then SHAPE_POINT else SHAPE_LINESTRING)]
      && (VersionAt(data, pos) != 2 ==> r.pos == PointsEnd(data, pos))
  {
    var props := FlagsOf(FlagsAt(data, pos), VersionAt(data, pos));
    var nPoints := CountOf(data, AfterFlags(data, pos), if props.p then Some(1) else if props.l then Some(2) else None);
    ReadPointsSlots(data, nPoints.pos, nPoints.value, isGeography);
    var pts := ReadPoints(data, nPoints.pos, nPoints.value, isGeography);
    SkipDoublesEnd(data, pts.pos, |pts.value|);
    var afterZ := if props.z then SkipDoubles(data, pts.pos, |pts.value|) else pts.pos;
    SkipDoublesEnd(data, afterZ, |pts.value|);
  }

  /** Segments are read in version 2 only. */
  lemma SegmentsOnlyInVersion2(data: seq<byte>, pos: nat, isGeography: bool)
    requires Parse(data, pos, isGeography).value.segments != []
    ensures Parse(data, pos, isGeography).value.version == 2
  {
  }

  /** Before version 2 no segment count is read: the arrays end with no
      segments and the cursor stays right after the shapes. */
  lemma NoSegmentsBeforeVersion2(data: seq<byte>, pos: nat, isGeography: bool, g: Geometry)
    requires g.version < 2
    ensures var points := PointsSection(data, pos, isGeography, g.properties);
            var figures := FiguresSection(data, points.pos, g.properties);
            var shapes := ShapesSection(data, figures.pos, g.properties);
            var r := ParseArrays(data, pos, isGeography, g);
            r.value.segments == [] && r.pos == shapes.pos && r.value.shapes == shapes.value
  {
  }

  /** The parse never moves the cursor backwards nor past the buffer, and
      never yields 2^31 shapes or more. */
  lemma ParseStaysInBuffer(data: seq<byte>, pos: nat, isGeography: bool)
    requires pos <= |data|
    ensures var r := Parse(data, pos, isGeography);
      pos <= r.pos <= |data| && |r.value.shapes| < TWO_31
  {
    if HeaderAccepted(data, pos, isGeography) {
      var props := FlagsOf(FlagsAt(data, pos), VersionAt(data, pos));
      var g1 := EMPTY_GEOMETRY.(srid := SridAt(data, pos), version := VersionAt(data, pos), properties := props);
      ArraysStayInBuffer(data, AfterFlags(data, pos), isGeography, g1);
    }
  }

  lemma ArraysStayInBuffer(data: seq<byte>, pos: nat, isGeography: bool, g: Geometry)
    requires pos <= |data|
    ensures var r := ParseArrays(data, pos, isGeography, g);
      pos <= r.pos <= |data| && |r.value.shapes| < TWO_31
  {
    var points := PointsSection(data, pos, isGeography, g.properties);
    PointsSectionBounded(data, pos, isGeography, g.properties);
    var figures := FiguresSection(data, points.pos, g.properties);
    FiguresSectionBounded(data, points.pos, g.properties);
    var shapes := ShapesSection(data, figures.pos, g.properties);
    ShapesSectionBounded(data, figures.pos, g.properties);
    SegmentsSectionBounded(data, shapes.pos, g.version);
  }

  lemma FiguresSectionBounded(data: seq<byte>, pos: nat, props: Properties)
    requires pos <= |data|
    ensures var r := FiguresSection(data, pos, props); pos <= r.pos <= |data|
  {
    var n := CountOf(data, pos, if props.p || props.l then Some(1) else None);
    FigureLoopBounded(data, n.pos, n.value);
  }

  lemma ShapesSectionBounded(data: seq<byte>, pos: nat, props: Properties)
    requires pos <= |data|
    ensures var r := ShapesSection(data, pos, props); pos <= r.pos <= |data| && |r.value| < TWO_31
  {
    var n := CountOf(data, pos, if props.p || props.l then Some(1) else None);
    ShapeLoopBounded(data, n.pos, SignedLoopBound(n.value));
  }

  lemma SegmentsSectionBounded(data: seq<byte>, pos: nat, version: byte)
    requires pos <= |data|
    ensures var r := SegmentsSection(data, pos, version); pos <= r.pos <= |data|
  {
    if version == 2 {
      var n := ReadUInt32(data, pos);
      SegmentLoopBytes(data, n.pos, SignedLoopBound(n.value));
    }
  }

  lemma PointsSectionBounded(data: seq<byte>, pos: nat, isGeography: bool, props: Properties)
    requires pos <= |data|
    ensures var r := PointsSection(data, pos, isGeography, props); pos <= r.pos <= |data|
  {
    var n := CountOf(data, pos, if props.p then Some(1) else if props.l then Some(2) else None);
    var pts := ReadPoints(data, n.pos, n.value, isGeography);
    ReadPointsSlots(data, n.pos, n.value, isGeography);
    DoublesEndBounded(data, n.pos, 2 * n.value);
    var afterZ := if props.z then SkipDoubles(data, pts.pos, |pts.value|) else pts.pos;
    SkipDoublesEnd(data, pts.pos, |pts.value|);
    DoublesEndBounded(data, pts.pos, |pts.value|);
    SkipDoublesEnd(data, afterZ, |pts.value|);
    DoublesEndBounded(data, afterZ, |pts.value|);
  }

  lemma DoublesEndBounded(data: seq<byte>, p0: nat, n: nat)
    requires p0 <= |data|
    ensures p0 <= DoublesEnd(data, p0, n) <= |data|
  {
    assert 8 * WholeDoubles(data, p0) <= |data| - p0;
  }

  lemma {:induction false} FigureLoopBounded(data: seq<byte>, p0: nat, n: nat)
    requires p0 <= |data|
    ensures var r := FigureLoop(data, p0, n); p0 <= r.pos <= |data| && |r.value| == n
    decreases n
  {
    if n > 0 { FigureLoopBounded(data, p0, n - 1); }
  }

  lemma {:induction false} ShapeLoopBounded(data: seq<byte>, p0: nat, n: nat)
    requires p0 <= |data|
    ensures var r := ShapeLoop(data, p0, n); p0 <= r.pos <= |data| && |r.value| == n
    decreases n
  {
    if n > 0 { ShapeLoopBounded(data, p0, n - 1); }
  }

  /** A 5-byte geometry buffer holding only an SRID and version 1 decodes,
      without any failure, to a value with no points, figures or shapes. */
  lemma TruncatedAfterVersion(data: seq<byte>)
    requires |data| == 5 && data[4] == 1
    ensures var g := Parse(data, 0, false).value;
      g.version == 1 && g.points == [] && g.figures == [] && g.shapes == []
  {
    assert LittleEndian(data[4..5]) == 1;
  }
}
