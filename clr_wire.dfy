/** The wire format of a serialized SQL Server geometry/geography value, as
    pure functions of the byte buffer and a cursor position: the bounds-checked
    primitive reads, the per-array readers and the whole header-then-arrays
    parse. The reader class in sqlgeo_reader.dfy is proved to compute exactly
    these functions. */
module ClrWire {
  import opened Bytes
  import opened Wrappers
  import opened ClrGeometry

  /** A value read and the cursor position after the read. */
  datatype Got<T> = Got(value: T, pos: nat)

  // ---------------------------------------------------------------------
  // Primitive reads

  /** A bounds-checked read of `width` bytes at `pos`: when that many bytes
      remain, their little-endian value and a cursor advanced by exactly
      `width`; otherwise the value 0 and the cursor left where it was. */
  function ReadLE(data: seq<byte>, pos: nat, width: nat): (r: Got<nat>)
    ensures r.value < Pow256(width)
    ensures width > 0 ==> (r.pos == pos + width <==> pos + width <= |data|)
    ensures pos + width <= |data| ==> r.value == LittleEndian(data[pos..pos + width])
    ensures pos + width > |data| ==> r.value == 0 && r.pos == pos
    ensures pos <= |data| ==> r.pos <= |data|
  {
    if pos + width <= |data| then Got(LittleEndian(data[pos..pos + width]), pos + width)
    else Got(0, pos)
  }

  /** A failed read never blocks a narrower one at the same position: the
      cursor stays put, so the bytes that were too few for the wide read are
      still there for the narrow one. */
  lemma NarrowReadAfterFailedWideRead(data: seq<byte>, pos: nat, wide: nat, narrow: nat)
    requires narrow < wide && pos + wide > |data| && pos + narrow <= |data|
    ensures ReadLE(data, pos, wide).pos == pos
    ensures ReadLE(data, ReadLE(data, pos, wide).pos, narrow).pos == pos + narrow
  {
  }

  function ReadUInt8(data: seq<byte>, pos: nat): (r: Got<byte>)
    ensures r.pos <= pos + 1
  {
    var v := ReadLE(data, pos, 1);
    Got(v.value as byte, v.pos)
  }

  function ReadUInt16(data: seq<byte>, pos: nat): (r: Got<nat>)
    ensures r.value < 0x1_0000
  {
    ReadLE(data, pos, 2)
  }

  function ReadUInt32(data: seq<byte>, pos: nat): (r: Got<UInt32>)
    ensures r.pos <= pos + 4
  {
    var v := ReadLE(data, pos, 4);
    Got(v.value, v.pos)
  }

  function ReadDouble(data: seq<byte>, pos: nat): (r: Got<Float64>)
    ensures r.pos <= pos + 8
  {
    var v := ReadLE(data, pos, 8);
    Got(Float64(v.value), v.pos)
  }

  // ---------------------------------------------------------------------
  // Points and the Z/M passes

  /** One point: two doubles, Y then X for geography, X then Y otherwise. */
  function ReadPoint(data: seq<byte>, pos: nat, isGeography: bool): Got<Point>
  {
    var first := ReadDouble(data, pos);
    var second := ReadDouble(data, first.pos);
    var p := if isGeography then NewPoint(second.value, first.value)
             else NewPoint(first.value, second.value);
    Got(p, second.pos)
  }

  /** readPoints: `count` points read one after another. */
  function ReadPoints(data: seq<byte>, pos: nat, count: nat, isGeography: bool): (r: Got<seq<Point>>)
    ensures |r.value| == count
    decreases count
  {
    if count == 0 then Got([], pos)
    else
      var prev := ReadPoints(data, pos, count - 1, isGeography);
      var pt := ReadPoint(data, prev.pos, isGeography);
      Got(prev.value + [pt.value], pt.pos)
  }

  /** One more iteration of readPoints reads one more point where the
      previous ones left the cursor. */
  lemma ReadPointsStep(data: seq<byte>, pos: nat, count: nat, isGeography: bool)
    ensures var prev := ReadPoints(data, pos, count, isGeography);
      var pt := ReadPoint(data, prev.pos, isGeography);
      ReadPoints(data, pos, count + 1, isGeography) == Got(prev.value + [pt.value], pt.pos)
  {
  }

  /** The cursor after readPointsZ / readPointsM over n points: one double
      read per point, each value thrown away. */
  function SkipDoubles(data: seq<byte>, pos: nat, n: nat): nat
    decreases n
  {
    if n == 0 then pos else ReadDouble(data, SkipDoubles(data, pos, n - 1)).pos
  }

  /** How many whole 8-byte groups remain after p0. */
  function WholeDoubles(data: seq<byte>, p0: nat): nat
  {
    if p0 <= |data| then (|data| - p0) / 8 else 0
  }

  /** The cursor after n double reads from p0: the reads succeed while whole
      groups remain and then all fail in place. */
  function DoublesEnd(data: seq<byte>, p0: nat, n: nat): nat
  {
    p0 + 8 * Min(n, WholeDoubles(data, p0))
  }

  /** The value of the j-th double read from p0: the j-th 8-byte group if it
      is complete, 0.0 otherwise. */
  function DoubleSlot(data: seq<byte>, p0: nat, j: nat): Float64
  {
    if p0 + 8 * (j + 1) <= |data| then DoubleOfBytes(data[p0 + 8 * j .. p0 + 8 * j + 8])
    else ZERO_DOUBLE
  }

  /** The j-th double read from p0 starts where j reads left the cursor and
      yields DoubleSlot j. */
  lemma DoubleReadStep(data: seq<byte>, p0: nat, j: nat)
    ensures ReadDouble(data, DoublesEnd(data, p0, j)) == Got(DoubleSlot(data, p0, j), DoublesEnd(data, p0, j + 1))
  {
    var w := WholeDoubles(data, p0);
    if p0 <= |data| {
      assert 8 * w <= |data| - p0 < 8 * w + 8;
    }
  }

  /** n skipped doubles move the cursor to DoublesEnd. */
  lemma {:induction false} SkipDoublesEnd(data: seq<byte>, p0: nat, n: nat)
    ensures SkipDoubles(data, p0, n) == DoublesEnd(data, p0, n)
    decreases n
  {
    if n > 0 {
      SkipDoublesEnd(data, p0, n - 1);
      DoubleReadStep(data, p0, n - 1);
    }
  }

  /** The point built from double reads 2k and 2k+1 after p0. */
  function PointSlot(data: seq<byte>, p0: nat, k: nat, isGeography: bool): Point
  {
    if isGeography then NewPoint(DoubleSlot(data, p0, 2 * k + 1), DoubleSlot(data, p0, 2 * k))
    else NewPoint(DoubleSlot(data, p0, 2 * k), DoubleSlot(data, p0, 2 * k + 1))
  }

  /** The k-th point read from p0 starts where 2k double reads left the
      cursor and is PointSlot k. */
  lemma PointReadStep(data: seq<byte>, p0: nat, k: nat, isGeography: bool)
    ensures ReadPoint(data, DoublesEnd(data, p0, 2 * k), isGeography)
         == Got(PointSlot(data, p0, k, isGeography), DoublesEnd(data, p0, 2 * k + 2))
  {
    DoubleReadStep(data, p0, 2 * k);
    DoubleReadStep(data, p0, 2 * k + 1);
  }

  /** readPoints leaves the cursor after 2*count double reads and yields
      count points. */
  lemma {:induction false} ReadPointsEnd(data: seq<byte>, p0: nat, count: nat, isGeography: bool)
    ensures ReadPoints(data, p0, count, isGeography).pos == DoublesEnd(data, p0, 2 * count)
    decreases count
  {
    if count > 0 {
      ReadPointsEnd(data, p0, count - 1, isGeography);
      PointReadStep(data, p0, count - 1, isGeography);
    }
  }

  /** Point k of readPoints is built from double reads 2k and 2k+1. */
  lemma {:induction false} ReadPointsNth(data: seq<byte>, p0: nat, count: nat, isGeography: bool, k: nat)
    requires k < count
    ensures ReadPoints(data, p0, count, isGeography).value[k] == PointSlot(data, p0, k, isGeography)
    decreases count
  {
    ReadPointsEnd(data, p0, count - 1, isGeography);
    ReadPointsEnd(data, p0, count, isGeography);
    if k == count - 1 {
      PointReadStep(data, p0, k, isGeography);
    } else {
      ReadPointsNth(data, p0, count - 1, isGeography, k);
    }
  }

  /** readPoints yields exactly `count` points whatever the buffer holds:
      point k is built from double reads 2k and 2k+1 (axes swapped for
      geography), so a truncated buffer gives zero coordinates rather than
      fewer points. */
  lemma ReadPointsSlots(data: seq<byte>, p0: nat, count: nat, isGeography: bool)
    ensures var r := ReadPoints(data, p0, count, isGeography);
      && |r.value| == count
      && r.pos == DoublesEnd(data, p0, 2 * count)
      && forall k :: 0 <= k < count ==> r.value[k] == PointSlot(data, p0, k, isGeography)
  {
    ReadPointsEnd(data, p0, count, isGeography);
    forall k | 0 <= k < count
      ensures ReadPoints(data, p0, count, isGeography).value[k] == PointSlot(data, p0, k, isGeography)
    {
      ReadPointsNth(data, p0, count, isGeography, k);
    }
  }

  // ---------------------------------------------------------------------
  // Figures, shapes and segments

  /** One figure: an attribute byte then a uint32 point offset. */
  function ReadFigure(data: seq<byte>, pos: nat): Got<Figure>
  {
    var a := ReadUInt8(data, pos);
    var o := ReadUInt32(data, a.pos);
    Got(Figure(a.value, o.value), o.pos)
  }

  function FigureLoop(data: seq<byte>, pos: nat, n: nat): Got<seq<Figure>>
    decreases n
  {
    if n == 0 then Got([], pos)
    else
      var prev := FigureLoop(data, pos, n - 1);
      var f := ReadFigure(data, prev.pos);
      Got(prev.value + [f.value], f.pos)
  }

  /** readFigures: nothing for a count of 0; the synthetic (STROKE, 0)
      figure without reading for the P and L shorthands; otherwise `count`
      figures read from the buffer. */
  function ReadFigures(data: seq<byte>, pos: nat, count: UInt32, props: Properties): Got<seq<Figure>>
  {
    if count == 0 then Got([], pos)
    else if props.p || props.l then Got([Figure(FIGURE_STROKE, 0)], pos)
    else FigureLoop(data, pos, count)
  }

  /** One shape: uint32 parent, uint32 figure offset (both stored as int32)
      and a type byte. */
  function ReadShape(data: seq<byte>, pos: nat): Got<Shape>
  {
    var parent := ReadUInt32(data, pos);
    var figure := ReadUInt32(data, parent.pos);
    var t := ReadUInt8(data, figure.pos);
    Got(Shape(ToInt32(parent.value), ToInt32(figure.value), t.value), t.pos)
  }

  function ShapeLoop(data: seq<byte>, pos: nat, n: nat): Got<seq<Shape>>
    decreases n
  {
    if n == 0 then Got([], pos)
    else
      var prev := ShapeLoop(data, pos, n - 1);
      var s := ReadShape(data, prev.pos);
      Got(prev.value + [s.value], s.pos)
  }

  /** The number of iterations of `for (int i = 0; i < int(count); i++)`:
      a count of 2^31 or more converts to a negative int and runs none. */
  function SignedLoopBound(count: UInt32): (n: nat)
    ensures n < TWO_31
    ensures count < TWO_31 ==> n == count
    ensures count >= TWO_31 ==> n == 0
  {
    var bound := ToInt32(count);
    if bound > 0 then bound else 0
  }

  /** readShapes: nothing for a count of 0; the synthetic root Point or
      LineString for the P and L shorthands; otherwise the shapes read from
      the buffer. */
  function ReadShapes(data: seq<byte>, pos: nat, count: UInt32, props: Properties): Got<seq<Shape>>
  {
    if count < 1 then Got([], pos)
    else if props.p then Got([Shape(-1, 0, SHAPE_POINT)], pos)
    else if props.l then Got([Shape(-1, 0, SHAPE_LINESTRING)], pos)
    else ShapeLoop(data, pos, SignedLoopBound(count))
  }

  function SegmentLoop(data: seq<byte>, pos: nat, n: nat): Got<seq<Segment>>
    decreases n
  {
    if n == 0 then Got([], pos)
    else
      var prev := SegmentLoop(data, pos, n - 1);
      var t := ReadUInt8(data, prev.pos);
      Got(prev.value + [Segment(t.value)], t.pos)
  }

  /** readSegments: one type byte per segment. */
  function ReadSegments(data: seq<byte>, pos: nat, count: UInt32): Got<seq<Segment>>
  {
    if count < 1 then Got([], pos) else SegmentLoop(data, pos, SignedLoopBound(count))
  }

  /** The uint32 stored little-endian in the four bytes at q. */
  function WordAt(data: seq<byte>, q: nat): UInt32
    requires q + 4 <= |data|
  {
    assert Pow256(4) == TWO_32;
    LittleEndian(data[q .. q + 4])
  }

  /** The figure record stored in the five bytes at q. */
  function FigureRecord(data: seq<byte>, q: nat): Figure
    requires q + 5 <= |data|
  {
    Figure(data[q], WordAt(data, q + 1))
  }

  /** The shape record stored in the nine bytes at q: two uint32 offsets
      converted to int32, then the type byte. */
  function ShapeRecord(data: seq<byte>, q: nat): Shape
    requires q + 9 <= |data|
  {
    Shape(ToInt32(WordAt(data, q)), ToInt32(WordAt(data, q + 4)), data[q + 8])
  }

  /** A whole figure record is read from five bytes. */
  lemma ReadFigureExact(data: seq<byte>, q: nat)
    requires q + 5 <= |data|
    ensures ReadFigure(data, q) == Got(FigureRecord(data, q), q + 5)
  {
    assert LittleEndian(data[q..q + 1]) == data[q] as nat;
  }

  /** A whole shape record is read from nine bytes. */
  lemma ReadShapeExact(data: seq<byte>, q: nat)
    requires q + 9 <= |data|
    ensures ReadShape(data, q) == Got(ShapeRecord(data, q), q + 9)
  {
    assert LittleEndian(data[q + 8..q + 9]) == data[q + 8] as nat;
  }

  /** A loop round that appends the value x read at the cursor q, the read
      leaving the cursor at r. */
  lemma GotAppend<T>(cur: Got<seq<T>>, prev: Got<seq<T>>, next: Got<T>, done: seq<T>, x: T, q: nat, r: nat)
    requires prev == Got(done, q)
    requires next == Got(x, r)
    requires cur == Got(prev.value + [next.value], next.pos)
    ensures cur == Got(done + [x], r)
  {
  }

  /** One round of the figure loop reads one figure where the previous
      rounds left the cursor. */
  lemma FigureLoopUnfold(data: seq<byte>, p0: nat, n: nat)
    requires n > 0
    ensures var prev := FigureLoop(data, p0, n - 1);
      var f := ReadFigure(data, prev.pos);
      FigureLoop(data, p0, n) == Got(prev.value + [f.value], f.pos)
  {
  }

  /** The n figure records stored one after another from p0. */
  function FigureRecords(data: seq<byte>, p0: nat, n: nat): (r: seq<Figure>)
    requires p0 + 5 * n <= |data|
    ensures |r| == n
    decreases n
  {
    if n == 0 then [] else FigureRecords(data, p0, n - 1) + [FigureRecord(data, p0 + 5 * (n - 1))]
  }

  /** Figure k of those is the record at p0+5k. */
  lemma {:induction false} FigureRecordsAt(data: seq<byte>, p0: nat, n: nat, k: nat)
    requires p0 + 5 * n <= |data| && k < n
    ensures FigureRecords(data, p0, n)[k] == FigureRecord(data, p0 + 5 * k)
    decreases n
  {
    if k < n - 1 {
      FigureRecordsAt(data, p0, n - 1, k);
    }
  }

  /** With enough bytes, the figure loop reads exactly the records stored
      from p0 and the cursor ends 5n bytes further. */
  lemma {:induction false} FigureLoopExact(data: seq<byte>, p0: nat, n: nat)
    requires p0 + 5 * n <= |data|
    ensures FigureLoop(data, p0, n) == Got(FigureRecords(data, p0, n), p0 + 5 * n)
    decreases n
  {
    if n > 0 {
      var q := p0 + 5 * (n - 1);
      FigureLoopExact(data, p0, n - 1);
      ReadFigureExact(data, q);
      FigureLoopUnfold(data, p0, n);
      GotAppend(FigureLoop(data, p0, n), FigureLoop(data, p0, n - 1), ReadFigure(data, FigureLoop(data, p0, n - 1).pos),
                FigureRecords(data, p0, n - 1), FigureRecord(data, q), q, q + 5);
    }
  }

  /** One round of the shape loop reads one shape where the previous
      rounds left the cursor. */
  lemma ShapeLoopUnfold(data: seq<byte>, p0: nat, n: nat)
    requires n > 0
    ensures var prev := ShapeLoop(data, p0, n - 1);
      var sh := ReadShape(data, prev.pos);
      ShapeLoop(data, p0, n) == Got(prev.value + [sh.value], sh.pos)
  {
  }

  /** The n shape records stored one after another from p0. */
  function ShapeRecords(data: seq<byte>, p0: nat, n: nat): (r: seq<Shape>)
    requires p0 + 9 * n <= |data|
    ensures |r| == n
    decreases n
  {
    if n == 0 then [] else ShapeRecords(data, p0, n - 1) + [ShapeRecord(data, p0 + 9 * (n - 1))]
  }

  /** Shape k of those is the record at p0+9k. */
  lemma {:induction false} ShapeRecordsAt(data: seq<byte>, p0: nat, n: nat, k: nat)
    requires p0 + 9 * n <= |data| && k < n
    ensures ShapeRecords(data, p0, n)[k] == ShapeRecord(data, p0 + 9 * k)
    decreases n
  {
    if k < n - 1 {
      ShapeRecordsAt(data, p0, n - 1, k);
    }
  }

  /** With enough bytes, the shape loop reads exactly the records stored
      from p0 and the cursor ends 9n bytes further. */
  lemma {:induction false} ShapeLoopExact(data: seq<byte>, p0: nat, n: nat)
    requires p0 + 9 * n <= |data|
    ensures ShapeLoop(data, p0, n) == Got(ShapeRecords(data, p0, n), p0 + 9 * n)
    decreases n
  {
    if n > 0 {
      var q := p0 + 9 * (n - 1);
      ShapeLoopExact(data, p0, n - 1);
      ReadShapeExact(data, q);
      ShapeLoopUnfold(data, p0, n);
      GotAppend(ShapeLoop(data, p0, n), ShapeLoop(data, p0, n - 1), ReadShape(data, ShapeLoop(data, p0, n - 1).pos),
                ShapeRecords(data, p0, n - 1), ShapeRecord(data, q), q, q + 9);
    }
  }

  /** Segment k is the byte at p0+k, or 0 past the end; the loop always
      yields n segments and stops the cursor at the end of the buffer. */
  lemma {:induction false} SegmentLoopBytes(data: seq<byte>, p0: nat, n: nat)
    requires p0 <= |data|
    ensures var r := SegmentLoop(data, p0, n);
      && r.pos == Min(p0 + n, |data|) && |r.value| == n
      && forall k :: 0 <= k < n ==>
           r.value[k] == Segment(if p0 + k < |data| then data[p0 + k] else 0)
    decreases n
  {
    if n > 0 {
      SegmentLoopBytes(data, p0, n - 1);
      var q := Min(p0 + n - 1, |data|);
      if q < |data| {
        assert LittleEndian(data[q..q + 1]) == data[q] as nat;
      }
    }
  }

  // ---------------------------------------------------------------------
  // Header and whole value

  function Pow2(k: nat): (r: nat)
    ensures r >= 1
  {
    if k == 0 then 1 else 2 * Pow2(k - 1)
  }

  /** `(flags & (1 << k)) != 0`. */
  function Bit(flags: byte, k: nat): bool
  {
    (flags as int / Pow2(k)) % 2 == 1
  }

  /** The flags byte: bit 0 Z, 1 M, 2 V, 3 P, 4 L, and bit 5 H only when the
      version is 2 (H otherwise keeps its initial false). */
  function FlagsOf(flags: byte, version: byte): Properties
  {
    Properties(
      h := version == 2 && Bit(flags, 5),
      l := Bit(flags, 4),
      p := Bit(flags, 3),
      v := Bit(flags, 2),
      m := Bit(flags, 1),
      z := Bit(flags, 0))
  }

  /** The geography SRID range accepted by the decoder. */
  predicate ValidGeographySrid(srid: int)
  {
    4210 <= srid <= 4999
  }

  /** An element count: fixed by a shorthand flag or read as a uint32. */
  function CountOf(data: seq<byte>, pos: nat, fixed: Option<UInt32>): Got<UInt32>
  {
    match fixed
    case Some(n) => Got(n, pos)
    case None => ReadUInt32(data, pos)
  }

  /** parseGeometry: the SRID, then version, flags, points, the Z and M
      passes, figures, shapes and (version 2 only) segments, with three
      early exits that leave the rest of the value as initialised. */
  function Parse(data: seq<byte>, pos: nat, isGeography: bool): Got<Geometry>
  {
    var sridRead := ReadUInt32(data, pos);
    var g0 := EMPTY_GEOMETRY.(srid := ToInt32(sridRead.value));
    if isGeography && g0.srid == -1 then Got(g0, sridRead.pos)
    else if isGeography && !ValidGeographySrid(g0.srid) then
      Got(g0.(properties := g0.properties.(v := false)), sridRead.pos)
    else
      var ver := ReadUInt8(data, sridRead.pos);
      var g1 := g0.(version := ver.value);
      if ver.value > 2 then Got(g1.(properties := g1.properties.(v := false)), ver.pos)
      else
        var flags := ReadUInt8(data, ver.pos);
        var props := FlagsOf(flags.value, ver.value);
        if props.p && props.l then Got(g1.(properties := props.(v := false)), flags.pos)
        else ParseArrays(data, flags.pos, isGeography, g1.(properties := props))
  }

  /** The array part of parseGeometry, after the flags byte: points (with
      the Z and M passes), figures, shapes, then segments, in that order. */
  function ParseArrays(data: seq<byte>, pos: nat, isGeography: bool, g: Geometry): Got<Geometry>
  {
    var points := PointsSection(data, pos, isGeography, g.properties);
    var figures := FiguresSection(data, points.pos, g.properties);
    var shapes := ShapesSection(data, figures.pos, g.properties);
    var segments := SegmentsSection(data, shapes.pos, g.version);
    Got(g.(points := points.value, figures := figures.value, shapes := shapes.value, segments := segments.value),
        segments.pos)
  }

  /** The point count (1 for P, 2 for L, else read), the points, and the Z
      and M passes, which consume one double per point and keep nothing. */
  function PointsSection(data: seq<byte>, pos: nat, isGeography: bool, props: Properties): Got<seq<Point>>
  {
    var n := CountOf(data, pos, if props.p then Some(1) else if props.l then Some(2) else None);
    var points := ReadPoints(data, n.pos, n.value, isGeography);
    var afterZ := if props.z then SkipDoubles(data, points.pos, |points.value|) else points.pos;
    var afterM := if props.m then SkipDoubles(data, afterZ, |points.value|) else afterZ;
    Got(points.value, afterM)
  }

  /** The figure count (1 for a shorthand, else read) and the figures. */
  function FiguresSection(data: seq<byte>, pos: nat, props: Properties): Got<seq<Figure>>
  {
    var n := CountOf(data, pos, if props.p || props.l then Some(1) else None);
    ReadFigures(data, n.pos, n.value, props)
  }

  /** The shape count (1 for a shorthand, else read) and the shapes. */
  function ShapesSection(data: seq<byte>, pos: nat, props: Properties): Got<seq<Shape>>
  {
    var n := CountOf(data, pos, if props.p || props.l then Some(1) else None);
    ReadShapes(data, n.pos, n.value, props)
  }

  /** The segment count and segments, present in version 2 only. */
  function SegmentsSection(data: seq<byte>, pos: nat, version: byte): Got<seq<Segment>>
  {
    if version == 2 then
      var n := ReadUInt32(data, pos);
      ReadSegments(data, n.pos, n.value)
    else Got([], pos)
  }
}
