/** The decoded, still flat form of a SQL Server geometry or geography value
    (structures of section 2.1 of [MS-SSCLRT]): the tag values, the Figure,
    Shape, Point, Segment and SerializationProperties records, and the two
    range queries the tree walk uses to find a shape's figures and a figure's
    points. */
module ClrGeometry {
  import opened Bytes
  import opened Wrappers

  // FIGURE attribute tags. The version 1 and version 2 tags share the values
  // 0..2, so the byte alone does not say which generation it belongs to.
  const FIGURE_INTERIOR_RING: byte := 0x00
  const FIGURE_STROKE: byte := 0x01
  const FIGURE_EXTERIOR_RING: byte := 0x02
  const FIGURE_V2_POINT: byte := 0x00
  const FIGURE_V2_LINE: byte := 0x01
  const FIGURE_V2_ARC: byte := 0x02
  const FIGURE_V2_COMPOSITE_CURVE: byte := 0x03

  // SHAPE (OpenGIS type) tags; the last three exist only in version 2.
  const SHAPE_POINT: byte := 0x01
  const SHAPE_LINESTRING: byte := 0x02
  const SHAPE_POLYGON: byte := 0x03
  const SHAPE_MULTIPOINT: byte := 0x04
  const SHAPE_MULTILINESTRING: byte := 0x05
  const SHAPE_MULTIPOLYGON: byte := 0x06
  const SHAPE_GEOMETRY_COLLECTION: byte := 0x07
  const SHAPE_CIRCULAR_STRING: byte := 0x08
  const SHAPE_COMPOUND_CURVE: byte := 0x09
  const SHAPE_CURVE_POLYGON: byte := 0x0A

  // SEGMENT tags (version 2).
  const SEGMENT_LINE: byte := 0x00
  const SEGMENT_ARC: byte := 0x01
  const SEGMENT_FIRST_LINE: byte := 0x02
  const SEGMENT_FIRST_ARC: byte := 0x03

  /** A figure: its attribute byte (cast from the wire without a check) and
      the unsigned index of its first point. */
  datatype Figure = Figure(attribute: byte, offset: UInt32)

  /** A shape: signed 32-bit parent and first-figure indices (a parent of -1
      marks the root) and its OpenGIS type byte. */
  datatype Shape = Shape(parentOffset: Int32, figureOffset: Int32, openGisType: byte)

  /** A point. Z and M are None where the C++ field is left uninitialised:
      the two-argument constructor sets only X and Y. */
  datatype Point = Point(x: Float64, y: Float64, z: Option<Float64>, m: Option<Float64>)

  /** The C++ constructor Point(x, y). */
  function NewPoint(x: Float64, y: Float64): Point
  {
    Point(x, y, None, None)
  }

  datatype Segment = Segment(segmentType: byte)

  /** The bits of the flags byte (H only in version 2). */
  datatype Properties = Properties(h: bool, l: bool, p: bool, v: bool, m: bool, z: bool)

  datatype Geometry = Geometry(
    srid: Int32,
    version: byte,
    properties: Properties,
    points: seq<Point>,
    figures: seq<Figure>,
    shapes: seq<Shape>,
    segments: seq<Segment>)

  /** The value-initialised Geometry (`Geometry g = {}`): zeros, false and
      empty sequences. */
  const EMPTY_PROPERTIES: Properties := Properties(false, false, false, false, false, false)
  const EMPTY_GEOMETRY: Geometry := Geometry(0, 0, EMPTY_PROPERTIES, [], [], [], [])

  /** One past the last figure of shape i: the next shape's FigureOffset, or
      the end of Figures for the last shape. */
  function FigureEnd(g: Geometry, i: nat): int
    requires i < |g.shapes|
  {
    if i + 1 < |g.shapes| then g.shapes[i + 1].figureOffset else |g.figures|
  }

  /** What getFiguresFromShape(i) needs so that its iterator range is valid. */
  predicate FigureRangeOk(g: Geometry, i: nat)
    requires i < |g.shapes|
  {
    g.figures == [] || 0 <= g.shapes[i].figureOffset <= FigureEnd(g, i) <= |g.figures|
  }

  /** Geometry::getFiguresFromShape: the figures of shape i, none at all
      when the geometry has no figures. */
  function FiguresFromShape(g: Geometry, i: nat): (r: seq<Figure>)
    requires i < |g.shapes| && FigureRangeOk(g, i)
    ensures g.figures == [] ==> r == []
    ensures g.figures != [] ==> |r| == FigureEnd(g, i) - g.shapes[i].figureOffset
    ensures forall k :: 0 <= k < |r| ==> r[k] == g.figures[g.shapes[i].figureOffset + k]
  {
    if g.figures == [] then [] else g.figures[g.shapes[i].figureOffset .. FigureEnd(g, i)]
  }

  /** One past the last point of figure j: the next figure's Offset, or the
      end of Points for the last figure. */
  function PointEnd(g: Geometry, j: nat): int
    requires j < |g.figures|
  {
    if j + 1 < |g.figures| then g.figures[j + 1].offset else |g.points|
  }

  /** What getPointsFromFigure(j) needs so that its iterator range is valid. */
  predicate PointRangeOk(g: Geometry, j: int)
  {
    g.points == [] || (0 <= j < |g.figures| && g.figures[j].offset <= PointEnd(g, j) <= |g.points|)
  }

  /** Geometry::getPointsFromFigure: the points of figure j, none at all when
      the geometry has no points. */
  function PointsFromFigure(g: Geometry, j: int): (r: seq<Point>)
    requires PointRangeOk(g, j)
    ensures g.points == [] ==> r == []
    ensures g.points != [] ==> |r| == PointEnd(g, j) - g.figures[j].offset
    ensures forall k :: 0 <= k < |r| ==> r[k] == g.points[g.figures[j].offset + k]
  {
    if g.points == [] then [] else g.points[g.figures[j].offset .. PointEnd(g, j)]
  }

  /** The offset invariants of the format: figure offsets and shape figure
      offsets are non-decreasing and index within Points and Figures. */
  predicate OffsetsOrdered(g: Geometry)
  {
    && (forall j :: 0 <= j < |g.figures| ==> g.figures[j].offset <= |g.points|)
    && (forall j :: 0 <= j < |g.figures| - 1 ==> g.figures[j].offset <= g.figures[j + 1].offset)
    && (forall i :: 0 <= i < |g.shapes| ==> 0 <= g.shapes[i].figureOffset <= |g.figures|)
    && (forall i :: 0 <= i < |g.shapes| - 1 ==> g.shapes[i].figureOffset <= g.shapes[i + 1].figureOffset)
  }

  /** Under the offset invariants both range queries are defined everywhere:
      every shape's figures lie within Figures and every figure's points lie
      within Points. */
  lemma OrderedOffsetsMakeRangesValid(g: Geometry)
    requires OffsetsOrdered(g)
    ensures forall i :: 0 <= i < |g.shapes| ==> FigureRangeOk(g, i)
    ensures forall j :: 0 <= j < |g.figures| ==> PointRangeOk(g, j)
  {
  }

  /** The figures of shapes a, a+1, ... concatenated. */
  function FiguresOfShapesFrom(g: Geometry, a: nat): seq<Figure>
    requires OffsetsOrdered(g)
    decreases |g.shapes| - a
  {
    if a >= |g.shapes| then []
    else
      OrderedOffsetsMakeRangesValid(g);
      FiguresFromShape(g, a) + FiguresOfShapesFrom(g, a + 1)
  }

  /** The shapes' figure ranges are consecutive and cover the figures from
      the first shape's FigureOffset to the end: every figure belongs to
      exactly one shape, in order. */
  lemma {:induction false} ShapeRangesPartitionFigures(g: Geometry, a: nat)
    requires OffsetsOrdered(g) && g.figures != [] && a < |g.shapes|
    ensures FiguresOfShapesFrom(g, a) == g.figures[g.shapes[a].figureOffset..]
    decreases |g.shapes| - a
  {
    ShapeFiguresStep(g, a);
    if a + 1 < |g.shapes| {
      ShapeRangesPartitionFigures(g, a + 1);
      SliceSplit(g.figures, g.shapes[a].figureOffset, g.shapes[a + 1].figureOffset);
    }
  }

  /** One shape's figures, then the figures of the following shapes. */
  lemma ShapeFiguresStep(g: Geometry, a: nat)
    requires OffsetsOrdered(g) && g.figures != [] && a < |g.shapes|
    ensures 0 <= g.shapes[a].figureOffset <= FigureEnd(g, a) <= |g.figures|
    ensures FiguresOfShapesFrom(g, a) == g.figures[g.shapes[a].figureOffset..FigureEnd(g, a)] + FiguresOfShapesFrom(g, a + 1)
    ensures a + 1 == |g.shapes| ==> FiguresOfShapesFrom(g, a) == g.figures[g.shapes[a].figureOffset..]
  {
    OrderedOffsetsMakeRangesValid(g);
    if a + 1 == |g.shapes| {
      assert FiguresOfShapesFrom(g, a + 1) == [];
      assert g.figures[g.shapes[a].figureOffset..|g.figures|] + [] == g.figures[g.shapes[a].figureOffset..];
    }
  }

  /** A suffix is the slice up to mid followed by the suffix from mid. */
  lemma SliceSplit<T>(s: seq<T>, lo: int, mid: int)
    requires 0 <= lo <= mid <= |s|
    ensures s[lo..] == s[lo..mid] + s[mid..]
  {
  }

  /** The points of figures a, a+1, ... concatenated. */
  function PointsOfFiguresFrom(g: Geometry, a: nat): seq<Point>
    requires OffsetsOrdered(g)
    decreases |g.figures| - a
  {
    if a >= |g.figures| then []
    else
      OrderedOffsetsMakeRangesValid(g);
      PointsFromFigure(g, a) + PointsOfFiguresFrom(g, a + 1)
  }

  /** The figures' point ranges are consecutive and cover the points from
      the first figure's Offset to the end. */
  lemma {:induction false} FigureRangesPartitionPoints(g: Geometry, a: nat)
    requires OffsetsOrdered(g) && g.points != [] && a < |g.figures|
    ensures PointsOfFiguresFrom(g, a) == g.points[g.figures[a].offset..]
    decreases |g.figures| - a
  {
    FigurePointsStep(g, a);
    if a + 1 < |g.figures| {
      FigureRangesPartitionPoints(g, a + 1);
      SliceSplit(g.points, g.figures[a].offset, g.figures[a + 1].offset);
    }
  }

  /** One figure's points, then the points of the following figures. */
  lemma FigurePointsStep(g: Geometry, a: nat)
    requires OffsetsOrdered(g) && g.points != [] && a < |g.figures|
    ensures 0 <= g.figures[a].offset <= PointEnd(g, a) <= |g.points|
    ensures PointsOfFiguresFrom(g, a) == g.points[g.figures[a].offset..PointEnd(g, a)] + PointsOfFiguresFrom(g, a + 1)
    ensures a + 1 == |g.figures| ==> PointsOfFiguresFrom(g, a) == g.points[g.figures[a].offset..]
  {
    OrderedOffsetsMakeRangesValid(g);
    if a + 1 == |g.figures| {
      assert PointsOfFiguresFrom(g, a + 1) == [];
      assert g.points[g.figures[a].offset..|g.points|] + [] == g.points[g.figures[a].offset..];
    }
  }
}
