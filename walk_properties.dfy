/** What the tree walk promises: polygon rings follow the shape's figures,
    multi-part shapes take the maximal run of children, curves and unknown
    tags give empty geometry, and on well-formed offsets the walk never
    reads out of range. */
module WalkProperties {
  import opened Bytes
  import opened Wrappers
  import opened ClrGeometry
  import opened ClrWire
  import opened GeoClrWalk

  /** read_polygon: every figure of the shape has a valid point range; a
      shape without figures gives an empty polygon; otherwise the first
      figure is the exterior ring and each later figure of the shape is a
      hole, in order. */
  lemma PolygonRingSplit(g: Geometry, i: nat)
    requires PolygonAt(g, i).Some?
    ensures RingsOk(g, g.shapes[i].figureOffset, |FiguresFromShape(g, i)|)
    ensures |FiguresFromShape(g, i)| == 0 ==> PolygonAt(g, i).value == Polygon([], [])
    ensures |FiguresFromShape(g, i)| > 0 ==> PolygonAt(g, i).value.exterior == FigureCoords(g, g.shapes[i].figureOffset)
    ensures |FiguresFromShape(g, i)| > 0 ==> |PolygonAt(g, i).value.holes| == |FiguresFromShape(g, i)| - 1
    ensures forall k :: 0 <= k < |FiguresFromShape(g, i)| - 1 ==>
      PolygonAt(g, i).value.holes[k] == FigureCoords(g, g.shapes[i].figureOffset + 1 + k)
  {
    var first := g.shapes[i].figureOffset;
    var n := |FiguresFromShape(g, i)|;
    assert RingsOk(g, first, n);
    assert PolygonAt(g, i).value == PolygonOf(Rings(g, first, n));
    RingsPolygon(g, first, n);
  }

  /** The polygon built from the rings of figures first .. first+n-1. */
  lemma RingsPolygon(g: Geometry, first: int, n: nat)
    requires RingsOk(g, first, n)
    ensures n == 0 ==> PolygonOf(Rings(g, first, n)) == Polygon([], [])
    ensures n > 0 ==> PolygonOf(Rings(g, first, n)).exterior == FigureCoords(g, first)
    ensures n > 0 ==> |PolygonOf(Rings(g, first, n)).holes| == n - 1
    ensures forall k :: 0 <= k < n - 1 ==> PolygonOf(Rings(g, first, n)).holes[k] == FigureCoords(g, first + 1 + k)
  {
    var rings := Rings(g, first, n);
    PolygonOfParts(rings);
    forall j | 1 <= j < n
      ensures rings[j] == FigureCoords(g, first + j)
    {
    }
  }

  /** The first ring is the exterior and the rest are the holes. */
  lemma PolygonOfParts(rings: seq<seq<Coord>>)
    ensures rings == [] ==> PolygonOf(rings) == Polygon([], [])
    ensures rings != [] ==> PolygonOf(rings).exterior == rings[0] && |PolygonOf(rings).holes| == |rings| - 1
    ensures forall k :: 0 <= k < |rings| - 1 ==> PolygonOf(rings).holes[k] == rings[k + 1]
  {
  }

  /** A linestring is the points of its first figure, or empty when the
      shape has no figures. */
  lemma LineIsFirstFigure(g: Geometry, i: nat)
    requires LineAt(g, i).Some?
    ensures FiguresFromShape(g, i) == [] ==> LineAt(g, i).value == []
    ensures FiguresFromShape(g, i) != [] ==>
      var f := g.shapes[i].figureOffset;
      && |LineAt(g, i).value| == |PointsFromFigure(g, f)|
      && forall k :: 0 <= k < |PointsFromFigure(g, f)| ==>
           LineAt(g, i).value[k] == Coord(PointsFromFigure(g, f)[k].x, PointsFromFigure(g, f)[k].y)
  {
  }

  /** A multi-part shape at pos takes exactly the shapes after it up to the
      end of the run of children, every one of them naming pos as parent,
      and leaves the cursor on the last one. */
  lemma MultiPolygonTakesRun(g: Geometry, pos: nat)
    requires pos < |g.shapes| && g.shapes[pos].openGisType == SHAPE_MULTIPOLYGON
    requires Read(g, pos).Some?
    ensures var r := Read(g, pos).value;
      var last := RunEnd(g, pos, pos);
      && r.pos == last
      && r.value.GMultiPolygon?
      && |r.value.polygons| == last - pos
      && (forall k :: 0 <= k < last - pos ==> Some(r.value.polygons[k]) == PolygonAt(g, pos + 1 + k))
      && (forall k :: pos < k <= last ==> ToUint32(g.shapes[k].parentOffset) == pos)
      && !ContinuesRun(g, pos, last)
  {
  }

  /** CircularString, CompoundCurve, CurvePolygon and every tag outside
      1..10 give an empty geometry and leave the cursor where it was. */
  lemma CurvesAndUnknownTagsAreEmpty(g: Geometry, pos: nat)
    requires pos < |g.shapes|
    requires g.shapes[pos].openGisType !in {SHAPE_POINT, SHAPE_LINESTRING, SHAPE_POLYGON, SHAPE_MULTIPOINT,
                                            SHAPE_MULTILINESTRING, SHAPE_MULTIPOLYGON, SHAPE_GEOMETRY_COLLECTION}
    ensures Read(g, pos) == Some(Got(Empty, pos))
  {
  }

  /** With the format's offset invariants every figure of a shape has a
      valid point range, so linestrings and polygons are always defined. */
  lemma OrderedShapesDefined(g: Geometry, i: nat)
    requires OffsetsOrdered(g) && i < |g.shapes|
    ensures LineAt(g, i).Some? && PolygonAt(g, i).Some?
  {
    OrderedOffsetsMakeRangesValid(g);
    var n := |FiguresFromShape(g, i)|;
    var first := g.shapes[i].figureOffset;
    forall j | first <= j < first + n
      ensures PointRangeOk(g, j)
    {
      assert j < |g.figures|;
    }
  }

  /** Whether the walk can read the shape at i as a point: a Point shape,
      or a shape whose ParentOffset, taken unsigned as the cursor comparison
      does, names a MultiPoint. */
  predicate ReadAsPoint(g: Geometry, i: nat)
    requires i < |g.shapes|
  {
    || g.shapes[i].openGisType == SHAPE_POINT
    || (ToUint32(g.shapes[i].parentOffset) < |g.shapes| && g.shapes[ToUint32(g.shapes[i].parentOffset)].openGisType == SHAPE_MULTIPOINT)
  }

  /** A geometry the walk can decode without an out-of-range read: ordered
      offsets, and every shape the walk may read as a point owns a first
      figure whose point exists. Multi-part and collection parents, which
      share their FigureOffset with their first child, and empty lines and
      polygons need no point. */
  predicate WellFormed(g: Geometry)
  {
    && OffsetsOrdered(g)
    && forall i :: 0 <= i < |g.shapes| && ReadAsPoint(g, i) ==> PointAt(g, i).Some?
  }

  /** On a well-formed geometry every multi-part read is defined: the points
      of a MultiPoint's children, and the lines and polygons of any run. */
  lemma WellFormedPartsDefined(g: Geometry, pos: nat)
    requires WellFormed(g) && pos < |g.shapes|
    ensures g.shapes[pos].openGisType == SHAPE_MULTIPOINT ==> Parts(g, pos, RunEnd(g, pos, pos), PointAt).Some?
    ensures Parts(g, pos, RunEnd(g, pos, pos), LineAt).Some?
    ensures Parts(g, pos, RunEnd(g, pos, pos), PolygonAt).Some?
  {
    forall k | 0 <= k < |g.shapes|
      ensures LineAt(g, k).Some? && PolygonAt(g, k).Some?
    {
      OrderedShapesDefined(g, k);
    }
    if g.shapes[pos].openGisType == SHAPE_MULTIPOINT {
      var last := RunEnd(g, pos, pos);
      forall k | pos < k <= last
        ensures PointAt(g, k).Some?
      {
        assert ToUint32(g.shapes[k].parentOffset) == pos;
        assert ReadAsPoint(g, k);
      }
    }
  }

  /** On a well-formed geometry read() is defined at every shape, whatever
      the nesting of collections. */
  lemma {:induction false} WellFormedReadDefined(g: Geometry, pos: nat)
    requires WellFormed(g) && pos < |g.shapes|
    ensures Read(g, pos).Some?
    decreases |g.shapes| - pos, 1
  {
    var t := g.shapes[pos].openGisType;
    if t == SHAPE_POINT {
      assert ReadAsPoint(g, pos);
    } else if t == SHAPE_LINESTRING || t == SHAPE_POLYGON {
      OrderedShapesDefined(g, pos);
    } else if t == SHAPE_MULTIPOINT || t == SHAPE_MULTILINESTRING || t == SHAPE_MULTIPOLYGON {
      WellFormedPartsDefined(g, pos);
    } else if t == SHAPE_GEOMETRY_COLLECTION {
      WellFormedCollectDefined(g, pos, pos);
    }
  }

  lemma {:induction false} WellFormedCollectDefined(g: Geometry, parent: nat, cur: nat)
    requires WellFormed(g) && parent <= cur < |g.shapes|
    ensures Collect(g, parent, cur).Some?
    decreases |g.shapes| - cur, 0
  {
    if ContinuesRun(g, parent, cur) {
      WellFormedReadDefined(g, cur + 1);
      var child := Read(g, cur + 1).value;
      WellFormedCollectDefined(g, parent, child.pos);
    }
  }

  /** On a well-formed geometry the whole walk is defined. */
  lemma WellFormedWalkDefined(g: Geometry)
    requires WellFormed(g)
    ensures Walk(g).Some?
  {
    if g.shapes != [] {
      WellFormedReadDefined(g, 0);
    }
  }

  /** A Polygon shape over figures with Offsets 0, 5 and 9 and twelve
      points. */
  function PolygonExample(pts: seq<Point>): Geometry
  {
    EMPTY_GEOMETRY.(
      points := pts,
      figures := [Figure(FIGURE_EXTERIOR_RING, 0), Figure(FIGURE_INTERIOR_RING, 5), Figure(FIGURE_INTERIOR_RING, 9)],
      shapes := [Shape(-1, 0, SHAPE_POLYGON)])
  }

  /** In the polygon example the exterior ring has the first five points
      and the holes the next four and the last three. */
  lemma PolygonRingSplitExample(pts: seq<Point>)
    requires |pts| == 12
    ensures Walk(PolygonExample(pts)) == Some(GPolygon(Polygon(ToCoords(pts[0..5]), [ToCoords(pts[5..9]), ToCoords(pts[9..12])])))
  {
    var g := PolygonExample(pts);
    assert FiguresFromShape(g, 0) == g.figures;
    assert PointsFromFigure(g, 0) == pts[0..5];
    assert PointsFromFigure(g, 1) == pts[5..9];
    assert PointsFromFigure(g, 2) == pts[9..12];
    assert RingsOk(g, 0, 3);
    var rings := Rings(g, 0, 3);
    assert rings == [ToCoords(pts[0..5]), ToCoords(pts[5..9]), ToCoords(pts[9..12])];
    assert PolygonAt(g, 0) == Some(PolygonOf(rings));
  }

  /** A MultiPolygon root followed by two one-ring polygons naming it as
      parent and a third naming shape 1; the three figures have four points
      each. */
  function MultiPolygonExample(pts: seq<Point>): Geometry
  {
    EMPTY_GEOMETRY.(
      points := pts,
      figures := [Figure(FIGURE_EXTERIOR_RING, 0), Figure(FIGURE_EXTERIOR_RING, 4), Figure(FIGURE_EXTERIOR_RING, 8)],
      shapes := [Shape(-1, 0, SHAPE_MULTIPOLYGON), Shape(0, 0, SHAPE_POLYGON), Shape(0, 1, SHAPE_POLYGON), Shape(1, 2, SHAPE_POLYGON)])
  }

  /** The multi-part example is well formed although its root, which
      shares figure 0 with its first child, has no figure of its own. */
  lemma MultiPolygonExampleWellFormed(pts: seq<Point>)
    requires |pts| == 12
    ensures WellFormed(MultiPolygonExample(pts))
    ensures FiguresFromShape(MultiPolygonExample(pts), 0) == []
  {
    var g := MultiPolygonExample(pts);
    assert FigureEnd(g, 0) == 0;
    forall i | 0 <= i < |g.shapes|
      ensures !ReadAsPoint(g, i)
    {
      assert g.shapes[i].openGisType != SHAPE_POINT;
      assert ToUint32(g.shapes[i].parentOffset) < |g.shapes| ==> ToUint32(g.shapes[i].parentOffset) <= 1;
    }
  }

  /** In the multi-part example the walk takes shapes 1 and 2 and stops
      before shape 3, at the first ParentOffset that does not match. */
  lemma MultiPartContiguityExample(pts: seq<Point>)
    requires |pts| == 12
    ensures RunEnd(MultiPolygonExample(pts), 0, 0) == 2
    ensures Walk(MultiPolygonExample(pts)) == Some(GMultiPolygon([Polygon(ToCoords(pts[0..4]), []), Polygon(ToCoords(pts[4..8]), [])]))
  {
    var g := MultiPolygonExample(pts);
    assert RunEnd(g, 0, 0) == 2 by {
      assert ContinuesRun(g, 0, 0) && ContinuesRun(g, 0, 1) && !ContinuesRun(g, 0, 2);
    }
    assert FiguresFromShape(g, 1) == g.figures[0..1];
    assert FiguresFromShape(g, 2) == g.figures[1..2];
    assert PointsFromFigure(g, 0) == pts[0..4];
    assert PointsFromFigure(g, 1) == pts[4..8];
    assert RingsOk(g, 0, 1) && RingsOk(g, 1, 1);
    assert Rings(g, 0, 1) == [ToCoords(pts[0..4])];
    assert Rings(g, 1, 1) == [ToCoords(pts[4..8])];
    var parts := [Polygon(ToCoords(pts[0..4]), []), Polygon(ToCoords(pts[4..8]), [])];
    assert PolygonOf(Rings(g, 0, 1)) == parts[0];
    assert PolygonOf(Rings(g, 1, 1)) == parts[1];
    assert PolygonAt(g, 1) == Some(parts[0]);
    assert PolygonAt(g, 2) == Some(parts[1]);
    PartsOfValues(g, 0, 2, PolygonAt, parts);
    assert Read(g, 0) == Some(Got(GMultiPolygon(parts), 2));
  }
}
