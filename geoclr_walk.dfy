/** The tree walk of mapnik_geoclr_reader as functions of the decoded flat
    Geometry: which following shapes are the children of a multi-part or
    collection shape, and which figures and points make up each part.

    Every function returns None exactly where the C++ would index a vector
    out of range or build a vector from an inverted iterator range (both
    undefined behaviour); the reader methods require Some. */
module GeoClrWalk {
  import opened Bytes
  import opened Wrappers
  import opened ClrGeometry
  import opened ClrWire

  /** An (X, Y) pair of the output geometry; Z and M are never emitted. */
  datatype Coord = Coord(x: Float64, y: Float64)

  /** A polygon: the exterior ring and the holes, in order. */
  datatype Polygon = Polygon(exterior: seq<Coord>, holes: seq<seq<Coord>>)

  /** The typed output geometry, one variant per kind the walk produces. */
  datatype Geom =
    | Empty
    | GPoint(point: Coord)
    | GLineString(line: seq<Coord>)
    | GPolygon(polygon: Polygon)
    | GMultiPoint(points: seq<Coord>)
    | GMultiLineString(lines: seq<seq<Coord>>)
    | GMultiPolygon(polygons: seq<Polygon>)
    | GCollection(members: seq<Geom>)

  /** The X and Y of each point, in order. */
  function ToCoords(ps: seq<Point>): seq<Coord>
  {
    seq(|ps|, k requires 0 <= k < |ps| => Coord(ps[k].x, ps[k].y))
  }

  /** The coordinates of the points of figure j. */
  function FigureCoords(g: Geometry, j: int): seq<Coord>
    requires PointRangeOk(g, j)
  {
    ToCoords(PointsFromFigure(g, j))
  }

  /** read_point for the shape at i: the point at the first figure's Offset. */
  function PointAt(g: Geometry, i: nat): Option<Coord>
  {
    if i >= |g.shapes| || !FigureRangeOk(g, i) then None
    else
      var figures := FiguresFromShape(g, i);
      if figures == [] || figures[0].offset >= |g.points| then None
      else Some(Coord(g.points[figures[0].offset].x, g.points[figures[0].offset].y))
  }

  /** read_linestring for the shape at i: nothing when the shape has no
      figures, else the points of figure FigureOffset. */
  function LineAt(g: Geometry, i: nat): Option<seq<Coord>>
  {
    if i >= |g.shapes| || !FigureRangeOk(g, i) then None
    else if FiguresFromShape(g, i) == [] then Some([])
    else if !PointRangeOk(g, g.shapes[i].figureOffset) then None
    else Some(FigureCoords(g, g.shapes[i].figureOffset))
  }

  /** Whether figures first, first+1, ..., first+n-1 all have a valid
      point range. */
  predicate RingsOk(g: Geometry, first: int, n: nat)
  {
    forall j :: first <= j < first + n ==> PointRangeOk(g, j)
  }

  /** The rings of figures first, first+1, ..., first+n-1: ring k is the
      points of figure first + k. */
  function Rings(g: Geometry, first: int, n: nat): seq<seq<Coord>>
    requires RingsOk(g, first, n)
  {
    seq(n, k requires 0 <= k < n => FigureCoords(g, first + k))
  }

  /** One more ring: the points of the next figure, appended. */
  lemma RingsStep(g: Geometry, first: int, n: nat)
    requires RingsOk(g, first, n + 1)
    ensures RingsOk(g, first, n)
    ensures Rings(g, first, n + 1) == Rings(g, first, n) + [FigureCoords(g, first + n)]
  {
    assert PointRangeOk(g, first + n);
    var longer := Rings(g, first, n + 1);
    var shorter := Rings(g, first, n);
    forall k | 0 <= k < n
      ensures longer[k] == shorter[k]
    {
    }
    assert longer[n] == FigureCoords(g, first + n);
    assert longer == shorter + [FigureCoords(g, first + n)];
  }

  /** The polygon made of a list of rings: the first is the exterior (empty
      when there are none), the rest are the holes. */
  function PolygonOf(rings: seq<seq<Coord>>): Polygon
  {
    if rings == [] then Polygon([], []) else Polygon(rings[0], rings[1..])
  }

  /** Appending a ring: the first becomes the exterior, later ones are
      added as holes (set_exterior_ring, then add_hole). */
  lemma PolygonOfAppend(rings: seq<seq<Coord>>, ring: seq<Coord>)
    ensures PolygonOf(rings + [ring])
         == if rings == [] then Polygon(ring, [])
            else PolygonOf(rings).(holes := PolygonOf(rings).holes + [ring])
  {
    if rings != [] {
      assert (rings + [ring])[1..] == rings[1..] + [ring];
    }
  }

  /** read_polygon for the shape at i: one ring per figure of the shape. */
  function PolygonAt(g: Geometry, i: nat): Option<Polygon>
  {
    if i >= |g.shapes| || !FigureRangeOk(g, i) then None
    else if !RingsOk(g, g.shapes[i].figureOffset, |FiguresFromShape(g, i)|) then None
    else Some(PolygonOf(Rings(g, g.shapes[i].figureOffset, |FiguresFromShape(g, i)|)))
  }

  /** Whether the shape after q is a child of parent: the signed ParentOffset
      compared with the unsigned cursor, so -1 never matches. */
  predicate ContinuesRun(g: Geometry, parent: nat, q: nat)
  {
    q + 1 < |g.shapes| && ToUint32(g.shapes[q + 1].parentOffset) == parent
  }

  /** The last shape of the run of children that starts after q: the walk
      of read_multi* stops at the first shape whose ParentOffset is not
      parent, or at the end. */
  function RunEnd(g: Geometry, parent: nat, q: nat): (e: nat)
    requires q < |g.shapes|
    ensures q <= e < |g.shapes|
    ensures forall k :: q < k <= e ==> ToUint32(g.shapes[k].parentOffset) == parent
    ensures !ContinuesRun(g, parent, e)
    decreases |g.shapes| - q
  {
    if ContinuesRun(g, parent, q) then RunEnd(g, parent, q + 1) else q
  }

  /** The parts read from shapes parent+1 .. last with elem, in order. */
  function Parts<T>(g: Geometry, parent: nat, last: nat, elem: (Geometry, nat) -> Option<T>): (r: Option<seq<T>>)
    requires parent <= last
    ensures r.Some? <==> forall k :: parent < k <= last ==> elem(g, k).Some?
    ensures r.Some? ==> |r.value| == last - parent
    ensures r.Some? ==> forall k :: 0 <= k < last - parent ==> elem(g, parent + 1 + k) == Some(r.value[k])
    decreases last - parent
  {
    if last == parent then Some([])
    else
      match Parts(g, parent, last - 1, elem)
      case None => None
      case Some(parts) =>
        match elem(g, last)
        case None => None
        case Some(x) => Some(parts + [x])
  }

  /** The converse of the contract of Parts: values elem gives for the
      shapes after parent, one per shape and in order, are the parts. */
  lemma {:induction false} PartsOfValues<T>(g: Geometry, parent: nat, last: nat, elem: (Geometry, nat) -> Option<T>, xs: seq<T>)
    requires parent <= last && |xs| == last - parent
    requires forall k :: 0 <= k < |xs| ==> elem(g, parent + 1 + k) == Some(xs[k])
    ensures Parts(g, parent, last, elem) == Some(xs)
    decreases last - parent
  {
    if last > parent {
      var init := xs[..|xs| - 1];
      PartsOfValues(g, parent, last - 1, elem, init);
      assert xs == init + [xs[|xs| - 1]];
    }
  }

  /** One step of a multi-part loop: when the shape after q continues the
      run, the run ends at the same place from q + 1, and the part of that
      shape is appended. */
  lemma PartsStep<T>(g: Geometry, parent: nat, q: nat, elem: (Geometry, nat) -> Option<T>)
    requires parent <= q < |g.shapes| && ContinuesRun(g, parent, q)
    requires Parts(g, parent, RunEnd(g, parent, q), elem).Some?
    ensures RunEnd(g, parent, q + 1) == RunEnd(g, parent, q)
    ensures elem(g, q + 1).Some? && Parts(g, parent, q, elem).Some?
    ensures Parts(g, parent, q + 1, elem) == Some(Parts(g, parent, q, elem).value + [elem(g, q + 1).value])
  {
  }

  /** read(): dispatch on the OpenGIS type of the shape at pos. The result
      carries the new cursor: a multi-part or collection shape moves it to
      its last child. */
  function Read(g: Geometry, pos: nat): (r: Option<Got<Geom>>)
    requires pos < |g.shapes|
    ensures r.Some? ==> pos <= r.value.pos < |g.shapes|
    decreases |g.shapes| - pos, 1
  {
    var t := g.shapes[pos].openGisType;
    if t == SHAPE_POINT then
      match PointAt(g, pos)
      case None => None
      case Some(p) => Some(Got(GPoint(p), pos))
    else if t == SHAPE_LINESTRING then
      match LineAt(g, pos)
      case None => None
      case Some(l) => Some(Got(GLineString(l), pos))
    else if t == SHAPE_POLYGON then
      match PolygonAt(g, pos)
      case None => None
      case Some(p) => Some(Got(GPolygon(p), pos))
    else if t == SHAPE_MULTIPOINT then
      var last := RunEnd(g, pos, pos);
      match Parts(g, pos, last, PointAt)
      case None => None
      case Some(ps) => Some(Got(GMultiPoint(ps), last))
    else if t == SHAPE_MULTILINESTRING then
      var last := RunEnd(g, pos, pos);
      match Parts(g, pos, last, LineAt)
      case None => None
      case Some(ls) => Some(Got(GMultiLineString(ls), last))
    else if t == SHAPE_MULTIPOLYGON then
      var last := RunEnd(g, pos, pos);
      match Parts(g, pos, last, PolygonAt)
      case None => None
      case Some(ps) => Some(Got(GMultiPolygon(ps), last))
    else if t == SHAPE_GEOMETRY_COLLECTION then
      match Collect(g, pos, pos)
      case None => None
      case Some(c) => Some(Got(GCollection(c.value), c.pos))
    else Some(Got(Empty, pos))
  }

  /** The rest of read_collection from cursor cur: while the next shape is a
      child of parent, decode it with the full read() (which may move the
      cursor past its own children) and go on from where it left off. */
  function Collect(g: Geometry, parent: nat, cur: nat): (r: Option<Got<seq<Geom>>>)
    requires parent <= cur < |g.shapes|
    ensures r.Some? ==> cur <= r.value.pos < |g.shapes| && !ContinuesRun(g, parent, r.value.pos)
    decreases |g.shapes| - cur, 0
  {
    if ContinuesRun(g, parent, cur) then
      match Read(g, cur + 1)
      case None => None
      case Some(child) =>
        match Collect(g, parent, child.pos)
        case None => None
        case Some(rest) => Some(Got([child.value] + rest.value, rest.pos))
    else Some(Got([], cur))
  }

  /** read() on a whole geometry: empty without shapes, else the root. */
  function Walk(g: Geometry): Option<Geom>
  {
    if g.shapes == [] then Some(Empty)
    else
      match Read(g, 0)
      case None => None
      case Some(r) => Some(r.value)
  }

  /** from_geoclr without the orientation correction: nothing to decode for
      an empty buffer, else parse from offset 0 and walk. */
  function FromGeoClr(data: seq<byte>, isGeography: bool): Option<Geom>
  {
    if |data| == 0 then Some(Empty) else Walk(Parse(data, 0, isGeography).value)
  }
}
