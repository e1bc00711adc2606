/** mapnik_geoclr_reader: the decoded Geometry and the cursor shape_pos_,
    which the multi-part and collection reads advance over the children and
    which the recursive read() shares. Each method is proved against the
    matching function of GeoClrWalk. */
module GeoClr {
  import opened Bytes
  import opened Wrappers
  import opened ClrGeometry
  import ClrWire
  import SqlGeo
  import ParseProperties
  import GeoClrWalk

  class GeoClrReader {
    const geo: Geometry
    const isGeography: bool
    var shapePos: UInt32

    /** The cursor indexes a shape whenever there is one; the decoder never
        yields 2^31 shapes, so the unsigned cursor cannot wrap. */
    ghost predicate Valid()
      reads this
    {
      |geo.shapes| < TWO_31 && (geo.shapes == [] || shapePos < |geo.shapes|)
    }

    /** The constructor parses the whole buffer from offset 0. */
    constructor (data: seq<byte>, isGeography: bool)
      ensures geo == ClrWire.Parse(data, 0, isGeography).value
      ensures this.isGeography == isGeography && shapePos == 0
      ensures Valid()
    {
      var reader := new SqlGeo.SqlGeoReader(data);
      var g := reader.ParseGeometry(isGeography);
      ParseProperties.ParseStaysInBuffer(data, 0, isGeography);
      geo := g;
      this.isGeography := isGeography;
      shapePos := 0;
    }

    /** The X and Y of each point, in order (the copy loop of read_linestring
        and read_polygon). */
    static method CopyCoords(points: seq<Point>) returns (ring: seq<GeoClrWalk.Coord>)
      ensures ring == GeoClrWalk.ToCoords(points)
    {
      ring := [];
      var k := 0;
      while k < |points|
        invariant 0 <= k <= |points| && |ring| == k
        invariant forall j :: 0 <= j < k ==> ring[j] == GeoClrWalk.Coord(points[j].x, points[j].y)
      {
        ring := ring + [GeoClrWalk.Coord(points[k].x, points[k].y)];
        k := k + 1;
      }
    }

    /** read_point: the point at the first figure's Offset. */
    method ReadPoint() returns (p: GeoClrWalk.Coord)
      requires GeoClrWalk.PointAt(geo, shapePos).Some?
      ensures Some(p) == GeoClrWalk.PointAt(geo, shapePos)
    {
      var figures := FiguresFromShape(geo, shapePos);
      var ptOffset := figures[0].offset;
      var x := geo.points[ptOffset].x;
      var y := geo.points[ptOffset].y;
      p := GeoClrWalk.Coord(x, y);
    }

    /** read_linestring: empty without figures, else the points of figure
        FigureOffset. */
    method ReadLineString() returns (line: seq<GeoClrWalk.Coord>)
      requires GeoClrWalk.LineAt(geo, shapePos).Some?
      ensures Some(line) == GeoClrWalk.LineAt(geo, shapePos)
    {
      line := [];
      var figures := FiguresFromShape(geo, shapePos);
      if figures != [] {
        var points := PointsFromFigure(geo, geo.shapes[shapePos].figureOffset);
        if |points| > 0 {
          line := CopyCoords(points);
        }
      }
    }

    /** read_polygon: ring i from figure FigureOffset + i; ring 0 is set as
        the exterior, the others are added as holes. */
    method ReadPolygon() returns (poly: GeoClrWalk.Polygon)
      requires GeoClrWalk.PolygonAt(geo, shapePos).Some?
      ensures Some(poly) == GeoClrWalk.PolygonAt(geo, shapePos)
    {
      var rings := FiguresFromShape(geo, shapePos);
      var numRings := |rings|;
      var first := geo.shapes[shapePos].figureOffset;
      poly := GeoClrWalk.Polygon([], []);
      assert GeoClrWalk.RingsOk(geo, first, numRings);
      ghost var done: seq<seq<GeoClrWalk.Coord>> := [];
      var i := 0;
      while i < numRings
        invariant 0 <= i <= numRings
        invariant GeoClrWalk.RingsOk(geo, first, i) && done == GeoClrWalk.Rings(geo, first, i)
        invariant poly == GeoClrWalk.PolygonOf(done)
      {
        assert PointRangeOk(geo, first + i);
        var points := PointsFromFigure(geo, first + i);
        var ring := CopyCoords(points);
        GeoClrWalk.RingsStep(geo, first, i);
        GeoClrWalk.PolygonOfAppend(done, ring);
        if i == 0 {
          poly := poly.(exterior := ring);
        } else {
          poly := poly.(holes := poly.holes + [ring]);
        }
        done := done + [ring];
        i := i + 1;
      }
    }

    /** read_multipoint: a point for each following shape whose ParentOffset
        is this shape's index, up to the first that is not. */
    method ReadMultiPoint() returns (points: seq<GeoClrWalk.Coord>)
      requires Valid() && shapePos < |geo.shapes|
      requires GeoClrWalk.Parts(geo, shapePos, GeoClrWalk.RunEnd(geo, shapePos, shapePos), GeoClrWalk.PointAt).Some?
      modifies this
      ensures Valid()
      ensures shapePos == GeoClrWalk.RunEnd(geo, old(shapePos), old(shapePos))
      ensures Some(points) == GeoClrWalk.Parts(geo, old(shapePos), shapePos, GeoClrWalk.PointAt)
    {
      points := [];
      var parentPos := shapePos;
      ghost var last := GeoClrWalk.RunEnd(geo, parentPos, parentPos);
      while |geo.shapes| - 1 >= shapePos + 1 && ToUint32(geo.shapes[shapePos + 1].parentOffset) == parentPos
        invariant parentPos <= shapePos <= last
        invariant GeoClrWalk.RunEnd(geo, parentPos, shapePos) == last
        invariant Some(points) == GeoClrWalk.Parts(geo, parentPos, shapePos, GeoClrWalk.PointAt)
        decreases |geo.shapes| - shapePos
      {
        var p := NextPoint(parentPos, last, points);
        points := points + [p];
      }
    }

    /** One iteration of read_multipoint: move to the next child and read it as
        a point. */
    method NextPoint(ghost parentPos: nat, ghost last: nat, ghost done: seq<GeoClrWalk.Coord>) returns (p: GeoClrWalk.Coord)
      requires Valid() && parentPos <= shapePos && GeoClrWalk.ContinuesRun(geo, parentPos, shapePos as nat)
      requires GeoClrWalk.RunEnd(geo, parentPos, shapePos as nat) == last
      requires GeoClrWalk.Parts(geo, parentPos, last, GeoClrWalk.PointAt).Some?
      requires Some(done) == GeoClrWalk.Parts(geo, parentPos, shapePos, GeoClrWalk.PointAt)
      modifies this
      ensures Valid() && shapePos == old(shapePos) + 1 && GeoClrWalk.RunEnd(geo, parentPos, shapePos as nat) == last
      ensures Some(done + [p]) == GeoClrWalk.Parts(geo, parentPos, shapePos, GeoClrWalk.PointAt)
    {
      GeoClrWalk.PartsStep(geo, parentPos, shapePos as nat, GeoClrWalk.PointAt);
      ghost var next := GeoClrWalk.PointAt(geo, shapePos as nat + 1);
      assert GeoClrWalk.Parts(geo, parentPos, shapePos as nat + 1, GeoClrWalk.PointAt) == Some(done + [next.value]);
      shapePos := shapePos + 1;
      p := ReadPoint();
      assert Some(p) == next;
    }

    /** read_multilinestring: as read_multipoint, with a linestring per child. */
    method ReadMultiLineString() returns (lines: seq<seq<GeoClrWalk.Coord>>)
      requires Valid() && shapePos < |geo.shapes|
      requires GeoClrWalk.Parts(geo, shapePos, GeoClrWalk.RunEnd(geo, shapePos, shapePos), GeoClrWalk.LineAt).Some?
      modifies this
      ensures Valid()
      ensures shapePos == GeoClrWalk.RunEnd(geo, old(shapePos), old(shapePos))
      ensures Some(lines) == GeoClrWalk.Parts(geo, old(shapePos), shapePos, GeoClrWalk.LineAt)
    {
      lines := [];
      var parentPos := shapePos;
      ghost var last := GeoClrWalk.RunEnd(geo, parentPos, parentPos);
      while |geo.shapes| - 1 >= shapePos + 1 && ToUint32(geo.shapes[shapePos + 1].parentOffset) == parentPos
        invariant parentPos <= shapePos <= last
        invariant GeoClrWalk.RunEnd(geo, parentPos, shapePos) == last
        invariant Some(lines) == GeoClrWalk.Parts(geo, parentPos, shapePos, GeoClrWalk.LineAt)
        decreases |geo.shapes| - shapePos
      {
        var l := NextLineString(parentPos, last, lines);
        lines := lines + [l];
      }
    }

    /** One iteration of read_multilinestring: move to the next child and read it as
        a linestring. */
    method NextLineString(ghost parentPos: nat, ghost last: nat, ghost done: seq<seq<GeoClrWalk.Coord>>) returns (l: seq<GeoClrWalk.Coord>)
      requires Valid() && parentPos <= shapePos && GeoClrWalk.ContinuesRun(geo, parentPos, shapePos as nat)
      requires GeoClrWalk.RunEnd(geo, parentPos, shapePos as nat) == last
      requires GeoClrWalk.Parts(geo, parentPos, last, GeoClrWalk.LineAt).Some?
      requires Some(done) == GeoClrWalk.Parts(geo, parentPos, shapePos, GeoClrWalk.LineAt)
      modifies this
      ensures Valid() && shapePos == old(shapePos) + 1 && GeoClrWalk.RunEnd(geo, parentPos, shapePos as nat) == last
      ensures Some(done + [l]) == GeoClrWalk.Parts(geo, parentPos, shapePos, GeoClrWalk.LineAt)
    {
      GeoClrWalk.PartsStep(geo, parentPos, shapePos as nat, GeoClrWalk.LineAt);
      ghost var next := GeoClrWalk.LineAt(geo, shapePos as nat + 1);
      assert GeoClrWalk.Parts(geo, parentPos, shapePos as nat + 1, GeoClrWalk.LineAt) == Some(done + [next.value]);
      shapePos := shapePos + 1;
      l := ReadLineString();
      assert Some(l) == next;
    }

    /** read_multipolygon: as read_multipoint, with a polygon per child. */
    method ReadMultiPolygon() returns (polygons: seq<GeoClrWalk.Polygon>)
      requires Valid() && shapePos < |geo.shapes|
      requires GeoClrWalk.Parts(geo, shapePos, GeoClrWalk.RunEnd(geo, shapePos, shapePos), GeoClrWalk.PolygonAt).Some?
      modifies this
      ensures Valid()
      ensures shapePos == GeoClrWalk.RunEnd(geo, old(shapePos), old(shapePos))
      ensures Some(polygons) == GeoClrWalk.Parts(geo, old(shapePos), shapePos, GeoClrWalk.PolygonAt)
    {
      polygons := [];
      var parentPos := shapePos;
      ghost var last := GeoClrWalk.RunEnd(geo, parentPos, parentPos);
      while |geo.shapes| - 1 >= shapePos + 1 && ToUint32(geo.shapes[shapePos + 1].parentOffset) == parentPos
        invariant parentPos <= shapePos <= last
        invariant GeoClrWalk.RunEnd(geo, parentPos, shapePos) == last
        invariant Some(polygons) == GeoClrWalk.Parts(geo, parentPos, shapePos, GeoClrWalk.PolygonAt)
        decreases |geo.shapes| - shapePos
      {
        var p := NextPolygon(parentPos, last, polygons);
        polygons := polygons + [p];
      }
    }

    /** One iteration of read_multipolygon: move to the next child and read it as
        a polygon. */
    method NextPolygon(ghost parentPos: nat, ghost last: nat, ghost done: seq<GeoClrWalk.Polygon>) returns (p: GeoClrWalk.Polygon)
      requires Valid() && parentPos <= shapePos && GeoClrWalk.ContinuesRun(geo, parentPos, shapePos as nat)
      requires GeoClrWalk.RunEnd(geo, parentPos, shapePos as nat) == last
      requires GeoClrWalk.Parts(geo, parentPos, last, GeoClrWalk.PolygonAt).Some?
      requires Some(done) == GeoClrWalk.Parts(geo, parentPos, shapePos, GeoClrWalk.PolygonAt)
      modifies this
      ensures Valid() && shapePos == old(shapePos) + 1 && GeoClrWalk.RunEnd(geo, parentPos, shapePos as nat) == last
      ensures Some(done + [p]) == GeoClrWalk.Parts(geo, parentPos, shapePos, GeoClrWalk.PolygonAt)
    {
      GeoClrWalk.PartsStep(geo, parentPos, shapePos as nat, GeoClrWalk.PolygonAt);
      ghost var next := GeoClrWalk.PolygonAt(geo, shapePos as nat + 1);
      assert GeoClrWalk.Parts(geo, parentPos, shapePos as nat + 1, GeoClrWalk.PolygonAt) == Some(done + [next.value]);
      shapePos := shapePos + 1;
      p := ReadPolygon();
      assert Some(p) == next;
    }

    /** read_collection: each following child is decoded with the full
        read(), which leaves the cursor on the child's last descendant. */
    method ReadCollection() returns (members: seq<GeoClrWalk.Geom>)
      requires Valid() && shapePos < |geo.shapes|
      requires GeoClrWalk.Collect(geo, shapePos, shapePos).Some?
      modifies this
      ensures Valid()
      ensures GeoClrWalk.Collect(geo, old(shapePos), old(shapePos)) == Some(ClrWire.Got(members, shapePos as nat))
      decreases |geo.shapes| - shapePos, 1
    {
      members := [];
      var parentPos := shapePos;
      assert members + GeoClrWalk.Collect(geo, parentPos, shapePos).value.value
          == GeoClrWalk.Collect(geo, parentPos, shapePos).value.value;
      while |geo.shapes| - 1 >= shapePos + 1 && ToUint32(geo.shapes[shapePos + 1].parentOffset) == parentPos
        invariant Valid() && parentPos == old(shapePos) <= shapePos < |geo.shapes|
        invariant GeoClrWalk.Collect(geo, parentPos, shapePos).Some?
        invariant var rest := GeoClrWalk.Collect(geo, parentPos, shapePos).value;
          GeoClrWalk.Collect(geo, parentPos, parentPos) == Some(ClrWire.Got(members + rest.value, rest.pos))
        decreases |geo.shapes| - shapePos
      {
        var child := NextMember(parentPos, members);
        members := members + [child];
      }
      assert GeoClrWalk.Collect(geo, parentPos, shapePos) == Some(ClrWire.Got([], shapePos as nat));
      assert members + [] == members;
    }

    /** One iteration of read_collection: move to the next child and decode
        it with the full read(), which may move the cursor further; the
        child joins the members read so far. */
    method NextMember(ghost parentPos: nat, ghost done: seq<GeoClrWalk.Geom>) returns (child: GeoClrWalk.Geom)
      requires Valid() && parentPos <= shapePos && GeoClrWalk.ContinuesRun(geo, parentPos, shapePos as nat)
      requires GeoClrWalk.Collect(geo, parentPos, shapePos as nat).Some?
      requires var rest := GeoClrWalk.Collect(geo, parentPos, shapePos as nat).value;
        GeoClrWalk.Collect(geo, parentPos, parentPos) == Some(ClrWire.Got(done + rest.value, rest.pos))
      modifies this
      ensures Valid() && old(shapePos) < shapePos < |geo.shapes|
      ensures GeoClrWalk.Collect(geo, parentPos, shapePos as nat).Some?
      ensures var rest := GeoClrWalk.Collect(geo, parentPos, shapePos as nat).value;
        GeoClrWalk.Collect(geo, parentPos, parentPos) == Some(ClrWire.Got((done + [child]) + rest.value, rest.pos))
      decreases |geo.shapes| - shapePos, 0
    {
      ghost var restBefore := GeoClrWalk.Collect(geo, parentPos, shapePos as nat).value;
      shapePos := shapePos + 1;
      ghost var childRead := GeoClrWalk.Read(geo, shapePos as nat);
      assert childRead.Some?;
      child := Read();
      assert childRead == Some(ClrWire.Got(child, shapePos as nat));
      ghost var restAfter := GeoClrWalk.Collect(geo, parentPos, shapePos as nat).value;
      assert restBefore.value == [child] + restAfter.value;
      Associative(done, [child], restAfter.value);
    }

    /** Sequence concatenation regroups. */
    static lemma Associative(a: seq<GeoClrWalk.Geom>, b: seq<GeoClrWalk.Geom>, c: seq<GeoClrWalk.Geom>)
      ensures (a + b) + c == a + (b + c)
    {
    }

    /** read(): empty without shapes; else dispatch on the OpenGIS type of
        the current shape, curves and unknown tags giving empty. */
    method Read() returns (geom: GeoClrWalk.Geom)
      requires Valid()
      requires geo.shapes != [] ==> GeoClrWalk.Read(geo, shapePos).Some?
      modifies this
      ensures Valid()
      ensures geo.shapes == [] ==> geom == GeoClrWalk.Empty && shapePos == old(shapePos)
      ensures geo.shapes != [] ==> GeoClrWalk.Read(geo, old(shapePos)) == Some(ClrWire.Got(geom, shapePos as nat))
      decreases |geo.shapes| - shapePos, 2
    {
      geom := GeoClrWalk.Empty;
      if |geo.shapes| == 0 {
        return;
      }
      var s := geo.shapes[shapePos];
      var t := s.openGisType;
      if t == SHAPE_POINT {
        var p := ReadPoint();
        geom := GeoClrWalk.GPoint(p);
      } else if t == SHAPE_LINESTRING {
        var l := ReadLineString();
        geom := GeoClrWalk.GLineString(l);
      } else if t == SHAPE_POLYGON {
        var p := ReadPolygon();
        geom := GeoClrWalk.GPolygon(p);
      } else if t == SHAPE_MULTIPOINT {
        var ps := ReadMultiPoint();
        geom := GeoClrWalk.GMultiPoint(ps);
      } else if t == SHAPE_MULTILINESTRING {
        var ls := ReadMultiLineString();
        geom := GeoClrWalk.GMultiLineString(ls);
      } else if t == SHAPE_MULTIPOLYGON {
        var ps := ReadMultiPolygon();
        geom := GeoClrWalk.GMultiPolygon(ps);
      } else if t == SHAPE_GEOMETRY_COLLECTION {
        var c := ReadCollection();
        geom := GeoClrWalk.GCollection(c);
      }
    }
  }

  /** from_geoclr without the orientation correction: empty for a zero-size
      buffer, else parse and read the root shape. */
  method FromGeoClr(data: seq<byte>, isGeography: bool) returns (geom: GeoClrWalk.Geom)
    requires GeoClrWalk.FromGeoClr(data, isGeography).Some?
    ensures Some(geom) == GeoClrWalk.FromGeoClr(data, isGeography)
  {
    if |data| == 0 {
      return GeoClrWalk.Empty;
    }
    var reader := new GeoClrReader(data, isGeography);
    geom := reader.Read();
  }
}
