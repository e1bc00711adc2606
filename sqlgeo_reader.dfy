/** sqlgeo_reader: a cursor over an immutable byte buffer whose read methods
    advance the cursor field, and parseGeometry, which fills a Geometry from
    the buffer step by step. Every method is proved to compute the
    corresponding function of ClrWire. */
module SqlGeo {
  import opened Bytes
  import opened Wrappers
  import opened ClrGeometry
  import ClrWire

  class SqlGeoReader {
    /** The buffer (data_ with its size_). */
    const data: seq<byte>
    /** The cursor (pos_). */
    var pos: nat

    ghost predicate Valid()
      reads this
    {
      pos <= |data|
    }

    constructor (data: seq<byte>)
      ensures this.data == data && pos == 0 && Valid()
    {
      this.data := data;
      pos := 0;
    }

    /** read_uint8: the next byte, or 0 with the cursor unchanged at the end. */
    method ReadUInt8() returns (v: byte)
      requires Valid()
      modifies this
      ensures Valid()
      ensures ClrWire.Got(v, pos) == ClrWire.ReadUInt8(data, old(pos))
    {
      if pos + 1 > |data| {
        return 0;
      }
      v := data[pos];
      assert LittleEndian(data[pos..pos + 1]) == v as nat;
      pos := pos + 1;
    }

    /** read_uint16: the next two bytes little-endian, or 0 with the cursor
        unchanged when fewer remain. */
    method ReadUInt16() returns (v: nat)
      requires Valid()
      modifies this
      ensures Valid()
      ensures ClrWire.Got(v, pos) == ClrWire.ReadUInt16(data, old(pos))
    {
      if pos + 2 > |data| {
        return 0;
      }
      v := LittleEndian(data[pos..pos + 2]);
      pos := pos + 2;
    }

    /** read_uint32: the next four bytes little-endian, or 0 with the cursor
        unchanged when fewer remain. */
    method ReadUInt32() returns (v: UInt32)
      requires Valid()
      modifies this
      ensures Valid()
      ensures ClrWire.Got(v, pos) == ClrWire.ReadUInt32(data, old(pos))
    {
      if pos + 4 > |data| {
        return 0;
      }
      assert Pow256(4) == TWO_32;
      v := LittleEndian(data[pos..pos + 4]);
      pos := pos + 4;
    }

    /** read_double: the next eight bytes as a double, or 0.0 with the cursor
        unchanged when fewer remain. */
    method ReadDouble() returns (v: Float64)
      requires Valid()
      modifies this
      ensures Valid()
      ensures ClrWire.Got(v, pos) == ClrWire.ReadDouble(data, old(pos))
    {
      if pos + 8 > |data| {
        return ZERO_DOUBLE;
      }
      v := DoubleOfBytes(data[pos..pos + 8]);
      pos := pos + 8;
    }

    /** readPointsZ: one double per point, stored into the points of a copy
        (the vector is taken by value), so nothing but the cursor changes. */
    method ReadPointsZ(points: seq<Point>)
      requires Valid()
      modifies this
      ensures Valid()
      ensures pos == ClrWire.SkipDoubles(data, old(pos), |points|)
    {
      ghost var start := pos;
      if |points| == 0 {
        return;
      }
      var copy := points;
      var i := 0;
      while i < |copy|
        invariant 0 <= i <= |copy| == |points|
        invariant Valid()
        invariant pos == ClrWire.SkipDoubles(data, start, i)
      {
        var z := ReadDouble();
        copy := copy[i := copy[i].(z := Some(z))];
        i := i + 1;
      }
    }

    /** readPointsM: as readPointsZ, for the M values. */
    method ReadPointsM(points: seq<Point>)
      requires Valid()
      modifies this
      ensures Valid()
      ensures pos == ClrWire.SkipDoubles(data, old(pos), |points|)
    {
      ghost var start := pos;
      if |points| == 0 {
        return;
      }
      var copy := points;
      var i := 0;
      while i < |copy|
        invariant 0 <= i <= |copy| == |points|
        invariant Valid()
        invariant pos == ClrWire.SkipDoubles(data, start, i)
      {
        var m := ReadDouble();
        copy := copy[i := copy[i].(m := Some(m))];
        i := i + 1;
      }
    }

    /** readPoints: `count` points, Y before X for geography. */
    method ReadPoints(count: UInt32, isGeography: bool) returns (points: seq<Point>)
      requires Valid()
      modifies this
      ensures Valid()
      ensures ClrWire.Got(points, pos) == ClrWire.ReadPoints(data, old(pos), count, isGeography)
    {
      ghost var start := pos;
      points := [];
      if count < 1 {
        return [];
      }
      var i := 0;
      while i < count
        invariant 0 <= i <= count
        invariant Valid()
        invariant ClrWire.Got(points, pos) == ClrWire.ReadPoints(data, start, i, isGeography)
      {
        ClrWire.ReadPointsStep(data, start, i, isGeography);
        var point := ReadPoint(isGeography);
        points := points + [point];
        i := i + 1;
      }
    }

    /** The body of the readPoints loop: two doubles, Y first for geography. */
    method ReadPoint(isGeography: bool) returns (point: Point)
      requires Valid()
      modifies this
      ensures Valid()
      ensures ClrWire.Got(point, pos) == ClrWire.ReadPoint(data, old(pos), isGeography)
    {
      if isGeography {
        var y := ReadDouble();
        var x := ReadDouble();
        point := NewPoint(x, y);
      } else {
        var x := ReadDouble();
        var y := ReadDouble();
        point := NewPoint(x, y);
      }
    }

    /** readFigures: none for 0, the synthetic stroke figure for P or L, or
        `count` (attribute, offset) pairs. */
    method ReadFigures(count: UInt32, properties: Properties) returns (figures: seq<Figure>)
      requires Valid()
      modifies this
      ensures Valid()
      ensures ClrWire.Got(figures, pos) == ClrWire.ReadFigures(data, old(pos), count, properties)
    {
      figures := [];
      if count == 0 {
      } else if properties.p || properties.l {
        figures := [Figure(FIGURE_STROKE, 0)];
      } else {
        figures := ReadFigureRun(count);
      }
    }

    /** The loop of readFigures: `count` records read one after the other. */
    method ReadFigureRun(count: UInt32) returns (figures: seq<Figure>)
      requires Valid()
      modifies this
      ensures Valid()
      ensures ClrWire.Got(figures, pos) == ClrWire.FigureLoop(data, old(pos), count)
    {
      ghost var start := pos;
      figures := [];
      var i := 0;
      while i < count
        invariant 0 <= i <= count
        invariant Valid()
        invariant ClrWire.Got(figures, pos) == ClrWire.FigureLoop(data, start, i)
      {
        var f := ReadFigure();
        figures := figures + [f];
        i := i + 1;
      }
    }

    /** The body of the readFigures loop: the attribute byte, then the
        point offset. */
    method ReadFigure() returns (f: Figure)
      requires Valid()
      modifies this
      ensures Valid()
      ensures ClrWire.Got(f, pos) == ClrWire.ReadFigure(data, old(pos))
    {
      var attribute := ReadUInt8();
      var offset := ReadUInt32();
      f := Figure(attribute, offset);
    }

    /** readShapes: none for 0, the synthetic root for P or L, or up to
        int(count) (parent, figure offset, type) triples. */
    method ReadShapes(count: UInt32, properties: Properties) returns (shapes: seq<Shape>)
      requires Valid()
      modifies this
      ensures Valid()
      ensures ClrWire.Got(shapes, pos) == ClrWire.ReadShapes(data, old(pos), count, properties)
    {
      ghost var start := pos;
      shapes := [];
      if count < 1 {
      } else if properties.p {
        shapes := [Shape(-1, 0, SHAPE_POINT)];
      } else if properties.l {
        shapes := [Shape(-1, 0, SHAPE_LINESTRING)];
      } else {
        shapes := ReadShapeRun(ToInt32(count));
      }
    }

    /** The loop of readShapes, `for (int i = 0; i < bound; i++)`: no
        iteration at all for a bound that is not positive. */
    method ReadShapeRun(bound: Int32) returns (shapes: seq<Shape>)
      requires Valid()
      modifies this
      ensures Valid()
      ensures ClrWire.Got(shapes, pos) == ClrWire.ShapeLoop(data, old(pos), if bound > 0 then bound else 0)
    {
      ghost var start := pos;
      shapes := [];
      var i := 0;
      while i < bound
        invariant 0 <= i && (if bound > 0 then i <= bound else i == 0)
        invariant Valid()
        invariant ClrWire.Got(shapes, pos) == ClrWire.ShapeLoop(data, start, i)
      {
        var shape := NextShape(start, i, shapes);
        shapes := shapes + [shape];
        i := i + 1;
      }
    }

    /** One round of that loop: the shape read extends the shapes read so
        far by one more round of the loop function. */
    method NextShape(ghost start: nat, ghost i: nat, ghost done: seq<Shape>) returns (shape: Shape)
      requires Valid() && ClrWire.Got(done, pos) == ClrWire.ShapeLoop(data, start, i)
      modifies this
      ensures Valid()
      ensures ClrWire.Got(done + [shape], pos) == ClrWire.ShapeLoop(data, start, i + 1)
    {
      ghost var p := pos;
      shape := ReadShape();
      ClrWire.ShapeLoopUnfold(data, start, i + 1);
      ClrWire.GotAppend(ClrWire.ShapeLoop(data, start, i + 1), ClrWire.ShapeLoop(data, start, i),
                        ClrWire.ReadShape(data, p), done, shape, p, pos);
    }

    /** The body of the readShapes loop: parent and figure offsets as
        uint32 converted to int32, then the type byte. */
    method ReadShape() returns (shape: Shape)
      requires Valid()
      modifies this
      ensures Valid()
      ensures ClrWire.Got(shape, pos) == ClrWire.ReadShape(data, old(pos))
    {
      var parentOffset := ReadUInt32();
      var figureOffset := ReadUInt32();
      var shapeType := ReadUInt8();
      shape := Shape(ToInt32(parentOffset), ToInt32(figureOffset), shapeType);
    }

    /** readSegments: up to int(count) segment type bytes. */
    method ReadSegments(count: UInt32) returns (segments: seq<Segment>)
      requires Valid()
      modifies this
      ensures Valid()
      ensures ClrWire.Got(segments, pos) == ClrWire.ReadSegments(data, old(pos), count)
    {
      ghost var start := pos;
      segments := [];
      if count < 1 {
        return;
      }
      var bound := ToInt32(count);
      var i := 0;
      while i < bound
        invariant 0 <= i <= ClrWire.SignedLoopBound(count)
        invariant Valid()
        invariant ClrWire.Got(segments, pos) == ClrWire.SegmentLoop(data, start, i)
      {
        var t := ReadUInt8();
        segments := segments + [Segment(t)];
        i := i + 1;
      }
      assert i == ClrWire.SignedLoopBound(count);
    }

    /** parseGeometry: the header with its three early exits, then points,
        the Z and M passes, figures, shapes and (version 2) segments. */
    method ParseGeometry(isGeography: bool) returns (g: Geometry)
      requires Valid()
      modifies this
      ensures Valid()
      ensures ClrWire.Got(g, pos) == ClrWire.Parse(data, old(pos), isGeography)
    {
      ghost var start := pos;
      g := EMPTY_GEOMETRY;
      var srid := ReadUInt32();
      g := g.(srid := ToInt32(srid));
      ghost var afterSrid := pos;

      if isGeography {
        if g.srid == -1 {
          return;
        } else if g.srid < 4210 || g.srid > 4999 {
          g := g.(properties := g.properties.(v := false));
          return;
        }
      }

      assert !isGeography || ClrWire.ValidGeographySrid(g.srid);
      var version := ReadUInt8();
      g := g.(version := version);
      ghost var afterVersion := pos;
      if g.version > 2 {
        g := g.(properties := g.properties.(v := false));
        return;
      }

      var props := ReadProperties(version);
      g := g.(properties := props);
      assert ClrWire.Got(srid, afterSrid) == ClrWire.ReadUInt32(data, start);
      assert ClrWire.Got(version, afterVersion) == ClrWire.ReadUInt8(data, afterSrid);
      if g.properties.p && g.properties.l {
        g := g.(properties := g.properties.(v := false));
        return;
      }
      g := ReadArrays(isGeography, g);
    }

    /** The flags byte of parseGeometry, decoded bit by bit onto the
        initial all-false properties; H is only read for version 2. */
    method ReadProperties(version: byte) returns (props: Properties)
      requires Valid()
      modifies this
      ensures Valid()
      ensures var flags := ClrWire.ReadUInt8(data, old(pos));
        ClrWire.Got(props, pos) == ClrWire.Got(ClrWire.FlagsOf(flags.value, version), flags.pos)
    {
      var flags := ReadUInt8();
      props := EMPTY_PROPERTIES.(
        z := ClrWire.Bit(flags, 0),
        m := ClrWire.Bit(flags, 1),
        v := ClrWire.Bit(flags, 2),
        p := ClrWire.Bit(flags, 3),
        l := ClrWire.Bit(flags, 4));
      if version == 2 {
        props := props.(h := ClrWire.Bit(flags, 5));
      }
    }

    /** The part of parseGeometry after the flags byte: points with the Z
        and M passes, figures, shapes, then segments for version 2. */
    method ReadArrays(isGeography: bool, g0: Geometry) returns (g: Geometry)
      requires Valid()
      requires g0.segments == []
      modifies this
      ensures Valid()
      ensures ClrWire.Got(g, pos) == ClrWire.ParseArrays(data, old(pos), isGeography, g0)
    {
      g := g0;
      var points := ReadPointsSection(isGeography, g.properties);
      g := g.(points := points);
      var figures := ReadFiguresSection(g.properties);
      g := g.(figures := figures);
      var shapes := ReadShapesSection(g.properties);
      g := g.(shapes := shapes);
      if g.version == 2 {
        var numberOfSegments := ReadUInt32();
        var segments := ReadSegments(numberOfSegments);
        g := g.(segments := segments);
      }
    }

    /** Point count (fixed for the P and L shorthands), the points, then
        the Z and M passes over a copy. */
    method ReadPointsSection(isGeography: bool, props: Properties) returns (points: seq<Point>)
      requires Valid()
      modifies this
      ensures Valid()
      ensures ClrWire.Got(points, pos) == ClrWire.PointsSection(data, old(pos), isGeography, props)
    {
      var numberOfPoints: UInt32;
      if props.p {
        numberOfPoints := 1;
      } else if props.l {
        numberOfPoints := 2;
      } else {
        numberOfPoints := ReadUInt32();
      }
      points := ReadPoints(numberOfPoints, isGeography);
      if props.z {
        ReadPointsZ(points);
      }
      if props.m {
        ReadPointsM(points);
      }
    }

    /** Figure count (1 for a shorthand) and the figures. */
    method ReadFiguresSection(props: Properties) returns (figures: seq<Figure>)
      requires Valid()
      modifies this
      ensures Valid()
      ensures ClrWire.Got(figures, pos) == ClrWire.FiguresSection(data, old(pos), props)
    {
      var numberOfFigures: UInt32;
      if props.p || props.l {
        numberOfFigures := 1;
      } else {
        numberOfFigures := ReadUInt32();
      }
      figures := ReadFigures(numberOfFigures, props);
    }

    /** Shape count (1 for a shorthand) and the shapes. */
    method ReadShapesSection(props: Properties) returns (shapes: seq<Shape>)
      requires Valid()
      modifies this
      ensures Valid()
      ensures ClrWire.Got(shapes, pos) == ClrWire.ShapesSection(data, old(pos), props)
    {
      var numberOfShapes: UInt32;
      if props.p || props.l {
        numberOfShapes := 1;
      } else {
        numberOfShapes := ReadUInt32();
      }
      shapes := ReadShapes(numberOfShapes, props);
    }

    /** parseGeography: parseGeometry in geography mode. */
    method ParseGeography() returns (g: Geometry)
      requires Valid()
      modifies this
      ensures Valid()
      ensures ClrWire.Got(g, pos) == ClrWire.Parse(data, old(pos), true)
    {
      g := ParseGeometry(true);
    }
  }
}
