# mapnik-mssql: a verified model of the decoder and the datasource decisions

This project models the core of the mapnik input plugin for Microsoft SQL
Server and proves properties of the model.

## What is modelled

**The SQL Server native spatial decoder** (`mssqlclr::sqlgeo_reader`):
- the bounds-checked little-endian reads;
- the point, figure, shape and segment arrays;
- `parseGeometry` with its early exits (geography SRID, version, P and L
  together) and the P/L shorthand.

The decoder has two forms:
- `ClrWire` holds pure functions of the buffer and the cursor.
- `SqlGeo.SqlGeoReader` is a class with the cursor as a field. Its methods
  run the same loops, and each is proved equal to its `ClrWire` function.

**The geometry value** (`mssqlclr::Geometry` and friends) is in
`ClrGeometry`, with `getFiguresFromShape` and `getPointsFromFigure`.

**The tree walk** (`mapnik_geoclr_reader`) turns the decoded arrays into
mapnik geometries:
- points, line strings and polygons;
- multi-part runs of child shapes, collections, and `from_geoclr`.

It too has two forms:
- `GeoClrWalk` holds the specification functions. `None` marks an
  out-of-range read the C++ would make.
- `GeoClr.GeoClrReader` is a class with the shape cursor as a field.

**The connection layer**:
- `ConnectionCreator` builds the connection string and the pool key.
- `ConnectionManager` keeps the registry of pools (`Connections`).

**numeric2string**: the text of a NUMERIC value in the non-Windows branch
(`Numeric`). `NumericProperties` proves what the text means.

**The datasource constructor's decisions** and `get_geometry_type`
(`Datasource`):
- the table check and the asynchronous-connection limit;
- the schema split, the srid default and key-field autodetection;
- the attribute kinds of the table's columns;
- the fold over the sampled `STGeometryType()` names.

`Datasource.Bind` is the constructor. Its flag `intended` chooses the
key-field rule: false follows the autodetection block as written, which
always throws; true follows it as it is meant to work.

Database queries are not modelled. Their answers (a connection, the srid,
the detected key, the columns, the sampled rows) are parameters. Logging
is left out.

## Model

| member | source | states |
|---|---|---|
| ClrWire.ReadLE | mssql/mssqlclrgeo.cpp:53-101 | a read of `width` bytes that fits gives their little-endian value and advances by `width`; one that does not fit gives 0 and leaves the cursor where it was; the cursor never passes the buffer |
| ClrWire.NarrowReadAfterFailedWideRead | mssql/mssqlclrgeo.cpp:53-101 | after a wide read fails at the end of the buffer, a narrower read at the same place still succeeds |
| ClrWire.ReadUInt8 | mssql/mssqlclrgeo.cpp:78-89 | read_uint8: the 1-byte `ReadLE`, moving at most one byte; the value and the failure case are those stated by `ClrWire.ReadLE` |
| ClrWire.ReadUInt16 | mssql/mssqlclrgeo.cpp:66-77 | read_uint16: the 2-byte `ReadLE`, whose value is below 2^16; the rest is stated by `ClrWire.ReadLE` |
| ClrWire.ReadUInt32 | mssql/mssqlclrgeo.cpp:53-64 | read_uint32: the 4-byte `ReadLE`, moving at most four bytes; the rest is stated by `ClrWire.ReadLE` |
| ClrWire.ReadDouble | mssql/mssqlclrgeo.cpp:90-101 | read_double: the bit pattern of the 8-byte `ReadLE`, moving at most eight bytes; the rest is stated by `ClrWire.ReadLE` |
| Bytes.Int32RoundTrip | mssql/mssqlclrgeo.hpp:50-60 | reinterpreting uint32 as int32 and back is the identity both ways (SRID and shape offsets) |
| Bytes.SignedUnsignedCompare | mssql/geoclr_reader.hpp:48 | comparing an int32 ParentOffset with an unsigned position below 2^31 is the same as comparing the signed value |
| SqlGeo.SqlGeoReader.constructor | mssql/mssqlclrgeo.cpp:46-51 | the reader starts at position 0 of the given buffer |
| SqlGeo.SqlGeoReader.ReadUInt8 | mssql/mssqlclrgeo.cpp:78-89 | value and new cursor are those of the bounds-checked 1-byte read |
| SqlGeo.SqlGeoReader.ReadUInt16 | mssql/mssqlclrgeo.cpp:66-77 | value and new cursor are those of the bounds-checked 2-byte read |
| SqlGeo.SqlGeoReader.ReadUInt32 | mssql/mssqlclrgeo.cpp:53-64 | value and new cursor are those of the bounds-checked 4-byte read |
| SqlGeo.SqlGeoReader.ReadDouble | mssql/mssqlclrgeo.cpp:90-101 | bits and new cursor are those of the bounds-checked 8-byte read |
| SqlGeo.SqlGeoReader.ReadPointsZ | mssql/mssqlclrgeo.cpp:103-114 | consumes one double per point and changes nothing else |
| SqlGeo.SqlGeoReader.ReadPointsM | mssql/mssqlclrgeo.cpp:115-125 | consumes one double per point and changes nothing else |
| SqlGeo.SqlGeoReader.ReadPoints | mssql/mssqlclrgeo.cpp:126-149 | the loop returns exactly `ClrWire.ReadPoints`: count points, X/Y swapped for geography |
| SqlGeo.SqlGeoReader.ReadPoint | mssql/mssqlclrgeo.cpp:135-144 | one loop body: two doubles read in the order the kind of value needs |
| ClrWire.ReadPoints | mssql/mssqlclrgeo.cpp:126-149 | the result has exactly `count` points, whatever the buffer holds |
| ClrWire.ReadPointsSlots | mssql/mssqlclrgeo.cpp:126-149 | point k is made of doubles 2k and 2k+1 from the start, and the cursor ends after 2·count doubles (or at the end of the buffer) |
| ClrWire.SkipDoublesEnd | mssql/mssqlclrgeo.cpp:103-125 | the Z or M pass ends where n doubles from its start end |
| SqlGeo.SqlGeoReader.ReadFigures | mssql/mssqlclrgeo.cpp:151-172 | returns exactly `ClrWire.ReadFigures`: none for count 0, one made-up (STROKE, 0) figure for a shorthand, else count records |
| SqlGeo.SqlGeoReader.ReadFigureRun | mssql/mssqlclrgeo.cpp:163-169 | the loop reads count (attribute, offset) records in order |
| SqlGeo.SqlGeoReader.ReadFigure | mssql/mssqlclrgeo.cpp:165-168 | one record: a byte then a uint32 |
| ClrWire.FigureLoopExact | mssql/mssqlclrgeo.cpp:163-169 | when the buffer holds them, the figures are the consecutive 5-byte records and the cursor moves 5 per figure |
| ClrWire.ReadFigures | mssql/mssqlclrgeo.cpp:151-172 | readFigures: none for count 0, one made-up (STROKE, 0) figure for P or L, else the record loop; its meaning is stated by `ClrWire.FigureLoopExact` and `ParseProperties.ShorthandSynthesised` |
| SqlGeo.SqlGeoReader.ReadShapes | mssql/mssqlclrgeo.cpp:173-196 | returns exactly `ClrWire.ReadShapes`: none for count 0, one root Point or LineString shape for P or L, else the records |
| SqlGeo.SqlGeoReader.ReadShapeRun | mssql/mssqlclrgeo.cpp:188-193 | the loop runs `int(count)` times, zero for a count of 2^31 or more |
| SqlGeo.SqlGeoReader.NextShape | mssql/mssqlclrgeo.cpp:189-192 | one round extends the records read so far by one shape |
| SqlGeo.SqlGeoReader.ReadShape | mssql/mssqlclrgeo.cpp:189-192 | one record: uint32 parent, uint32 figure offset, a type byte |
| ClrWire.SignedLoopBound | mssql/mssqlclrgeo.cpp:188 | the loop bound `int(count)` is count below 2^31 and gives no round at or above it |
| ClrWire.ShapeLoopExact | mssql/mssqlclrgeo.cpp:188-193 | when the buffer holds them, the shapes are the consecutive 9-byte records and the cursor moves 9 per shape |
| ClrWire.ReadShapes | mssql/mssqlclrgeo.cpp:173-196 | readShapes: none for count 0, one root Point or LineString shape for P or L, else `int(count)` records; its meaning is stated by `ClrWire.SignedLoopBound`, `ClrWire.ShapeLoopExact` and `ParseProperties.ShorthandSynthesised` |
| SqlGeo.SqlGeoReader.ReadSegments | mssql/mssqlclrgeo.cpp:197-209 | returns exactly `ClrWire.ReadSegments` |
| ClrWire.SegmentLoopBytes | mssql/mssqlclrgeo.cpp:203-207 | segment k is byte k from the start, or 0 past the buffer; the cursor moves one byte per segment up to the end |
| ClrWire.ReadSegments | mssql/mssqlclrgeo.cpp:197-209 | readSegments: none for count 0, else one byte per segment; its meaning is stated by `ClrWire.SegmentLoopBytes` |
| SqlGeo.SqlGeoReader.ParseGeometry | mssql/mssqlclrgeo.cpp:215-311 | the whole parse returns exactly `ClrWire.Parse` and leaves the cursor where it ends |
| SqlGeo.SqlGeoReader.ReadProperties | mssql/mssqlclrgeo.cpp:248-259 | the flags byte is read and decoded as `ClrWire.FlagsOf` |
| SqlGeo.SqlGeoReader.ReadArrays | mssql/mssqlclrgeo.cpp:266-309 | points, Z/M passes, figures, shapes and (version 2) segments equal `ClrWire.ParseArrays` |
| SqlGeo.SqlGeoReader.ReadPointsSection | mssql/mssqlclrgeo.cpp:266-283 | the point count (1, 2 or read) and the points, then the Z/M passes |
| SqlGeo.SqlGeoReader.ReadFiguresSection | mssql/mssqlclrgeo.cpp:285-293 | the figure count (1 or read) and the figures |
| SqlGeo.SqlGeoReader.ReadShapesSection | mssql/mssqlclrgeo.cpp:296-303 | the shape count (1 or read) and the shapes |
| SqlGeo.SqlGeoReader.ParseGeography | mssql/mssqlclrgeo.cpp:211-213 | the geography parse of the same buffer |
| ClrWire.Parse | mssql/mssqlclrgeo.cpp:215-311 | parseGeometry: SRID, version, flags, then the arrays, with the early exits; its meaning is stated by the `ParseProperties` lemmas below and `SqlGeo.SqlGeoReader.ParseGeometry` |
| ParseProperties.GeographyUnspecifiedSridStops | mssql/mssqlclrgeo.cpp:224-230 | a geography with SRID bytes FF FF FF FF returns an empty value with SRID -1 after 4 bytes |
| ParseProperties.GeographyInvalidSridRejected | mssql/mssqlclrgeo.cpp:231-235 | a geography SRID outside 4210..4999 (and not -1) stops right after the SRID, not valid, empty; a buffer too short for the SRID included |
| ParseProperties.GeometrySridNeverChecked | mssql/mssqlclrgeo.cpp:224-239 | a geometry's SRID is stored as read and the version byte is always read next |
| ParseProperties.UnsupportedVersionRejected | mssql/mssqlclrgeo.cpp:239-245 | a version above 2 stops right after the version byte, not valid, with no flags and no arrays |
| ParseProperties.FlagBitsDecoded | mssql/mssqlclrgeo.cpp:248-264 | Z, M, V, P and L are flag bits 0-4; H is bit 5 in version 2 only; V is cleared when P and L are both set |
| ParseProperties.BothShorthandsRejected | mssql/mssqlclrgeo.cpp:260-264 | P with L: not valid, no points, figures, shapes or segments, cursor right after the flags |
| ParseProperties.PointsDecoded | mssql/mssqlclrgeo.cpp:266-276 | 1 point for P, 2 for L, else the count read; point k is doubles 2k and 2k+1 after the count |
| ParseProperties.ZAndMNeverStored | mssql/mssqlclrgeo.cpp:103-125 | the Z and M passes work on a copy: no decoded point carries a Z or M value |
| ParseProperties.ShorthandSynthesised | mssql/mssqlclrgeo.cpp:286-303 | with P or L, one (STROKE, 0) figure and one root (-1, 0, Point/LineString) shape are made up; before version 2 the parse ends after the Z/M passes |
| ParseProperties.SegmentsOnlyInVersion2 | mssql/mssqlclrgeo.cpp:305-309 | segments are present only in version 2 |
| ParseProperties.NoSegmentsBeforeVersion2 | mssql/mssqlclrgeo.cpp:297-309 | below version 2 no segment count is read: the geometry has no segments and the cursor stops right after the shapes |
| ParseProperties.ParseStaysInBuffer | mssql/mssqlclrgeo.cpp:215-311 | the cursor never moves back or past the buffer, and fewer than 2^31 shapes are made |
| ParseProperties.TruncatedAfterVersion | mssql/mssqlclrgeo.cpp:248-303 | a 5-byte buffer with just an SRID and version 1 decodes without failure to a value with no points, figures or shapes |
| ClrGeometry.FiguresFromShape | mssql/mssqlclrgeo.cpp:8-24 | no figures at all gives none; else the figures from the shape's offset to the next shape's offset (or the end), in order |
| ClrGeometry.PointsFromFigure | mssql/mssqlclrgeo.cpp:26-43 | no points at all gives none; else the points from the figure's offset to the next figure's offset (or the end), in order |
| ClrGeometry.OrderedOffsetsMakeRangesValid | mssql/mssqlclrgeo.cpp:8-43 | with ordered, in-range offsets every shape's and figure's slice is in range |
| ClrGeometry.ShapeRangesPartitionFigures | mssql/mssqlclrgeo.cpp:8-24 | the per-shape figure slices from shape a on, concatenated, are exactly the figures from a's offset |
| ClrGeometry.FigureRangesPartitionPoints | mssql/mssqlclrgeo.cpp:26-43 | the per-figure point slices from figure a on, concatenated, are exactly the points from a's offset |
| GeoClr.GeoClrReader.constructor | mssql/geoclr_reader.hpp:22-28 | the reader holds the parse of the buffer and starts at shape 0 |
| GeoClr.GeoClrReader.CopyCoords | mssql/geoclr_reader.hpp:66-74 | the copy loop gives the X/Y of every point, in order |
| GeoClr.GeoClrReader.ReadPoint | mssql/geoclr_reader.hpp:30-40 | the coordinates of the first point of the shape's first figure |
| GeoClr.GeoClrReader.ReadLineString | mssql/geoclr_reader.hpp:57-77 | the points of the shape's first figure, or an empty line without figures |
| GeoClr.GeoClrReader.ReadPolygon | mssql/geoclr_reader.hpp:93-127 | the loop over the shape's figures gives `PolygonAt` |
| GeoClr.GeoClrReader.ReadMultiPoint | mssql/geoclr_reader.hpp:41-56 | takes the run of shapes whose parent is this one and ends on its last member |
| GeoClr.GeoClrReader.NextPoint | mssql/geoclr_reader.hpp:48-52 | one round of the run loop appends the next child's point |
| GeoClr.GeoClrReader.ReadMultiLineString | mssql/geoclr_reader.hpp:78-92 | takes the run of child line strings and ends on its last member |
| GeoClr.GeoClrReader.NextLineString | mssql/geoclr_reader.hpp:85-89 | one round appends the next child's line |
| GeoClr.GeoClrReader.ReadMultiPolygon | mssql/geoclr_reader.hpp:128-140 | takes the run of child polygons and ends on its last member |
| GeoClr.GeoClrReader.NextPolygon | mssql/geoclr_reader.hpp:134-138 | one round appends the next child's polygon |
| GeoClr.GeoClrReader.ReadCollection | mssql/geoclr_reader.hpp:142-154 | the members are the recursive reads of the following children; equals `GeoClrWalk.Collect` |
| GeoClr.GeoClrReader.NextMember | mssql/geoclr_reader.hpp:147-151 | one round moves to the next child, reads it, and keeps the rest of the collection consistent |
| GeoClr.GeoClrReader.Read | mssql/geoclr_reader.hpp:156-201 | no shapes gives the empty geometry; else dispatches on the shape type and equals `GeoClrWalk.Read` |
| GeoClr.FromGeoClr | mssql/geoclr_reader.hpp:204-216 | the parsed and walked geometry of the buffer, as `GeoClrWalk.FromGeoClr` |
| GeoClrWalk.PointAt | mssql/geoclr_reader.hpp:30-40 | read_point: the point at the first figure's offset, none where the C++ indexes out of range; the walk asks for it only where `WalkProperties.WellFormed` provides it |
| GeoClrWalk.LineAt | mssql/geoclr_reader.hpp:57-77 | read_linestring: its contract is stated by `WalkProperties.LineIsFirstFigure` and `WalkProperties.OrderedShapesDefined` |
| GeoClrWalk.PolygonAt | mssql/geoclr_reader.hpp:93-127 | read_polygon: its contract is stated by `WalkProperties.PolygonRingSplit` and `WalkProperties.OrderedShapesDefined` |
| GeoClrWalk.Walk | mssql/geoclr_reader.hpp:156-164 | read() on a whole geometry: empty without shapes, else the read at shape 0; definedness is stated by `WalkProperties.WellFormedWalkDefined` |
| GeoClrWalk.FromGeoClr | mssql/geoclr_reader.hpp:204-216 | from_geoclr without the orientation correction: empty for an empty buffer, else the walk of the parse from offset 0 |
| GeoClrWalk.RunEnd | mssql/geoclr_reader.hpp:41-56 | the run ends inside the shapes; every shape after the start up to the end names the parent, and the next one does not |
| GeoClrWalk.Parts | mssql/geoclr_reader.hpp:41-56 | defined exactly when every member of the run is; one part per member, in order |
| GeoClrWalk.PartsOfValues | mssql/geoclr_reader.hpp:41-56 | conversely, a sequence that gives each member's value is the parts |
| GeoClrWalk.Read | mssql/geoclr_reader.hpp:156-201 | a defined read ends on a shape between its start and the last shape |
| GeoClrWalk.Collect | mssql/geoclr_reader.hpp:142-154 | ends inside the shapes, on a shape after which the run of children stops |
| WalkProperties.PolygonRingSplit | mssql/geoclr_reader.hpp:93-127 | the exterior ring is the points of the shape's first figure, hole k those of figure k+1; one hole fewer than figures; no figures gives an empty polygon |
| WalkProperties.RingsPolygon | mssql/geoclr_reader.hpp:100-124 | the rings of n consecutive figures become one exterior and n-1 holes in figure order |
| WalkProperties.PolygonOfParts | mssql/geoclr_reader.hpp:100-124 | the first ring is the exterior and the others are the holes, in order |
| WalkProperties.LineIsFirstFigure | mssql/geoclr_reader.hpp:57-77 | a line string is the coordinates of its first figure's points, empty when it has no figures |
| WalkProperties.MultiPolygonTakesRun | mssql/geoclr_reader.hpp:128-140 | a multi polygon takes exactly the contiguous children up to `RunEnd`, one polygon each |
| WalkProperties.CurvesAndUnknownTagsAreEmpty | mssql/geoclr_reader.hpp:165-198 | curve shapes and unknown tags read as the empty geometry without moving |
| WalkProperties.OrderedShapesDefined | mssql/geoclr_reader.hpp:57-127 | with ordered offsets every line string and polygon read is in range |
| WalkProperties.ReadAsPoint | mssql/geoclr_reader.hpp:41-56 | the shapes the walk may read as points: Point shapes and the children of a MultiPoint, compared unsigned as at line 48 |
| WalkProperties.WellFormed | mssql/geoclr_reader.hpp:30-56 | ordered offsets, and a point wherever the walk reads a shape as a point; multi-part and collection parents and empty lines or polygons need none |
| WalkProperties.WellFormedPartsDefined | mssql/geoclr_reader.hpp:41-140 | on a well-formed geometry the children of a MultiPoint all have points, and every run of lines or polygons is defined |
| WalkProperties.WellFormedReadDefined | mssql/geoclr_reader.hpp:156-201 | on a well-formed geometry read is defined at every shape |
| WalkProperties.WellFormedCollectDefined | mssql/geoclr_reader.hpp:142-154 | on a well-formed geometry every collection read is defined |
| WalkProperties.WellFormedWalkDefined | mssql/geoclr_reader.hpp:204-216 | on a well-formed geometry the whole walk is defined |
| WalkProperties.PolygonRingSplitExample | mssql/geoclr_reader.hpp:93-127 | figures at offsets 0, 5, 9 over 12 points give an exterior of 5 points and holes of 4 and 3 |
| WalkProperties.MultiPartContiguityExample | mssql/geoclr_reader.hpp:128-140 | a multi polygon with two children takes both and gives two one-ring polygons |
| WalkProperties.MultiPolygonExampleWellFormed | mssql/geoclr_reader.hpp:128-140 | the multi polygon example, whose root has no figure of its own, is well formed |
| Connections.ConnectionStringSafe | mssql/connection_manager.hpp:83-114 | connection_string_safe(): its contract is stated by `Connections.ConnectionStringWins`, `Connections.SafeStringRendersSettings` and `Connections.EmptyIsMissing` |
| Connections.ConnectionString | mssql/connection_manager.hpp:76-81 | connection_string(): the safe string followed by `PWD=` and a non-empty password; stated by `Connections.IdFromOpenArgs` |
| Connections.Id | mssql/connection_manager.hpp:71-74 | id(): the full connection string; stated by `Connections.IdFromOpenArgs` and `Connections.IdPasswordIff` |
| Connections.Open | mssql/connection_manager.hpp:66-69 | the connection receives the password apart from the string; a given connection_string is used verbatim |
| Connections.IdFromOpenArgs | mssql/connection_manager.hpp:66-81 | the pool key is the string the connection is opened with followed by `PWD=` and the password |
| Connections.ConnectionStringWins | mssql/connection_manager.hpp:83-92 | a non-empty connection_string is used verbatim and every other parameter but the password is ignored |
| Connections.SafeStringRendersSettings | mssql/connection_manager.hpp:93-111 | without a connection_string the string is the given non-empty settings as `KEY=value;`, in the fixed order, without the password |
| Connections.EmptyIsMissing | mssql/connection_manager.hpp:76-111 | an empty parameter contributes the same as a missing one |
| Connections.IdPasswordIff | mssql/connection_manager.hpp:71-81 | creators that differ only in the password share a pool exactly when the passwords agree after the emptiness test |
| Connections.ConflictCheckAgrees | mssql/connection_manager.hpp:86-91 | where the conflict test as written is defined it agrees with the intended one, and it is defined when all five parameters are given |
| Connections.ConflictCheckUndefinedForConnectionStringAlone | mssql/connection_manager.hpp:86-91 | with only a connection_string the test dereferences a missing parameter; the intended test logs nothing |
| Connections.Register | mssql/connection_manager.hpp:141-158 | after registering, the creator's id is a key; a new id holds the given creator and sizes, while an existing pool keeps the creator it was made with and each size becomes the larger of the old and the given one; the call answers true exactly when the id was new; other pools are unchanged |
| Connections.RegisterNeverShrinks | mssql/connection_manager.hpp:141-158 | registering never makes a pool smaller, and registering the same creator with the same sizes again changes nothing |
| Connections.RegisterKeepsFirstCreator | mssql/connection_manager.hpp:141-158 | a second creator with the same connection string and password shares the first one's pool: nothing is inserted, the first creator stays, and the sizes are the larger of the two calls' |
| Connections.Lookup | mssql/connection_manager.hpp:160-169 | the pool filed under the key, or none exactly when there is no such key |
| Connections.RegisterThenLookup | mssql/connection_manager.hpp:141-169 | registering keeps every pool filed under its creator's id, and getPool of the id then finds a pool with the same id and sizes at least the given ones, equal to them when the id was new |
| Connections.RegisterTwice | mssql/connection_manager.hpp:141-158 | registering an existing creator inserts nothing and only raises the sizes; two registrations of a new id leave the larger of each pair of sizes |
| Connections.ConnectionManager.RegisterPool | mssql/connection_manager.hpp:141-158 | the registry becomes `Register` of the old one and stays filed by id |
| Connections.ConnectionManager.GetPool | mssql/connection_manager.hpp:160-169 | returns `Lookup` of the registry and changes nothing |
| Numeric.Numeric2String | mssql/mssql_featureset.cpp:183-293 | the produced text is `NumericText`: sign, integer groups, and for a positive scale '.' and the fraction digits |
| Numeric.NumericText | mssql/mssql_featureset.cpp:183-293 | the text numeric2string builds: sign, integer part, and a '.' with dscale digits for a positive scale; its meaning is stated by `NumericProperties.SignIffNegative`, `NumericProperties.DotIffScale`, `NumericProperties.IntegerPartValue` and `NumericProperties.FracPartDigits` |
| Numeric.WriteIntegerPart | mssql/mssql_featureset.cpp:200-255 | the first loop appends the integer part and leaves i = -1 with d the number of digits used |
| Numeric.WriteIntGroup | mssql/mssql_featureset.cpp:210-252 | one round: a digit padded to four characters unless it is the first, or "0"/"0000" past the digits |
| Numeric.WriteFraction | mssql/mssql_featureset.cpp:256-291 | the second loop appends exactly dscale fraction digits from the digits after the point |
| Numeric.WriteGroup | mssql/mssql_featureset.cpp:268-287 | one round writes up to four decimal digits of the value, one per remaining unit of scale |
| Numeric.FracCursor | mssql/mssql_featureset.cpp:263-266 | in fraction round u the test picks the digit of weight -(u+1), or 0 outside the digits |
| NumericProperties.SignIffNegative | mssql/mssql_featureset.cpp:198 | the text starts with '-' exactly for the sign word 0x4000 |
| NumericProperties.DotIffScale | mssql/mssql_featureset.cpp:256-258 | the text has a '.' exactly when dscale is positive, and then just one, right after the integer part |
| NumericProperties.IntegerPartValue | mssql/mssql_featureset.cpp:200-255 | the integer part read as decimal is the value of the digits of weight 0 and above |
| NumericProperties.IntegerPartStartsWithDigit | mssql/mssql_featureset.cpp:200-255 | the integer part is non-empty and starts with a digit |
| NumericProperties.PadDigits | mssql/mssql_featureset.cpp:213-244 | a padded group is the four-digit form of its digit |
| NumericProperties.FracPartDigits | mssql/mssql_featureset.cpp:256-291 | the fraction has exactly dscale characters; character 4q+p is digit p of the four-digit form of group q after the point |
| NumericProperties.GroupStrDigits | mssql/mssql_featureset.cpp:268-287 | the digits one round writes are a prefix of the group's four-digit form |
| Datasource.CheckTable | mssql/mssql_datasource.cpp:101-104 | an empty table parameter is the missing-table error, and only that |
| Datasource.AsyncMode | mssql/mssql_datasource.cpp:114-124 | asynchronous exactly for more than one connection; more than max_size is an error |
| Datasource.ToInt | mssql/mssql_datasource.cpp:72-91 | storing a 64-bit parameter in an `int` member keeps values in the 32-bit signed range and otherwise agrees with the value modulo 2^32 |
| Datasource.ToUnsigned | mssql/mssql_datasource.cpp:133 | sizes handed to registerPool are the parameters modulo 2^32 |
| Datasource.LastDot | mssql/mssql_datasource.cpp:150 | the position of the last '.', none exactly without one |
| Datasource.SplitSchema | mssql/mssql_datasource.cpp:150-159 | the table part has no '.'; without a '.' the schema is empty; else schema + "." + table is the name |
| Datasource.SplitJoin | mssql/mssql_datasource.cpp:150-159 | splitting undoes joining a schema and a table without '.' |
| Datasource.DefaultSrid | mssql/mssql_datasource.cpp:284-287 | an srid of 0 becomes -1; any other is kept |
| Datasource.KeyFieldAsWritten | mssql/mssql_datasource.cpp:232-235 | autodetection with no key field always throws, whatever the query would find |
| Datasource.KeyField | mssql/mssql_datasource.cpp:232-282 | intended: a given key is kept; else the detected non-empty key is used; else autodetection fails with primary-key-required |
| Datasource.DetectedKeyIgnored | mssql/mssql_datasource.cpp:232-282 | a table with a detectable key: as written an error, as intended that key |
| Datasource.KindOf | mssql/mssql_datasource.cpp:335-363 | a type maps to Integer exactly when it is an integer type |
| Datasource.KeyColumn | mssql/mssql_datasource.cpp:307-313 | the first column with the key's name, none exactly when no column has it |
| Datasource.DescribePrefixMeaning | mssql/mssql_datasource.cpp:305-365 | the column loop fails exactly when the key's first column is not an integer, with that type; else it describes every known column, the key as Integer |
| Datasource.DescribeMeaning | mssql/mssql_datasource.cpp:305-365 | the descriptor is the known columns, or the invalid-key error |
| Datasource.DescribeColumns | mssql/mssql_datasource.cpp:305-365 | the loop returns `Describe` of the columns |
| Datasource.Bind | mssql/mssql_datasource.cpp:101-365 | the constructor, with the key-field rule as written or as intended, after narrowing max_size, max_async_connection and srid to `int`; its contract is stated by `Datasource.BindOutcome`, `Datasource.BindAutodetect` and `Datasource.BindNarrowsParameters` |
| Datasource.BindNarrowsParameters | mssql/mssql_datasource.cpp:88-124 | the limit test sees the narrowed values: max_size 2^32+1 acts as 1 and 2^31 as -2^31, so two asynchronous connections are refused; max_async_connection 2^32+2 acts as 2 and asks for asynchronous mode; srid 2^32 becomes 0 |
| Datasource.BindOutcome | mssql/mssql_datasource.cpp:101-365 | the constructor's result, under either key-field rule: a table is required; asynchronous mode and its limit are decided on max_async_connection and max_size narrowed to `int`, and the error reports the narrowed values; the pool sizes are initial_size and the narrowed max_size modulo 2^32; without a connection the srid is the narrowed parameter; when connected the table has no schema, the srid is set, an autodetected key exists, and the attributes are the known columns |
| Datasource.BindAutodetect | mssql/mssql_datasource.cpp:101-282 | as written, a connected constructor past the table and pool checks throws whenever autodetection is asked for without a key field; as intended it then binds the detected non-empty key; otherwise the two rules give the same result |
| Datasource.SampleSize | mssql/mssql_datasource.cpp:916-923 | the row limit when between 1 and 4, else 5 |
| Datasource.Sampled | mssql/mssql_datasource.cpp:930 | the values of the leading non-null rows in order, at most top of them; a sample shorter than both the rows and top ends at a null row |
| Datasource.Classify | mssql/mssql_datasource.cpp:934-948 | the contains() tests in their order; what they give for each STGeometryType() name is stated by `Datasource.NamesAsWritten` and `Datasource.NamesIgnoringCase` |
| Datasource.Fold | mssql/mssql_datasource.cpp:930-960 | the sampling loop on the kinds; its meaning is stated by `Datasource.FoldMeaning` |
| Datasource.FoldMeaning | mssql/mssql_datasource.cpp:930-960 | nothing for an empty sample; the common kind when all rows have the same one; else Collection |
| Datasource.GetGeometryType | mssql/mssql_datasource.cpp:893-966 | the loop returns `GeometryTypeOf`: nothing without a connection or geometry column, else the fold of the sample |
| Datasource.SampleRow | mssql/mssql_datasource.cpp:932-959 | one round: an unmatched value or a change of kind ends with Collection; else the fold goes on from this row's kind |
| Datasource.NamesAsWritten | mssql/mssql_datasource.cpp:934-948 | as written none of the STGeometryType() names matches "line", "point" or "polygon" |
| Datasource.AsWrittenNamesAreCollection | mssql/mssql_datasource.cpp:930-953 | as written every non-empty sample of real names gives Collection |
| Datasource.PointSample | mssql/mssql_datasource.cpp:893-966 | a table of points: Collection as written, Point with case-insensitive tests |
| Datasource.NamesIgnoringCase | mssql/mssql_datasource.cpp:934-948 | with case-insensitive tests each name gets its intended kind |
| Datasource.NamesOfOneKind | mssql/mssql_datasource.cpp:930-960 | with case-insensitive tests, names all of one kind give that kind |
| Datasource.NamesOfMixedKinds | mssql/mssql_datasource.cpp:930-960 | with case-insensitive tests, a name of no kind or two kinds give Collection |

## Left out

- int2net and the big-endian reads of the NUMERIC buffer: the model starts from the decoded header words and digits. A negative digit count is not modelled.
- The `_WINDOWS` branch of numeric2string is left out; only the `case 0 ... 9` branch is modelled. The Windows branch also writes one '0' before a digit of 1000 or more.
- IEEE doubles: a double is the 64-bit pattern of its 8 bytes. A failed read gives the pattern 0, which is +0.0. No arithmetic is done on doubles.
- The decoder assumes a little-endian host, as `memcpy` into an integer does on x86.
- `reserve` with a huge count, and the allocation failure it can raise, are left out.
- Out-of-range offsets in the tree walk are undefined behaviour in the C++. `GeoClrWalk` returns None there, and the `GeoClr` methods require a defined result.
- `mapnik::geometry::correct`, called by from_geoclr, is not modelled.
- The singleton wrapper of ConnectionManager and the Pool internals are left out: borrowing, sizes in use, and the Connection object that operator() returns. A pool is its creator and its two sizes.
- MAPNIK_LOG_ERROR and the other log output are left out. For the conflict test, only whether it is evaluated and what it evaluates to is modelled.
- The database queries of the constructor and of get_geometry_type are left out: the metadata, srid and primary-key queries, `SELECT TOP 0 *` and the sampling query. Their outcomes are parameters.
- table_from_sql, populate_tokens, unquote_double and the extent parsing are left out. The geometry table is taken as given.
- Datasource.Lower: boost's locale-dependent case folding is modelled as ASCII lower case, which covers the STGeometryType() names.
- Connections.Register: mapnik::Pool is not part of this model. Its set_initial_size and set_max_size are modelled as keeping the larger of the old and the new size (`Connections.Resized`); the connections that a larger initial size opens are left out.
- Connections.Open: the Connection that operator() constructs is reduced to its two constructor arguments.

## Findings

| source | as written | input that shows it | evidently intended | confidence | as-written member | corrected member |
|---|---|---|---|---|---|---|
| mssql/mssql_datasource.cpp:934-948 | `contains(data, "line")`, `"point"` and `"polygon"` are case-sensitive, but STGeometryType() returns PascalCase names | a table of points: every sampled row is "Point", so the answer is Collection | a case-insensitive test, so that "Point" gives Point and "MultiLineString" gives LineString | not executed | Datasource.NamesAsWritten | Datasource.NamesIgnoringCase |
| mssql/connection_manager.hpp:89 | with a connection_string, `!driver_->empty() \|\| ...` dereferences optionals that may be absent | only connection_string given: `driver_` is empty and is dereferenced | test each optional before dereferencing it: `driver_ && !driver_->empty()`, and so on | not executed | Connections.ConflictCheckUndefinedForConnectionStringAlone | Connections.ConflictCheckAgrees |
| mssql/mssql_datasource.cpp:233-235 | the throw at the head of the autodetection block runs before the primary-key query | autodetect_key_field=true and no key_field on a table with a primary key "id": the constructor throws | run the query, use the detected key, and throw primary-key-required (277-282) only if none is found | not executed | Datasource.DetectedKeyIgnored | Datasource.KeyField |
