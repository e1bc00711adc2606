/** The decisions the datasource makes from its parameters and from what
    the database reports: the parameter checks of the constructor, the split
    of the geometry table into schema and table, the key field, the srid
    default, the attribute kinds of the table's columns, and the geometry
    type get_geometry_type folds from a sample of STGeometryType() names.
    The queries themselves are not modelled: their answers are inputs. */
module Datasource {
  import opened Wrappers
  import opened Bytes

  // ---------------------------------------------------------------------
  // ODBC SQL type ids (sql.h, sqlext.h and sqlucode.h).

  const SQL_BIT: int := -7
  const SQL_TINYINT: int := -6
  const SQL_SMALLINT: int := 5
  const SQL_INTEGER: int := 4
  const SQL_BIGINT: int := -5
  const SQL_FLOAT: int := 6
  const SQL_REAL: int := 7
  const SQL_DOUBLE: int := 8
  const SQL_VARCHAR: int := 12
  const SQL_LONGVARCHAR: int := -1
  const SQL_WVARCHAR: int := -9
  const SQL_WLONGVARCHAR: int := -10

  /** The exceptions the constructor throws, one per throw site. */
  datatype DatasourceError =
    | MissingTable
    | TooManyAsyncConnections(maxAsync: int, maxSize: int)
    | AutodetectKeyField(keyField: string)
    | PrimaryKeyRequired(table: string)
    | InvalidKeyType(typeOid: int, field: string)

  // ---------------------------------------------------------------------
  // Parameter checks.

  /** The table parameter must be given and non-empty. */
  function CheckTable(table: string): (r: Result<string, DatasourceError>)
    ensures r.Err? <==> table == []
    ensures r.Err? ==> r.error == MissingTable
    ensures r.Ok? ==> r.value == table
  {
    if table == [] then Err(MissingTable) else Ok(table)
  }

  /** Whether requests are asynchronous: only for more than one
      asynchronous connection, and then never more than the pool holds. */
  function AsyncMode(maxAsync: int, maxSize: int): (r: Result<bool, DatasourceError>)
    ensures r.Err? <==> maxAsync > 1 && maxAsync > maxSize
    ensures r.Err? ==> r.error == TooManyAsyncConnections(maxAsync, maxSize)
    ensures r.Ok? ==> (r.value <==> maxAsync > 1)
    ensures r.Ok? && r.value ==> 1 < maxAsync <= maxSize
  {
    if maxAsync > 1 then
      if maxAsync > maxSize then Err(TooManyAsyncConnections(maxAsync, maxSize)) else Ok(true)
    else Ok(false)
  }

  /** The conversion of a 64-bit parameter to the unsigned sizes
      registerPool takes: the value modulo 2^32. */
  function ToUnsigned(v: int): (r: UInt32)
    ensures 0 <= v < TWO_32 ==> r == v
    ensures (r - v) % TWO_32 == 0
  {
    v % TWO_32
  }

  /** The conversion of a 64-bit parameter to the `int` members that hold
      max_size, max_async_connection and srid: the value modulo 2^32, read
      as two's complement. */
  function ToInt(v: int): (r: Int32)
    ensures -TWO_31 <= v < TWO_31 ==> r == v
    ensures (r - v) % TWO_32 == 0
  {
    ToInt32(ToUnsigned(v))
  }

  // ---------------------------------------------------------------------
  // Schema and table.

  /** find_last_of('.'): the position of the last '.', if any. */
  function LastDot(s: string): (r: Option<nat>)
    ensures r.None? <==> '.' !in s
    ensures r.Some? ==> r.value < |s| && s[r.value] == '.' && '.' !in s[r.value + 1..]
  {
    if s == [] then None
    else if s[|s| - 1] == '.' then Some(|s| - 1)
    else
      var r := LastDot(s[..|s| - 1]);
      assert s == s[..|s| - 1] + [s[|s| - 1]];
      if r.Some? then
        assert s[r.value + 1..] == s[..|s| - 1][r.value + 1..] + [s[|s| - 1]];
        r
      else r
  }

  /** The geometry table split at its last '.' into (schema, table); without
      a '.', the schema stays empty and the name is kept. */
  function SplitSchema(name: string): (r: (string, string))
    ensures '.' !in r.1
    ensures '.' !in name ==> r == ("", name)
    ensures '.' in name ==> r.0 + "." + r.1 == name
  {
    match LastDot(name)
    case None => ("", name)
    case Some(i) =>
      assert name == name[..i] + "." + name[i + 1..];
      (name[..i], name[i + 1..])
  }

  /** The last '.' of a name followed by a part without one is that '.'. */
  lemma {:induction false} LastDotBefore(schema: string, table: string)
    requires '.' !in table
    ensures LastDot(schema + "." + table) == Some(|schema|)
    decreases |table|
  {
    var name := schema + "." + table;
    if table != [] {
      var init := table[..|table| - 1];
      assert name[..|name| - 1] == schema + "." + init;
      assert name[|name| - 1] == table[|table| - 1];
      LastDotBefore(schema, init);
    }
  }

  /** Splitting undoes joining a schema and a table without a '.'. */
  lemma SplitJoin(schema: string, table: string)
    requires '.' !in table
    ensures SplitSchema(schema + "." + table) == (schema, table)
  {
    var name := schema + "." + table;
    LastDotBefore(schema, table);
    assert name[..|schema|] == schema;
    assert name[|schema| + 1..] == table;
  }

  // ---------------------------------------------------------------------
  // The srid.

  /** An srid that is still 0 after the metadata queries becomes -1. */
  function DefaultSrid(srid: int): (r: int)
    ensures r != 0
    ensures srid != 0 ==> r == srid
    ensures srid == 0 ==> r == -1
  {
    if srid == 0 then -1 else srid
  }

  // ---------------------------------------------------------------------
  // The key field.

  /** The key field as the constructor computes it: the throw at the head
      of the detection block comes before the query, so autodetection
      with no key field always fails and `detected` is never consulted. */
  function KeyFieldAsWritten(autodetect: bool, keyField: string, table: string, detected: Option<string>): (r: Result<string, DatasourceError>)
    ensures autodetect && keyField == [] ==> r == Err(AutodetectKeyField(keyField))
    ensures !(autodetect && keyField == []) ==> r == Ok(keyField)
  {
    if autodetect && keyField == [] then Err(AutodetectKeyField(keyField)) else Ok(keyField)
  }

  /** The key field as the detection block is meant to work: without a key
      field, the first primary-key column the query reports (`detected`,
      None when it returns no row) is taken if its name is non-empty, and
      a key that is still missing is an error. */
  function KeyField(autodetect: bool, keyField: string, table: string, detected: Option<string>): (r: Result<string, DatasourceError>)
    ensures keyField != [] ==> r == Ok(keyField)
    ensures !autodetect ==> r == Ok(keyField)
    ensures r.Err? <==> autodetect && keyField == [] && (detected.None? || detected.value == [])
    ensures r.Err? ==> r.error == PrimaryKeyRequired(table)
    ensures autodetect && keyField == [] && detected.Some? && detected.value != [] ==> r == Ok(detected.value)
    ensures r.Ok? && autodetect ==> r.value != []
  {
    var key :=
      if autodetect && keyField == [] && detected.Some? && detected.value != [] then detected.value
      else keyField;
    if autodetect && key == [] then Err(PrimaryKeyRequired(table)) else Ok(key)
  }

  /** A table whose primary key the query finds: as written the constructor
      throws, as intended it uses the key. */
  lemma DetectedKeyIgnored()
    ensures KeyFieldAsWritten(true, "", "roads", Some("id")) == Err(AutodetectKeyField(""))
    ensures KeyField(true, "", "roads", Some("id")) == Ok("id")
  {
  }

  // ---------------------------------------------------------------------
  // Column descriptions.

  /** The attribute kinds of mapnik's layer descriptor. */
  datatype AttributeKind = Boolean | Integer | Double | String

  /** A column of the result set: its name and its ODBC type id. */
  datatype Column = Column(name: string, typeOid: int)

  datatype Attribute = Attribute(name: string, kind: AttributeKind)

  /** The type ids a key field may have. */
  predicate IsIntegerType(oid: int)
  {
    oid == SQL_SMALLINT || oid == SQL_TINYINT || oid == SQL_INTEGER || oid == SQL_BIGINT
  }

  /** The attribute kind of a column type, None for the types that are
      skipped. */
  function KindOf(oid: int): (r: Option<AttributeKind>)
    ensures r == Some(Integer) <==> IsIntegerType(oid)
  {
    if oid == SQL_BIT then Some(Boolean)
    else if IsIntegerType(oid) then Some(Integer)
    else if oid == SQL_FLOAT || oid == SQL_REAL || oid == SQL_DOUBLE then Some(Double)
    else if oid == SQL_VARCHAR || oid == SQL_LONGVARCHAR || oid == SQL_WVARCHAR || oid == SQL_WLONGVARCHAR then Some(String)
    else None
  }

  /** One round of the column loop from the attributes so far and whether
      the key field was found. */
  function DescribeStep(attrs: seq<Attribute>, found: bool, c: Column, keyField: string): Result<(seq<Attribute>, bool), DatasourceError>
  {
    if !found && keyField != [] && c.name == keyField then
      if IsIntegerType(c.typeOid) then Ok((attrs + [Attribute(c.name, Integer)], true))
      else Err(InvalidKeyType(c.typeOid, c.name))
    else
      match KindOf(c.typeOid)
      case Some(k) => Ok((attrs + [Attribute(c.name, k)], found))
      case None => Ok((attrs, found))
  }

  /** The column loop over the given columns. */
  function DescribePrefix(columns: seq<Column>, keyField: string): Result<(seq<Attribute>, bool), DatasourceError>
  {
    if columns == [] then Ok(([], false))
    else
      match DescribePrefix(columns[..|columns| - 1], keyField)
      case Err(e) => Err(e)
      case Ok(state) => DescribeStep(state.0, state.1, columns[|columns| - 1], keyField)
  }

  /** The attributes of the table, or the error of an invalid key field. */
  function Describe(columns: seq<Column>, keyField: string): Result<seq<Attribute>, DatasourceError>
  {
    match DescribePrefix(columns, keyField)
    case Err(e) => Err(e)
    case Ok(state) => Ok(state.0)
  }

  /** Reference: the columns of a known type with their kinds, in order. */
  function Known(columns: seq<Column>): (r: seq<Attribute>)
    ensures |r| <= |columns|
  {
    if columns == [] then []
    else
      var c := columns[|columns| - 1];
      Known(columns[..|columns| - 1]) + (match KindOf(c.typeOid) case Some(k) => [Attribute(c.name, k)] case None => [])
  }

  /** Reference: the first column with the key field's name. */
  function KeyColumn(columns: seq<Column>, keyField: string): (r: Option<Column>)
    ensures r.None? <==> forall j :: 0 <= j < |columns| ==> columns[j].name != keyField
    ensures r.Some? ==> r.value.name == keyField && exists i :: 0 <= i < |columns| && columns[i] == r.value && forall j :: 0 <= j < i ==> columns[j].name != keyField
  {
    if columns == [] then None
    else
      var init := columns[..|columns| - 1];
      var r := KeyColumn(init, keyField);
      if r.Some? then
        var i :| 0 <= i < |init| && init[i] == r.value && forall j :: 0 <= j < i ==> init[j].name != keyField;
        assert columns[i] == r.value;
        r
      else if columns[|columns| - 1].name == keyField then
        assert forall j :: 0 <= j < |init| ==> columns[j].name != keyField;
        Some(columns[|columns| - 1])
      else
        assert forall j :: 0 <= j < |columns| ==> columns[j].name != keyField by {
          assert forall j :: 0 <= j < |init| ==> columns[j] == init[j];
        }
        None
  }

  /** Whether the key field names a column whose type is not an integer. */
  predicate KeyRejected(columns: seq<Column>, keyField: string)
  {
    keyField != [] && KeyColumn(columns, keyField).Some? && !IsIntegerType(KeyColumn(columns, keyField).value.typeOid)
  }

  /** The column loop fails exactly for a key field whose first column is
      not an integer, with that column's type; otherwise it describes every
      column of a known type, the key column as an Integer. */
  lemma {:induction false} DescribePrefixMeaning(columns: seq<Column>, keyField: string)
    ensures DescribePrefix(columns, keyField)
         == if KeyRejected(columns, keyField) then Err(InvalidKeyType(KeyColumn(columns, keyField).value.typeOid, keyField))
            else Ok((Known(columns), keyField != [] && KeyColumn(columns, keyField).Some?))
    decreases |columns|
  {
    if columns != [] {
      var init, c := columns[..|columns| - 1], columns[|columns| - 1];
      DescribePrefixMeaning(init, keyField);
      var before := KeyColumn(init, keyField);
      assert KeyColumn(columns, keyField) == if before.Some? then before else if c.name == keyField then Some(c) else None;
      assert Known(columns) == Known(init) + (match KindOf(c.typeOid) case Some(k) => [Attribute(c.name, k)] case None => []);
      if !KeyRejected(init, keyField) {
        var found := keyField != [] && before.Some?;
        assert DescribePrefix(columns, keyField) == DescribeStep(Known(init), found, c, keyField);
        if !found && keyField != [] && c.name == keyField {
          assert KeyColumn(columns, keyField) == Some(c);
          if IsIntegerType(c.typeOid) {
            assert KindOf(c.typeOid) == Some(Integer);
            assert !KeyRejected(columns, keyField);
          } else {
            assert KeyRejected(columns, keyField);
          }
        } else {
          assert !KeyRejected(columns, keyField);
          assert found == (keyField != [] && KeyColumn(columns, keyField).Some?);
          if KindOf(c.typeOid).None? {
            assert Known(columns) == Known(init);
          }
        }
      } else {
        assert KeyColumn(columns, keyField) == before;
      }
    }
  }

  lemma DescribeMeaning(columns: seq<Column>, keyField: string)
    ensures KeyRejected(columns, keyField) ==> Describe(columns, keyField) == Err(InvalidKeyType(KeyColumn(columns, keyField).value.typeOid, keyField))
    ensures !KeyRejected(columns, keyField) ==> Describe(columns, keyField) == Ok(Known(columns))
  {
    DescribePrefixMeaning(columns, keyField);
  }

  /** An error in the column loop ends it: the whole loop has the error of
      the first n columns. */
  lemma {:induction false} DescribeErrorStays(columns: seq<Column>, keyField: string, n: nat)
    requires n <= |columns| && DescribePrefix(columns[..n], keyField).Err?
    ensures DescribePrefix(columns, keyField) == DescribePrefix(columns[..n], keyField)
    decreases |columns| - n
  {
    if n < |columns| {
      var longer := columns[..n + 1];
      assert longer[..n] == columns[..n];
      if n + 1 < |columns| {
        DescribeErrorStays(columns, keyField, n + 1);
      } else {
        assert longer == columns;
      }
    } else {
      assert columns[..n] == columns;
    }
  }

  /** The loop over the columns of `SELECT TOP 0 *`: the first column named
      by the key field must have an integer type and becomes an Integer
      attribute; every other column of a known type is described. */
  method DescribeColumns(columns: seq<Column>, keyField: string) returns (r: Result<seq<Attribute>, DatasourceError>)
    ensures r == Describe(columns, keyField)
  {
    var attrs: seq<Attribute> := [];
    var found := false;
    var i := 0;
    while i < |columns|
      invariant 0 <= i <= |columns|
      invariant DescribePrefix(columns[..i], keyField) == Ok((attrs, found))
      decreases |columns| - i
    {
      var c := columns[i];
      assert columns[..i + 1][..i] == columns[..i];
      if !found && keyField != [] && c.name == keyField {
        if IsIntegerType(c.typeOid) {
          found := true;
          attrs := attrs + [Attribute(c.name, Integer)];
        } else {
          DescribeErrorStays(columns, keyField, i + 1);
          return Err(InvalidKeyType(c.typeOid, c.name));
        }
      } else {
        var kind := KindOf(c.typeOid);
        if kind.Some? {
          attrs := attrs + [Attribute(c.name, kind.value)];
        }
      }
      i := i + 1;
    }
    assert columns[..i] == columns;
    r := Ok(attrs);
  }

  // ---------------------------------------------------------------------
  // The constructor.

  /** The parameters the constructor reads, with their defaults applied,
      as the 64-bit values the parameter list gives. */
  datatype Settings = Settings(
    table: string,
    geometryTable: string,
    keyField: string,
    srid: int,
    maxSize: int,
    maxAsync: int,
    initialSize: int,
    autodetectKeyField: bool)

  /** What the database reports: whether a working connection was borrowed,
      the srid after the metadata queries, the primary-key query's first
      column name, and the columns of the table. */
  datatype Catalog = Catalog(
    connected: bool,
    sridAfterQueries: int,
    detectedKey: Option<string>,
    columns: seq<Column>)

  /** The state the constructor leaves. */
  datatype Bound = Bound(
    asynchronous: bool,
    poolInitialSize: UInt32,
    poolMaxSize: UInt32,
    schema: string,
    geometryTable: string,
    keyField: string,
    srid: int,
    attributes: seq<Attribute>)

  /** The constructor's decisions in their order; without a connection it
      returns after registering the pool. max_size, max_async_connection
      and srid are narrowed to `int` as they are stored, before the test of
      the pool size; initial_size goes to registerPool unnarrowed. The key field follows the
      detection block as written when `intended` is false, and as it is
      meant to work when `intended` is true. */
  function Bind(s: Settings, db: Catalog, intended: bool): Result<Bound, DatasourceError>
  {
    match CheckTable(s.table)
    case Err(e) => Err(e)
    case Ok(_) =>
      var maxSize, maxAsync := ToInt(s.maxSize), ToInt(s.maxAsync);
      match AsyncMode(maxAsync, maxSize)
      case Err(e) => Err(e)
      case Ok(asynchronous) =>
        var initial, max := ToUnsigned(s.initialSize), ToUnsigned(maxSize);
        if !db.connected then Ok(Bound(asynchronous, initial, max, "", s.geometryTable, s.keyField, ToInt(s.srid), []))
        else
          var (schema, table) := SplitSchema(s.geometryTable);
          var keyRule :=
            if intended then KeyField(s.autodetectKeyField, s.keyField, table, db.detectedKey)
            else KeyFieldAsWritten(s.autodetectKeyField, s.keyField, table, db.detectedKey);
          match keyRule
          case Err(e) => Err(e)
          case Ok(key) =>
            match Describe(db.columns, key)
            case Err(e) => Err(e)
            case Ok(attributes) => Ok(Bound(asynchronous, initial, max, schema, table, key, DefaultSrid(db.sridAfterQueries), attributes))
  }

  /** What a bound datasource satisfies: a table was given, asynchronous
      mode fits the pool, and with a connection the table name carries no
      schema, the srid is set, an autodetected key exists and the
      attributes are the columns of a known type. */
  lemma BindOutcome(s: Settings, db: Catalog, intended: bool)
    ensures s.table == [] ==> Bind(s, db, intended) == Err(MissingTable)
    ensures s.table != [] && ToInt(s.maxAsync) > 1 && ToInt(s.maxAsync) > ToInt(s.maxSize) ==>
              Bind(s, db, intended) == Err(TooManyAsyncConnections(ToInt(s.maxAsync), ToInt(s.maxSize)))
    ensures Bind(s, db, intended).Ok? ==>
              && s.table != []
              && (Bind(s, db, intended).value.asynchronous <==> ToInt(s.maxAsync) > 1)
              && ToInt(s.maxAsync) <= Max(ToInt(s.maxSize), 1)
              && Bind(s, db, intended).value.poolInitialSize == ToUnsigned(s.initialSize)
              && Bind(s, db, intended).value.poolMaxSize == ToUnsigned(s.maxSize)
    ensures Bind(s, db, intended).Ok? && !db.connected ==> Bind(s, db, intended).value.srid == ToInt(s.srid)
    ensures Bind(s, db, intended).Ok? && db.connected ==>
              var b := Bind(s, db, intended).value;
              '.' !in b.geometryTable && b.srid != 0 && (s.autodetectKeyField ==> b.keyField != []) && b.attributes == Known(db.columns)
  {
    var maxSize := ToInt(s.maxSize);
    assert ToUnsigned(maxSize) == ToUnsigned(s.maxSize);
    if s.table != [] && AsyncMode(ToInt(s.maxAsync), maxSize).Ok? && db.connected {
      var (schema, table) := SplitSchema(s.geometryTable);
      var key :=
        if intended then KeyField(s.autodetectKeyField, s.keyField, table, db.detectedKey)
        else KeyFieldAsWritten(s.autodetectKeyField, s.keyField, table, db.detectedKey);
      if key.Ok? {
        DescribeMeaning(db.columns, key.value);
      }
    }
  }

  /** As written, a connected constructor that gets past the table and pool
      checks throws whenever autodetection is asked for without a key
      field, whatever the catalog holds; as intended it binds the detected
      key when there is one. Away from that case the two agree. */
  lemma BindAutodetect(s: Settings, db: Catalog)
    ensures s.table != [] && AsyncMode(ToInt(s.maxAsync), ToInt(s.maxSize)).Ok? && db.connected && s.autodetectKeyField && s.keyField == [] ==>
              Bind(s, db, false) == Err(AutodetectKeyField(""))
    ensures Bind(s, db, true).Ok? && db.connected && s.autodetectKeyField && s.keyField == [] ==>
              db.detectedKey.Some? && Bind(s, db, true).value.keyField == db.detectedKey.value != []
    ensures !(s.autodetectKeyField && s.keyField == []) ==> Bind(s, db, false) == Bind(s, db, true)
  {
  }

  /** The settings of a table "roads" without a connection. */
  function RoadsSettings(srid: int, maxSize: int, maxAsync: int): Settings
  {
    Settings("roads", "roads", "", srid, maxSize, maxAsync, 1, false)
  }

  /** The pool test sees the narrowed values: a max_size of 2^32 + 1 is 1
      and one of 2^31 is negative, so two asynchronous connections are too
      many; a max_async_connection of 2^32 + 2 is 2 and fits a pool of 10;
      an srid of 2^32 is stored as 0. */
  lemma BindNarrowsParameters(db: Catalog, intended: bool)
    requires !db.connected
    ensures Bind(RoadsSettings(0, TWO_32 + 1, 2), db, intended) == Err(TooManyAsyncConnections(2, 1))
    ensures Bind(RoadsSettings(0, TWO_31, 2), db, intended) == Err(TooManyAsyncConnections(2, -TWO_31))
    ensures Bind(RoadsSettings(0, 10, TWO_32 + 2), db, intended).Ok?
    ensures Bind(RoadsSettings(0, 10, TWO_32 + 2), db, intended).value.asynchronous
    ensures Bind(RoadsSettings(TWO_32, 10, 1), db, intended).Ok?
    ensures Bind(RoadsSettings(TWO_32, 10, 1), db, intended).value.srid == 0
  {
    assert ToInt(TWO_32 + 1) == 1;
    assert ToInt(TWO_31) == -TWO_31;
    assert ToInt(TWO_32 + 2) == 2;
    assert ToInt(TWO_32) == 0;
  }

  // ---------------------------------------------------------------------
  // get_geometry_type.

  /** The geometry types of a datasource. */
  datatype GeometryKind = Point | LineString | Polygon | Collection

  /** The number of rows sampled: the row limit when it is between 1 and
      4, else 5. */
  function SampleSize(rowLimit: int): (n: int)
    ensures 1 <= n <= 5
    ensures 0 < rowLimit < 5 ==> n == rowLimit
    ensures !(0 < rowLimit < 5) ==> n == 5
  {
    if rowLimit > 0 && rowLimit < 5 then rowLimit else 5
  }

  function LowerChar(c: char): char
  {
    if 'A' <= c <= 'Z' then (c as int - 'A' as int + 'a' as int) as char else c
  }

  /** ASCII lower case. */
  function Lower(s: string): string
  {
    seq(|s|, i requires 0 <= i < |s| => LowerChar(s[i]))
  }

  /** Whether pat occurs in s at position k. */
  predicate MatchAt(s: string, pat: string, k: int)
  {
    0 <= k && k + |pat| <= |s| && s[k..k + |pat|] == pat
  }

  /** boost::algorithm::contains: pat occurs somewhere in s. */
  predicate Contains(s: string, pat: string)
  {
    exists k :: 0 <= k <= |s| - |pat| && MatchAt(s, pat, k)
  }

  /** Every character of an occurring pattern is in s. */
  lemma ContainsHasChar(s: string, pat: string, c: char)
    ensures Contains(s, pat) && c in pat ==> c in s
  {
    if Contains(s, pat) && c in pat {
      var k :| 0 <= k <= |s| - |pat| && MatchAt(s, pat, k);
      var j :| 0 <= j < |pat| && pat[j] == c;
      assert s[k + j] == c;
    }
  }

  /** Whether the a-th and the b-th character of pat are in place at
      position k of s. */
  predicate PairAt(s: string, pat: string, a: nat, b: nat, k: int)
    requires a < |pat| && b < |pat|
  {
    0 <= k <= |s| - |pat| && s[k + a] == pat[a] && s[k + b] == pat[b]
  }

  /** Where pat occurs, any two of its characters are in place. */
  lemma ContainsHasPair(s: string, pat: string, a: nat, b: nat)
    requires a < |pat| && b < |pat|
    ensures Contains(s, pat) ==> exists k :: 0 <= k <= |s| - |pat| && PairAt(s, pat, a, b, k)
  {
    if Contains(s, pat) {
      var k :| 0 <= k <= |s| - |pat| && MatchAt(s, pat, k);
      assert s[k + a] == pat[a] && s[k + b] == pat[b];
      assert PairAt(s, pat, a, b, k);
    }
  }

  /** The classification of one STGeometryType() value: "line" is tested
      first, then "point", then "polygon"; None is a value that matches
      none (the loop then answers Collection). As written the tests are
      case-sensitive; ignoreCase gives the case-insensitive tests. */
  function Classify(data: string, ignoreCase: bool): Option<GeometryKind>
  {
    ClassifyText(if ignoreCase then Lower(data) else data)
  }

  /** The case-sensitive tests of one value. */
  function ClassifyText(d: string): Option<GeometryKind>
  {
    if Contains(d, "line") then Some(LineString)
    else if Contains(d, "point") then Some(Point)
    else if Contains(d, "polygon") then Some(Polygon)
    else None
  }

  /** The first rows of the sample up to the first null one, at most top. */
  function Sampled(rows: seq<Option<string>>, top: int): (r: seq<string>)
    ensures |r| <= |rows| && |r| <= Max(top, 0)
    ensures forall k :: 0 <= k < |r| ==> rows[k] == Some(r[k])
    ensures |r| < |rows| && |r| < top ==> rows[|r|].None?
  {
    if rows == [] || top <= 0 || rows[0].None? then []
    else [rows[0].value] + Sampled(rows[1..], top - 1)
  }

  /** The loop of get_geometry_type from the kind of the previous row: the
      first unmatched row or the first change of kind gives Collection,
      otherwise the kind of the last row. */
  function Fold(rows: seq<string>, prev: Option<GeometryKind>, ignoreCase: bool): Option<GeometryKind>
  {
    if rows == [] then prev
    else
      var kind := Classify(rows[0], ignoreCase);
      if kind.None? then Some(Collection)
      else if prev.Some? && prev != kind then Some(Collection)
      else Fold(rows[1..], kind, ignoreCase)
  }

  /** get_geometry_type: nothing without a connection or a geometry column,
      else the fold of the sampled rows. */
  function GeometryTypeOf(connected: bool, geometryColumn: string, rowLimit: int, rows: seq<Option<string>>, ignoreCase: bool): Option<GeometryKind>
  {
    if !connected || geometryColumn == [] then None
    else Fold(Sampled(rows, SampleSize(rowLimit)), None, ignoreCase)
  }

  /** Every row of the sample has the given kind. */
  predicate Uniform(rows: seq<string>, kind: GeometryKind, ignoreCase: bool)
  {
    forall i :: 0 <= i < |rows| ==> Classify(rows[i], ignoreCase) == Some(kind)
  }

  lemma {:induction false} FoldFrom(rows: seq<string>, kind: GeometryKind, ignoreCase: bool)
    ensures Fold(rows, Some(kind), ignoreCase) == if Uniform(rows, kind, ignoreCase) then Some(kind) else Some(Collection)
    decreases |rows|
  {
    if rows != [] {
      FoldFrom(rows[1..], kind, ignoreCase);
      if Uniform(rows[1..], kind, ignoreCase) && Classify(rows[0], ignoreCase) == Some(kind) {
        assert forall i :: 1 <= i < |rows| ==> rows[i] == rows[1..][i - 1];
      }
    }
  }

  /** The fold's result: nothing for an empty sample, the kind of the rows
      when they all have the same one, Collection otherwise. */
  lemma FoldMeaning(rows: seq<string>, ignoreCase: bool)
    ensures rows == [] ==> Fold(rows, None, ignoreCase) == None
    ensures rows != [] ==>
              var first := Classify(rows[0], ignoreCase);
              if first.Some? && Uniform(rows, first.value, ignoreCase) then Fold(rows, None, ignoreCase) == first
              else Fold(rows, None, ignoreCase) == Some(Collection)
  {
    if rows != [] {
      var first := Classify(rows[0], ignoreCase);
      if first.Some? {
        FoldFrom(rows[1..], first.value, ignoreCase);
        if Uniform(rows[1..], first.value, ignoreCase) {
          assert forall i :: 1 <= i < |rows| ==> rows[i] == rows[1..][i - 1];
        } else {
          var i :| 0 <= i < |rows[1..]| && Classify(rows[1..][i], ignoreCase) != first;
          assert rows[i + 1] == rows[1..][i];
        }
      }
    }
  }

  /** What the sampling loop still yields from row i on, given the kind of
      the previous row. */
  ghost function Remaining(rows: seq<Option<string>>, i: nat, top: int, prev: Option<GeometryKind>, ignoreCase: bool): Option<GeometryKind>
    requires i <= |rows|
  {
    Fold(Sampled(rows[i..], top - i), prev, ignoreCase)
  }

  /** One round of the sampling loop. */
  lemma SampledStep(rows: seq<Option<string>>, i: nat, top: int)
    requires i < |rows| && i < top && rows[i].Some?
    ensures Sampled(rows[i..], top - i) == [rows[i].value] + Sampled(rows[i + 1..], top - (i + 1))
  {
    assert rows[i..][1..] == rows[i + 1..];
  }

  /** The end of the sampling loop. */
  lemma SampledStop(rows: seq<Option<string>>, i: nat, top: int)
    requires i <= |rows| && !(i < |rows| && i < top && rows[i].Some?)
    ensures Sampled(rows[i..], top - i) == []
  {
  }

  /** The loop of get_geometry_type over the rows of the sampling query, in
      order, a null value ending it like the end of the result set. */
  method GetGeometryType(connected: bool, geometryColumn: string, rowLimit: int, rows: seq<Option<string>>, ignoreCase: bool)
    returns (result: Option<GeometryKind>)
    ensures result == GeometryTypeOf(connected, geometryColumn, rowLimit, rows, ignoreCase)
  {
    result := None;
    if connected && geometryColumn != [] {
      var top := SampleSize(rowLimit);
      var prev: Option<GeometryKind> := None;
      var i := 0;
      ghost var goal := Remaining(rows, i, top, prev, ignoreCase);
      assert rows[i..] == rows;
      while i < |rows| && i < top && rows[i].Some?
        invariant 0 <= i <= |rows|
        invariant result == prev
        invariant goal == Remaining(rows, i, top, prev, ignoreCase)
        decreases |rows| - i
      {
        var stop;
        result, stop := SampleRow(rows, i, top, prev, ignoreCase);
        if stop {
          return;
        }
        prev := result;
        i := i + 1;
      }
      SampledStop(rows, i, top);
    }
  }

  /** The body of that loop for row i: the kind of its value, and whether
      an unmatched value or a change of kind ends the loop with Collection. */
  method SampleRow(rows: seq<Option<string>>, i: nat, top: int, prev: Option<GeometryKind>, ignoreCase: bool)
    returns (result: Option<GeometryKind>, stop: bool)
    requires i < |rows| && i < top && rows[i].Some?
    ensures stop ==> result == Remaining(rows, i, top, prev, ignoreCase)
    ensures !stop ==> Remaining(rows, i, top, prev, ignoreCase) == Remaining(rows, i + 1, top, result, ignoreCase)
  {
    SampledStep(rows, i, top);
    var data := rows[i].value;
    var kind := Classify(data, ignoreCase);
    if kind.None? {
      return Some(Collection), true;
    }
    result := kind;
    if prev.Some? && kind != prev {
      return Some(Collection), true;
    }
    stop := false;
  }

  // ---------------------------------------------------------------------
  // STGeometryType() names.

  /** The values STGeometryType() returns. */
  const TYPE_NAMES: seq<string> := ["Point", "LineString", "Polygon", "MultiPoint", "MultiLineString", "MultiPolygon",
                                    "GeometryCollection", "CircularString", "CompoundCurve", "CurvePolygon", "FullGlobe"]

  /** Reference: the kind each name is meant to give; None for the names
      that are a collection, a curve or the full globe. */
  function IntendedKind(name: string): Option<GeometryKind>
  {
    if name == "Point" || name == "MultiPoint" then Some(Point)
    else if name == "LineString" || name == "MultiLineString" then Some(LineString)
    else if name == "Polygon" || name == "MultiPolygon" || name == "CurvePolygon" then Some(Polygon)
    else None
  }

  lemma ClassifyPoint()
    ensures ClassifyText("Point") == None
  {
    ContainsHasChar("Point", "line", 'l');
    ContainsHasChar("Point", "point", 'p');
    ContainsHasChar("Point", "polygon", 'p');
  }

  lemma ClassifyLowerPoint()
    ensures ClassifyText("point") == Some(Point)
  {
    ContainsHasChar("point", "line", 'l');
    assert MatchAt("point", "point", 0);
  }

  lemma ClassifyPointIgnoringCase()
    ensures Classify("Point", true) == IntendedKind("Point") == Some(Point)
  {
    assert Lower("Point") == "point";
    ClassifyLowerPoint();
  }

  lemma ClassifyLineString()
    ensures ClassifyText("LineString") == None
  {
    ContainsHasChar("LineString", "line", 'l');
    ContainsHasChar("LineString", "point", 'p');
    ContainsHasChar("LineString", "polygon", 'p');
  }

  lemma ClassifyLowerLineString()
    ensures ClassifyText("linestring") == Some(LineString)
  {
    assert MatchAt("linestring", "line", 0);
  }

  lemma ClassifyLineStringIgnoringCase()
    ensures Classify("LineString", true) == IntendedKind("LineString") == Some(LineString)
  {
    assert Lower("LineString") == "linestring";
    ClassifyLowerLineString();
  }

  lemma ClassifyPolygon()
    ensures ClassifyText("Polygon") == None
  {
    ContainsHasChar("Polygon", "line", 'i');
    ContainsHasChar("Polygon", "point", 'p');
    ContainsHasChar("Polygon", "polygon", 'p');
  }

  lemma ClassifyLowerPolygon()
    ensures ClassifyText("polygon") == Some(Polygon)
  {
    ContainsHasChar("polygon", "line", 'i');
    ContainsHasChar("polygon", "point", 'i');
    assert MatchAt("polygon", "polygon", 0);
  }

  lemma ClassifyPolygonIgnoringCase()
    ensures Classify("Polygon", true) == IntendedKind("Polygon") == Some(Polygon)
  {
    assert Lower("Polygon") == "polygon";
    ClassifyLowerPolygon();
  }

  lemma ClassifyMultiPoint()
    ensures ClassifyText("MultiPoint") == None
  {
    ContainsHasChar("MultiPoint", "line", 'e');
    ContainsHasChar("MultiPoint", "point", 'p');
    ContainsHasChar("MultiPoint", "polygon", 'p');
  }

  lemma ClassifyLowerMultiPoint()
    ensures ClassifyText("multipoint") == Some(Point)
  {
    ContainsHasChar("multipoint", "line", 'e');
    assert MatchAt("multipoint", "point", 5);
  }

  lemma ClassifyMultiPointIgnoringCase()
    ensures Classify("MultiPoint", true) == IntendedKind("MultiPoint") == Some(Point)
  {
    assert Lower("MultiPoint") == "multipoint";
    ClassifyLowerMultiPoint();
  }

  lemma ClassifyMultiLineString()
    ensures ClassifyText("MultiLineString") == None
  {
    ContainsHasPair("MultiLineString", "line", 0, 1);
    assert forall k :: !PairAt("MultiLineString", "line", 0, 1, k);
    ContainsHasChar("MultiLineString", "point", 'p');
    ContainsHasChar("MultiLineString", "polygon", 'p');
  }

  lemma ClassifyLowerMultiLineString()
    ensures ClassifyText("multilinestring") == Some(LineString)
  {
    assert MatchAt("multilinestring", "line", 5);
  }

  lemma ClassifyMultiLineStringIgnoringCase()
    ensures Classify("MultiLineString", true) == IntendedKind("MultiLineString") == Some(LineString)
  {
    assert Lower("MultiLineString") == "multilinestring";
    ClassifyLowerMultiLineString();
  }

  lemma ClassifyMultiPolygon()
    ensures ClassifyText("MultiPolygon") == None
  {
    ContainsHasChar("MultiPolygon", "line", 'e');
    ContainsHasChar("MultiPolygon", "point", 'p');
    ContainsHasChar("MultiPolygon", "polygon", 'p');
  }

  lemma ClassifyLowerMultiPolygon()
    ensures ClassifyText("multipolygon") == Some(Polygon)
  {
    ContainsHasChar("multipolygon", "line", 'e');
    ContainsHasPair("multipolygon", "point", 0, 2);
    assert forall k :: !PairAt("multipolygon", "point", 0, 2, k);
    assert MatchAt("multipolygon", "polygon", 5);
  }

  lemma ClassifyMultiPolygonIgnoringCase()
    ensures Classify("MultiPolygon", true) == IntendedKind("MultiPolygon") == Some(Polygon)
  {
    assert Lower("MultiPolygon") == "multipolygon";
    ClassifyLowerMultiPolygon();
  }

  lemma ClassifyGeometryCollection()
    ensures ClassifyText("GeometryCollection") == None
  {
    ContainsHasPair("GeometryCollection", "line", 0, 1);
    assert forall k :: !PairAt("GeometryCollection", "line", 0, 1, k);
    ContainsHasChar("GeometryCollection", "point", 'p');
    ContainsHasChar("GeometryCollection", "polygon", 'p');
  }

  lemma ClassifyLowerGeometryCollection()
    ensures ClassifyText("geometrycollection") == None
  {
    ContainsHasPair("geometrycollection", "line", 0, 1);
    assert forall k :: !PairAt("geometrycollection", "line", 0, 1, k);
    ContainsHasChar("geometrycollection", "point", 'p');
    ContainsHasChar("geometrycollection", "polygon", 'p');
  }

  lemma ClassifyGeometryCollectionIgnoringCase()
    ensures Classify("GeometryCollection", true) == IntendedKind("GeometryCollection") == None
  {
    assert Lower("GeometryCollection") == "geometrycollection";
    ClassifyLowerGeometryCollection();
  }

  lemma ClassifyCircularString()
    ensures ClassifyText("CircularString") == None
  {
    ContainsHasChar("CircularString", "line", 'e');
    ContainsHasChar("CircularString", "point", 'p');
    ContainsHasChar("CircularString", "polygon", 'p');
  }

  lemma ClassifyLowerCircularString()
    ensures ClassifyText("circularstring") == None
  {
    ContainsHasChar("circularstring", "line", 'e');
    ContainsHasChar("circularstring", "point", 'p');
    ContainsHasChar("circularstring", "polygon", 'p');
  }

  lemma ClassifyCircularStringIgnoringCase()
    ensures Classify("CircularString", true) == IntendedKind("CircularString") == None
  {
    assert Lower("CircularString") == "circularstring";
    ClassifyLowerCircularString();
  }

  lemma ClassifyCompoundCurve()
    ensures ClassifyText("CompoundCurve") == None
  {
    ContainsHasChar("CompoundCurve", "line", 'l');
    ContainsHasChar("CompoundCurve", "point", 'i');
    ContainsHasChar("CompoundCurve", "polygon", 'l');
  }

  lemma ClassifyLowerCompoundCurve()
    ensures ClassifyText("compoundcurve") == None
  {
    ContainsHasChar("compoundcurve", "line", 'l');
    ContainsHasChar("compoundcurve", "point", 'i');
    ContainsHasChar("compoundcurve", "polygon", 'l');
  }

  lemma ClassifyCompoundCurveIgnoringCase()
    ensures Classify("CompoundCurve", true) == IntendedKind("CompoundCurve") == None
  {
    assert Lower("CompoundCurve") == "compoundcurve";
    ClassifyLowerCompoundCurve();
  }

  lemma ClassifyCurvePolygon()
    ensures ClassifyText("CurvePolygon") == None
  {
    ContainsHasChar("CurvePolygon", "line", 'i');
    ContainsHasChar("CurvePolygon", "point", 'p');
    ContainsHasChar("CurvePolygon", "polygon", 'p');
  }

  lemma ClassifyLowerCurvePolygon()
    ensures ClassifyText("curvepolygon") == Some(Polygon)
  {
    ContainsHasChar("curvepolygon", "line", 'i');
    ContainsHasChar("curvepolygon", "point", 'i');
    assert MatchAt("curvepolygon", "polygon", 5);
  }

  lemma ClassifyCurvePolygonIgnoringCase()
    ensures Classify("CurvePolygon", true) == IntendedKind("CurvePolygon") == Some(Polygon)
  {
    assert Lower("CurvePolygon") == "curvepolygon";
    ClassifyLowerCurvePolygon();
  }

  lemma ClassifyFullGlobe()
    ensures ClassifyText("FullGlobe") == None
  {
    ContainsHasChar("FullGlobe", "line", 'i');
    ContainsHasChar("FullGlobe", "point", 'p');
    ContainsHasChar("FullGlobe", "polygon", 'p');
  }

  lemma ClassifyLowerFullGlobe()
    ensures ClassifyText("fullglobe") == None
  {
    ContainsHasChar("fullglobe", "line", 'i');
    ContainsHasChar("fullglobe", "point", 'p');
    ContainsHasChar("fullglobe", "polygon", 'p');
  }

  lemma ClassifyFullGlobeIgnoringCase()
    ensures Classify("FullGlobe", true) == IntendedKind("FullGlobe") == None
  {
    assert Lower("FullGlobe") == "fullglobe";
    ClassifyLowerFullGlobe();
  }

  /** As written no name matches: each is tested case-sensitively against
      lower-case words it holds only capitalised. */
  lemma NamesAsWritten()
    ensures forall name :: name in TYPE_NAMES ==> Classify(name, false) == None
  {
    ClassifyPoint();
    ClassifyLineString();
    ClassifyPolygon();
    ClassifyMultiPoint();
    ClassifyMultiLineString();
    ClassifyMultiPolygon();
    ClassifyGeometryCollection();
    ClassifyCircularString();
    ClassifyCompoundCurve();
    ClassifyCurvePolygon();
    ClassifyFullGlobe();
  }

  /** With case-insensitive tests every name gets its intended kind. */
  lemma NamesIgnoringCase()
    ensures forall name :: name in TYPE_NAMES ==> Classify(name, true) == IntendedKind(name)
  {
    ClassifyPointIgnoringCase();
    ClassifyLineStringIgnoringCase();
    ClassifyPolygonIgnoringCase();
    ClassifyMultiPointIgnoringCase();
    ClassifyMultiLineStringIgnoringCase();
    ClassifyMultiPolygonIgnoringCase();
    ClassifyGeometryCollectionIgnoringCase();
    ClassifyCircularStringIgnoringCase();
    ClassifyCompoundCurveIgnoringCase();
    ClassifyCurvePolygonIgnoringCase();
    ClassifyFullGlobeIgnoringCase();
  }

  /** As written any non-empty sample of real values gives Collection. */
  lemma AsWrittenNamesAreCollection(rows: seq<string>)
    requires rows != [] && forall i :: 0 <= i < |rows| ==> rows[i] in TYPE_NAMES
    ensures Fold(rows, None, false) == Some(Collection)
  {
    NamesAsWritten();
    assert rows[0] in TYPE_NAMES;
  }

  /** A table of points: as written get_geometry_type answers Collection,
      with case-insensitive tests Point. */
  lemma PointSample()
    ensures GeometryTypeOf(true, "geom", 0, [Some("Point"), Some("Point")], false) == Some(Collection)
    ensures GeometryTypeOf(true, "geom", 0, [Some("Point"), Some("Point")], true) == Some(Point)
  {
    ClassifyPoint();
    ClassifyPointIgnoringCase();
    var rows := [Some("Point"), Some("Point")];
    assert Sampled(rows, 5) == ["Point", "Point"] by {
      assert rows[1..] == [Some("Point")];
      assert rows[1..][1..] == [];
    }
    FoldMeaning(["Point", "Point"], true);
  }

  /** With case-insensitive tests, a sample whose names all mean the same
      kind gives that kind. */
  lemma NamesOfOneKind(rows: seq<string>, kind: GeometryKind)
    requires rows != []
    requires forall i :: 0 <= i < |rows| ==> rows[i] in TYPE_NAMES && IntendedKind(rows[i]) == Some(kind)
    ensures Fold(rows, None, true) == Some(kind)
  {
    NamesIgnoringCase();
    FoldMeaning(rows, true);
    assert rows[0] in TYPE_NAMES;
  }

  /** With case-insensitive tests, a sample holding a name of no kind, or
      two names of different kinds, gives Collection. */
  lemma NamesOfMixedKinds(rows: seq<string>, i: nat, j: nat)
    requires forall k :: 0 <= k < |rows| ==> rows[k] in TYPE_NAMES
    requires i < |rows| && j < |rows|
    requires IntendedKind(rows[i]).None? || IntendedKind(rows[i]) != IntendedKind(rows[j])
    ensures Fold(rows, None, true) == Some(Collection)
  {
    NamesIgnoringCase();
    FoldMeaning(rows, true);
    assert rows[0] in TYPE_NAMES && rows[i] in TYPE_NAMES && rows[j] in TYPE_NAMES;
  }
}
