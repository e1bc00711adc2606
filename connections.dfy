/** ConnectionCreator and ConnectionManager: how the plugin builds the ODBC
    connection string from its parameters, the key its connection pools are
    filed under, and the registry of pools keyed by that string. */
module Connections {
  import opened Wrappers
  import opened Bytes

  /** The eight optional parameters a creator is built from. The datasource
      passes each as given in the map (None when the parameter is missing),
      except connect_timeout, which defaults to "4". */
  datatype Creator = Creator(
    connectionString: Option<string>,
    driver: Option<string>,
    host: Option<string>,
    port: Option<string>,
    dbname: Option<string>,
    user: Option<string>,
    pass: Option<string>,
    connectTimeout: Option<string>)

  /** The test `opt && !opt->empty()`: given and not empty. */
  predicate Present(o: Option<string>)
  {
    o.Some? && o.value != []
  }

  /** The text a parameter contributes: `KEY=value;`, or nothing. */
  function Clause(key: string, o: Option<string>): string
  {
    if Present(o) then key + "=" + o.value + ";" else ""
  }

  /** connection_string_safe(): a non-empty connection_string verbatim;
      otherwise one `KEY=value;` clause per non-empty parameter, in the
      fixed order DRIVER, SERVER, port, DATABASE, UID, connect_timeout.
      The password is never part of it. */
  function ConnectionStringSafe(c: Creator): string
  {
    if Present(c.connectionString) then c.connectionString.value
    else
      Clause("DRIVER", c.driver) + Clause("SERVER", c.host) + Clause("port", c.port)
      + Clause("DATABASE", c.dbname) + Clause("UID", c.user)
      + Clause("connect_timeout", c.connectTimeout)
  }

  /** The password with the emptiness test of connection_string(): the
      empty string when none is given or it is empty. */
  function PassOf(o: Option<string>): string
  {
    if Present(o) then o.value else ""
  }

  /** What connection_string() appends: PWD=<password>, without a
      trailing ';', for a non-empty password. */
  function PasswordSuffix(o: Option<string>): string
  {
    if Present(o) then "PWD=" + o.value else ""
  }

  /** connection_string(): the safe string followed by the password. */
  function ConnectionString(c: Creator): string
  {
    ConnectionStringSafe(c) + PasswordSuffix(c.pass)
  }

  /** id(): the key of the creator's pool is its full connection string. */
  function Id(c: Creator): string
  {
    ConnectionString(c)
  }

  /** The arguments operator() hands to the Connection constructor. */
  datatype ConnectArgs = ConnectArgs(connectionString: string, password: Option<string>)

  /** operator(): a new connection opened with the safe string and the
      password kept apart. */
  function Open(c: Creator): (a: ConnectArgs)
    ensures a.password == c.pass
    ensures Present(c.connectionString) ==> a.connectionString == c.connectionString.value
  {
    ConnectArgs(ConnectionStringSafe(c), c.pass)
  }

  /** The pool key is recovered from what the connection receives: the
      string it is opened with and the password it is given separately. */
  lemma IdFromOpenArgs(c: Creator)
    ensures Id(c) == Open(c).connectionString + PasswordSuffix(Open(c).password)
  {
  }

  /** A non-empty connection_string is used verbatim and every other
      parameter except the password is ignored. */
  lemma ConnectionStringWins(c: Creator, d: Creator)
    requires Present(c.connectionString) && d.connectionString == c.connectionString
    ensures ConnectionStringSafe(c) == c.connectionString.value
    ensures ConnectionStringSafe(d) == ConnectionStringSafe(c)
    ensures d.pass == c.pass ==> Id(d) == Id(c)
  {
  }

  // ---------------------------------------------------------------------
  // A reference reading of the parameter branch: the list of settings
  // that are given, rendered one `KEY=value;` after another.

  datatype Setting = Setting(key: string, value: string)

  /** The settings that are given, in the order they are written. */
  function Settings(c: Creator): (r: seq<Setting>)
    ensures forall k :: 0 <= k < |r| ==> r[k].value != []
  {
    Keep("DRIVER", c.driver) + Keep("SERVER", c.host) + Keep("port", c.port)
      + Keep("DATABASE", c.dbname) + Keep("UID", c.user)
      + Keep("connect_timeout", c.connectTimeout)
  }

  function Keep(key: string, o: Option<string>): seq<Setting>
  {
    if Present(o) then [Setting(key, o.value)] else []
  }

  /** Each setting written as key=value; in turn. */
  function Render(s: seq<Setting>): string
  {
    if s == [] then "" else s[0].key + "=" + s[0].value + ";" + Render(s[1..])
  }

  lemma {:induction false} RenderAppend(a: seq<Setting>, b: seq<Setting>)
    ensures Render(a + b) == Render(a) + Render(b)
    decreases |a|
  {
    if a != [] {
      assert (a + b)[0] == a[0];
      assert (a + b)[1..] == a[1..] + b;
      RenderAppend(a[1..], b);
      var head := a[0].key + "=" + a[0].value + ";";
      assert a + b != [];
      assert Render(a + b) == head + Render(a[1..] + b);
      assert Render(a) == head + Render(a[1..]);
      assert head + (Render(a[1..]) + Render(b)) == (head + Render(a[1..])) + Render(b);
    } else {
      assert a + b == b;
    }
  }

  /** One more setting kept or dropped: its clause is appended. */
  lemma RenderKeepAppend(prefix: seq<Setting>, key: string, o: Option<string>)
    ensures Render(prefix + Keep(key, o)) == Render(prefix) + Clause(key, o)
  {
    RenderAppend(prefix, Keep(key, o));
    if Present(o) {
      assert Keep(key, o)[1..] == [];
      assert Render(Keep(key, o)) == key + "=" + o.value + ";" + "";
    }
  }

  /** Without a connection_string the safe string is exactly the given
      settings rendered in order. */
  lemma SafeStringRendersSettings(c: Creator)
    requires !Present(c.connectionString)
    ensures ConnectionStringSafe(c) == Render(Settings(c))
  {
    var k1, k2, k3 := Keep("DRIVER", c.driver), Keep("SERVER", c.host), Keep("port", c.port);
    var k4, k5, k6 := Keep("DATABASE", c.dbname), Keep("UID", c.user), Keep("connect_timeout", c.connectTimeout);
    var t1, t2, t3 := Clause("DRIVER", c.driver), Clause("SERVER", c.host), Clause("port", c.port);
    var t4, t5, t6 := Clause("DATABASE", c.dbname), Clause("UID", c.user), Clause("connect_timeout", c.connectTimeout);
    RenderKeepAppend([], "DRIVER", c.driver);
    assert [] + k1 == k1;
    assert Render(k1) == t1;
    RenderKeepAppend(k1, "SERVER", c.host);
    assert Render(k1 + k2) == t1 + t2;
    RenderKeepAppend(k1 + k2, "port", c.port);
    assert Render(k1 + k2 + k3) == t1 + t2 + t3;
    RenderKeepAppend(k1 + k2 + k3, "DATABASE", c.dbname);
    assert Render(k1 + k2 + k3 + k4) == t1 + t2 + t3 + t4;
    RenderKeepAppend(k1 + k2 + k3 + k4, "UID", c.user);
    assert Render(k1 + k2 + k3 + k4 + k5) == t1 + t2 + t3 + t4 + t5;
    RenderKeepAppend(k1 + k2 + k3 + k4 + k5, "connect_timeout", c.connectTimeout);
    assert Render(k1 + k2 + k3 + k4 + k5 + k6) == t1 + t2 + t3 + t4 + t5 + t6;
    assert Settings(c) == k1 + k2 + k3 + k4 + k5 + k6;
    assert ConnectionStringSafe(c) == t1 + t2 + t3 + t4 + t5 + t6;
  }

  /** A parameter that is missing and one that is empty give the same
      string. */
  lemma EmptyIsMissing(c: Creator)
    ensures ConnectionStringSafe(c.(host := Some(""))) == ConnectionStringSafe(c.(host := None))
    ensures Id(c.(pass := Some(""))) == Id(c.(pass := None))
  {
  }

  /** Two creators that differ only in the password share a pool exactly
      when their passwords are the same after the emptiness test. */
  lemma IdPasswordIff(c: Creator, p1: Option<string>, p2: Option<string>)
    ensures Id(c.(pass := p1)) == Id(c.(pass := p2)) <==> PassOf(p1) == PassOf(p2)
  {
    var s := ConnectionStringSafe(c);
    assert ConnectionStringSafe(c.(pass := p1)) == s;
    assert ConnectionStringSafe(c.(pass := p2)) == s;
    if Id(c.(pass := p1)) == Id(c.(pass := p2)) {
      var a, b := PasswordSuffix(p1), PasswordSuffix(p2);
      assert s + a == s + b;
      assert a == (s + a)[|s|..];
      assert b == (s + b)[|s|..];
      if Present(p1) && Present(p2) {
        assert p1.value == a[4..];
        assert p2.value == b[4..];
      }
    }
  }

  // ---------------------------------------------------------------------
  // The conflict warning of connection_string_safe() (a finding).

  /** The five parameters the conflict test looks at, in its order. */
  function ConflictFields(c: Creator): seq<Option<string>>
  {
    [c.driver, c.host, c.port, c.dbname, c.user]
  }

  /** `!f0->empty() || !f1->empty() || ...` as written: evaluated left to
      right, stopping at the first non-empty value; dereferencing a field
      that was not given is undefined behaviour, None here. */
  function OrNonEmpty(fs: seq<Option<string>>): Option<bool>
  {
    if fs == [] then Some(false)
    else if fs[0].None? then None
    else if fs[0].value != [] then Some(true)
    else OrNonEmpty(fs[1..])
  }

  /** The test of the connection_string branch as written. */
  function ConflictCheck(c: Creator): Option<bool>
  {
    OrNonEmpty(ConflictFields(c))
  }

  /** The evidently intended test: some of driver, host, port, dbname and
      user is given and not empty. */
  predicate ConflictWarning(c: Creator)
  {
    exists k :: 0 <= k < |ConflictFields(c)| && Present(ConflictFields(c)[k])
  }

  /** Whether a conflict is logged, as written: only in the
      connection_string branch, and undefined when the test is. */
  function LogsConflictAsWritten(c: Creator): Option<bool>
  {
    if Present(c.connectionString) then ConflictCheck(c) else Some(false)
  }

  /** Whether a conflict is logged, as intended. */
  predicate LogsConflict(c: Creator)
  {
    Present(c.connectionString) && ConflictWarning(c)
  }

  lemma {:induction false} OrNonEmptyMeaning(fs: seq<Option<string>>)
    ensures OrNonEmpty(fs).Some? ==> (OrNonEmpty(fs).value <==> exists k :: 0 <= k < |fs| && Present(fs[k]))
    ensures (forall k :: 0 <= k < |fs| ==> fs[k].Some?) ==> OrNonEmpty(fs).Some?
    decreases |fs|
  {
    if fs != [] {
      OrNonEmptyMeaning(fs[1..]);
      if fs[0].Some? && fs[0].value == [] {
        if exists k :: 0 <= k < |fs| && Present(fs[k]) {
          var k :| 0 <= k < |fs| && Present(fs[k]);
          assert fs[1..][k - 1] == fs[k];
        }
        if exists k :: 0 <= k < |fs[1..]| && Present(fs[1..][k]) {
          var k :| 0 <= k < |fs[1..]| && Present(fs[1..][k]);
          assert fs[k + 1] == fs[1..][k];
        }
      }
      if fs[0].Some? && fs[0].value != [] {
        assert Present(fs[0]);
      }
    }
  }

  /** Where the test as written is defined, it agrees with the intended one;
      it is defined whenever all five parameters are given. */
  lemma ConflictCheckAgrees(c: Creator)
    ensures ConflictCheck(c).Some? ==> ConflictCheck(c).value == ConflictWarning(c)
    ensures c.driver.Some? && c.host.Some? && c.port.Some? && c.dbname.Some? && c.user.Some?
            ==> ConflictCheck(c).Some?
    ensures LogsConflictAsWritten(c).Some? ==> LogsConflictAsWritten(c).value == LogsConflict(c)
  {
    OrNonEmptyMeaning(ConflictFields(c));
  }

  /** The creator built from a map that gives only a connection_string
      (connect_timeout defaults to "4"). */
  function OnlyConnectionString(cs: string): Creator
  {
    Creator(Some(cs), None, None, None, None, None, None, Some("4"))
  }

  /** Giving only a non-empty connection_string dereferences the missing
      driver parameter: the test as written is undefined there, while the
      intended test simply logs nothing. */
  lemma ConflictCheckUndefinedForConnectionStringAlone(cs: string)
    requires cs != []
    ensures LogsConflictAsWritten(OnlyConnectionString(cs)) == None
    ensures !LogsConflict(OnlyConnectionString(cs))
  {
    var c := OnlyConnectionString(cs);
    assert ConflictFields(c)[0].None?;
    assert forall k :: 0 <= k < |ConflictFields(c)| ==> ConflictFields(c)[k] == None;
  }

  // ---------------------------------------------------------------------
  // ConnectionManager: the registry of pools.

  /** A pool, reduced to the creator it opens connections with and its two
      sizes. */
  datatype Pool = Pool(creator: Creator, initialSize: UInt32, maxSize: UInt32)

  /** The two setters registerPool calls on an existing pool; mapnik's
      Pool only ever raises its sizes, so each keeps the larger of the old
      and the new size. */
  function Resized(p: Pool, initialSize: UInt32, maxSize: UInt32): Pool
  {
    p.(initialSize := Max(p.initialSize, initialSize), maxSize := Max(p.maxSize, maxSize))
  }

  /** registerPool() on the map of pools: an existing pool under the
      creator's id is resized and the call answers false; otherwise a new
      pool is inserted and the call answers true. */
  function Register(pools: map<string, Pool>, creator: Creator, initialSize: UInt32, maxSize: UInt32): (r: (map<string, Pool>, bool))
    ensures r.0.Keys == pools.Keys + {Id(creator)}
    ensures r.1 <==> Id(creator) !in pools
    ensures Id(creator) !in pools ==> r.0[Id(creator)] == Pool(creator, initialSize, maxSize)
    ensures Id(creator) in pools ==>
              && r.0[Id(creator)].creator == pools[Id(creator)].creator
              && r.0[Id(creator)].initialSize == Max(pools[Id(creator)].initialSize, initialSize)
              && r.0[Id(creator)].maxSize == Max(pools[Id(creator)].maxSize, maxSize)
    ensures forall k :: k in pools && k != Id(creator) ==> r.0[k] == pools[k]
  {
    var id := Id(creator);
    if id in pools then (pools[id := Resized(pools[id], initialSize, maxSize)], false)
    else (pools[id := Pool(creator, initialSize, maxSize)], true)
  }

  /** getPool() on the map of pools: the pool filed under key, or the empty
      pointer. */
  function Lookup(pools: map<string, Pool>, key: string): (r: Option<Pool>)
    ensures r.Some? <==> key in pools
    ensures r.Some? ==> r.value == pools[key]
  {
    if key in pools then Some(pools[key]) else None
  }

  /** Every pool is filed under the id of the creator it was made with. */
  predicate FiledById(pools: map<string, Pool>)
  {
    forall k :: k in pools ==> Id(pools[k].creator) == k
  }

  /** Registering keeps every pool filed under its creator's id, and the
      pool found afterwards under the creator's id opens connections with
      the same string and password and is at least as large as asked: the
      sizes just given for a new pool, the larger of the old and the new
      sizes for an existing one. */
  lemma RegisterThenLookup(pools: map<string, Pool>, creator: Creator, initialSize: UInt32, maxSize: UInt32)
    requires FiledById(pools)
    ensures FiledById(Register(pools, creator, initialSize, maxSize).0)
    ensures var p := Lookup(Register(pools, creator, initialSize, maxSize).0, Id(creator));
            && p.Some? && Id(p.value.creator) == Id(creator)
            && p.value.initialSize >= initialSize && p.value.maxSize >= maxSize
            && (Id(creator) !in pools ==> p.value.initialSize == initialSize && p.value.maxSize == maxSize)
  {
  }

  /** Registering never shrinks a pool: every pool is at least as large
      afterwards, and registering the same creator with the same sizes
      again changes nothing. */
  lemma RegisterNeverShrinks(pools: map<string, Pool>, creator: Creator, initialSize: UInt32, maxSize: UInt32)
    ensures var r := Register(pools, creator, initialSize, maxSize).0;
            forall k :: k in pools ==> r[k].initialSize >= pools[k].initialSize && r[k].maxSize >= pools[k].maxSize
    ensures var r := Register(pools, creator, initialSize, maxSize).0;
            Register(r, creator, initialSize, maxSize) == (r, false)
  {
    var id := Id(creator);
    var r := Register(pools, creator, initialSize, maxSize).0;
    assert r[id := Resized(r[id], initialSize, maxSize)] == r;
  }

  /** Registering the same creator twice inserts once: the second call
      answers false, changes no key and only raises the sizes, so that a
      new pool ends with the larger of the two sizes given. */
  lemma RegisterTwice(pools: map<string, Pool>, creator: Creator, i1: UInt32, m1: UInt32, i2: UInt32, m2: UInt32)
    ensures var (p1, b1) := Register(pools, creator, i1, m1);
            var (p2, b2) := Register(p1, creator, i2, m2);
            && !b2 && p2.Keys == p1.Keys
            && p2[Id(creator)] == p1[Id(creator)].(initialSize := Max(p1[Id(creator)].initialSize, i2), maxSize := Max(p1[Id(creator)].maxSize, m2))
            && (Id(creator) !in pools ==> p2[Id(creator)] == Pool(creator, Max(i1, i2), Max(m1, m2)))
  {
  }

  /** Two creators that differ outside the connection string and password
      share a pool: registering the second one after the first keeps the
      first creator and only raises the sizes to the second one's. */
  lemma RegisterKeepsFirstCreator(pools: map<string, Pool>, c: Creator, d: Creator, i1: UInt32, m1: UInt32, i2: UInt32, m2: UInt32)
    requires Present(c.connectionString) && d.connectionString == c.connectionString && d.pass == c.pass
    ensures var (p1, _) := Register(pools, c, i1, m1);
            var (p2, b2) := Register(p1, d, i2, m2);
            !b2 && p2[Id(d)].creator == p1[Id(c)].creator
            && (Id(c) !in pools ==> p2[Id(d)] == Pool(c, Max(i1, i2), Max(m1, m2)))
  {
    ConnectionStringWins(c, d);
  }

  /** The registry as the class the singleton holds. */
  class ConnectionManager {
    var pools: map<string, Pool>

    ghost predicate Valid()
      reads this
    {
      FiledById(pools)
    }

    constructor()
      ensures Valid() && pools == map[]
    {
      pools := map[];
    }

    /** registerPool(creator, initialSize, maxSize). */
    method RegisterPool(creator: Creator, initialSize: UInt32, maxSize: UInt32) returns (inserted: bool)
      requires Valid()
      modifies this
      ensures Valid()
      ensures (pools, inserted) == Register(old(pools), creator, initialSize, maxSize)
    {
      var id := Id(creator);
      if id in pools {
        var pool := pools[id];
        pool := pool.(initialSize := Max(pool.initialSize, initialSize));
        pool := pool.(maxSize := Max(pool.maxSize, maxSize));
        pools := pools[id := pool];
        inserted := false;
      } else {
        pools := pools[id := Pool(creator, initialSize, maxSize)];
        inserted := true;
      }
      RegisterThenLookup(old(pools), creator, initialSize, maxSize);
    }

    /** getPool(key). */
    method GetPool(key: string) returns (pool: Option<Pool>)
      ensures pool == Lookup(pools, key)
    {
      if key in pools {
        pool := Some(pools[key]);
      } else {
        pool := None;
      }
    }
  }
}
