/** The prepared-statement cache of pg2json/stmtcache.go, and its agreement with the statements
    that exist on the server's backends over any run of a client. */
module Statements {
  import opened Bytes
  import opened Rows

  type Sql = string
  type Name = string

  datatype Prepared = Prepared(name: Name, plan: Plan, formats: seq<int>)

  // The fields of stmtCache; counter (seq) counts the names generated.
  datatype Cache = Cache(max: int, byKey: map<Sql, Prepared>, closed: seq<Name>, counter: nat)

  // ---- Names ----

  function Digit36(d: nat): char
    requires d < 36
  {
    if d < 10 then '0' + d as char else 'a' + (d - 10) as char
  }

  function Base36(n: nat): string
  {
    if n < 36 then [Digit36(n)] else Base36(n / 36) + [Digit36(n % 36)]
  }

  function NameOf(n: nat): Name { "s_" + Base36(n) }

  lemma {:induction false} Base36Injective(m: nat, n: nat)
    requires Base36(m) == Base36(n)
    ensures m == n
  {
    var s := Base36(m);
    assert s[|s| - 1] == Digit36(m % 36) == Digit36(n % 36);
    Base36NonEmpty(m / 36);
    Base36NonEmpty(n / 36);
    if m >= 36 {
      assert n >= 36;
      assert s[..|s| - 1] == Base36(m / 36) == Base36(n / 36);
      Base36Injective(m / 36, n / 36);
    }
  }

  lemma Base36NonEmpty(n: nat)
    ensures |Base36(n)| > 0
  {
  }

  /** Distinct counters give distinct names. */
  lemma NamesDistinct(m: nat, n: nat)
    ensures NameOf(m) == NameOf(n) <==> m == n
  {
    if NameOf(m) == NameOf(n) {
      assert NameOf(m)[2..] == Base36(m) && NameOf(n)[2..] == Base36(n);
      Base36Injective(m, n);
    }
  }

  // ---- Operations on cache values ----

  function NewCache(max: int): Cache { Cache(if max <= 0 then 64 else max, map[], [], 0) }

  // The key that put throws out: any one, and only when the cache is full.
  predicate Evicts(c: Cache, victim: Option<Sql>)
  {
    if |c.byKey| >= c.max && c.byKey != map[] then victim.Some? && victim.value in c.byKey else victim.None?
  }

  function DropKey(c: Cache, sql: Sql): Cache
  {
    if sql in c.byKey then c.(closed := c.closed + [c.byKey[sql].name], byKey := c.byKey - {sql}) else c
  }

  function PutWith(c: Cache, sql: Sql, st: Prepared, victim: Option<Sql>): Cache
  {
    var room := if victim.Some? then DropKey(c, victim.value) else c;
    room.(byKey := room.byKey[sql := st])
  }

  class StmtCache {
    const max: int
    var byKey: map<Sql, Prepared>
    var closed: seq<Name>
    var counter: nat

    ghost function Value(): Cache
      reads this
    {
      Cache(max, byKey, closed, counter)
    }

    constructor (max: int)
      ensures Value() == NewCache(max)
    {
      this.max := if max <= 0 then 64 else max;
      byKey, closed, counter := map[], [], 0;
    }

    method Get(sql: Sql) returns (st: Option<Prepared>)
      ensures st == if sql in byKey then Some(byKey[sql]) else None
    {
      if sql in byKey { return Some(byKey[sql]); }
      st := None;
    }

    method Put(sql: Sql, st: Prepared) returns (ghost victim: Option<Sql>)
      modifies this
      ensures Evicts(old(Value()), victim)
      ensures Value() == PutWith(old(Value()), sql, st, victim)
    {
      victim := None;
      if |byKey| >= max && byKey != map[] {
        var k :| k in byKey;
        closed := closed + [byKey[k].name];
        byKey := byKey - {k};
        victim := Some(k);
      }
      byKey := byKey[sql := st];
    }

    method TakePendingClose() returns (names: seq<Name>)
      modifies this
      ensures names == old(closed) && Value() == old(Value()).(closed := [])
    {
      names := closed;
      closed := [];
    }

    method NextName() returns (name: Name)
      modifies this
      ensures Value() == old(Value()).(counter := old(counter) + 1) && name == NameOf(counter)
    {
      counter := counter + 1;
      name := NameOf(counter);
    }

    method Invalidate(sql: Sql)
      modifies this
      ensures Value() == DropKey(old(Value()), sql) && sql !in byKey
    {
      if sql in byKey {
        closed := closed + [byKey[sql].name];
        byKey := byKey - {sql};
      }
    }
  }

  // ---- The client and the backends it is routed to ----

  /** parsed records every Parse the client sent, put every statement it cached, and handed every
      name it has named in a Close; they only grow. */
  datatype World = World(
    cache: Cache,
    parsed: map<Name, Sql>,
    put: set<Name>,
    handed: set<Name>,
    backends: map<nat, map<Name, Sql>>,
    current: nat)

  datatype Action =
    // Served from the cache; the server runs whatever it holds under that name, or reports 26000.
    | Hit(sql: Sql)
    // prepareAndDescribe, then put. served: the backend processed the batch; accepted: it took
    // the Parse; ok: the client saw it succeed.
    | Miss(sql: Sql, plan: Plan, formats: seq<int>, served: bool, accepted: bool, ok: bool, victim: Option<Sql>)
    | Invalidate(sql: Sql)
    // The pooler switches backend, or a backend drops a statement.
    | Rotate(backend: nat)
    | Forget(name: Name)

  function Init(max: int): World { World(NewCache(max), map[], {}, {}, map[], 0) }

  function OnServer(w: World): map<Name, Sql>
  {
    if w.current in w.backends then w.backends[w.current] else map[]
  }

  predicate Enabled(w: World, a: Action)
  {
    match a
    case Hit(sql) => sql in w.cache.byKey
    case Miss(sql, _, _, served, accepted, ok, victim) =>
      sql !in w.cache.byKey && (ok ==> served && accepted && Evicts(w.cache, victim))
    case _ => true
  }

  // nextName, takePendingClose and, on success, put.
  function MissCache(c: Cache, name: Name, a: Action): Cache
    requires a.Miss?
  {
    var sent := c.(counter := c.counter + 1, closed := []);
    if a.ok then PutWith(sent, a.sql, Prepared(name, a.plan, a.formats), a.victim) else sent
  }

  // The backend closes what it is told to close, then takes the Parse.
  function MissBackend(open: map<Name, Sql>, closes: seq<Name>, name: Name, sql: Sql, accepted: bool): map<Name, Sql>
  {
    var left := open - SetOf(closes);
    if accepted then left[name := sql] else left
  }

  function Next(w: World, a: Action): World
    requires Enabled(w, a)
  {
    match a
    case Hit(_) => w
    case Miss(sql, plan, formats, served, accepted, ok, victim) =>
      var name := NameOf(w.cache.counter + 1);
      World(
        MissCache(w.cache, name, a),
        w.parsed[name := sql],
        if ok then w.put + {name} else w.put,
        w.handed + SetOf(w.cache.closed),
        if served then w.backends[w.current := MissBackend(OnServer(w), w.cache.closed, name, sql, accepted)] else w.backends,
        w.current)
    case Invalidate(sql) => w.(cache := DropKey(w.cache, sql))
    case Rotate(backend) => w.(current := backend)
    case Forget(name) => w.(backends := w.backends[w.current := OnServer(w) - {name}])
  }

  function SetOf(names: seq<Name>): set<Name> { set n | n in names }

  // Which name each SQL is cached under.
  function Names(byKey: map<Sql, Prepared>): map<Sql, Name> { map k | k in byKey :: byKey[k].name }

  function CachedNames(c: Cache): set<Name> { Names(c.byKey).Values }

  predicate NoRepeats(names: seq<Name>)
  {
    forall i, j :: 0 <= i < j < |names| ==> names[i] != names[j]
  }

  // ---- Invariant ----

  // Every name was generated by this client from an earlier counter value.
  ghost predicate NamesKnown(parsed: map<Name, Sql>, counter: nat)
  {
    forall n :: n in parsed ==> exists i :: 1 <= i <= counter && n == NameOf(i)
  }

  // Names cached, pending and handed out are disjoint, none twice, and are all the names put.
  ghost predicate Split(cached: map<Sql, Name>, closed: seq<Name>, put: set<Name>, handed: set<Name>)
  {
    && (forall j, k :: j in cached && k in cached && j != k ==> cached[j] != cached[k])
    && NoRepeats(closed)
    && (forall k :: k in cached ==> cached[k] !in closed && cached[k] !in handed && cached[k] in put)
    && (forall n :: n in closed ==> n !in handed && n in put)
    && handed <= put
    && (forall n :: n in put && n !in closed && n !in handed ==> n in cached.Values)
  }

  ghost predicate FromOwnKey(cached: map<Sql, Name>, parsed: map<Name, Sql>)
  {
    forall k :: k in cached ==> cached[k] in parsed && parsed[cached[k]] == k
  }

  ghost predicate OnlyOurs(backends: map<nat, map<Name, Sql>>, parsed: map<Name, Sql>)
  {
    forall b, n :: b in backends && n in backends[b] ==> n in parsed && backends[b][n] == parsed[n]
  }

  ghost predicate Inv(w: World)
  {
    && w.cache.max > 0 && |w.cache.byKey| <= w.cache.max
    && NamesKnown(w.parsed, w.cache.counter)
    && w.put <= w.parsed.Keys
    && Split(Names(w.cache.byKey), w.cache.closed, w.put, w.handed)
    && FromOwnKey(Names(w.cache.byKey), w.parsed)
    && OnlyOurs(w.backends, w.parsed)
  }

  lemma NewNameUnknown(parsed: map<Name, Sql>, counter: nat)
    requires NamesKnown(parsed, counter)
    ensures NameOf(counter + 1) !in parsed
  {
    forall i | 1 <= i <= counter ensures NameOf(i) != NameOf(counter + 1) { NamesDistinct(i, counter + 1); }
  }

  lemma DropSplit(cached: map<Sql, Name>, closed: seq<Name>, sql: Sql, put: set<Name>, handed: set<Name>)
    requires Split(cached, closed, put, handed) && sql in cached
    ensures Split(cached - {sql}, closed + [cached[sql]], put, handed)
  {
    forall n | n in put && n !in closed + [cached[sql]] && n !in handed ensures n in (cached - {sql}).Values {
      var k :| k in cached && cached[k] == n;
      assert (cached - {sql})[k] == n;
    }
  }

  lemma AddSplit(cached: map<Sql, Name>, closed: seq<Name>, sql: Sql, name: Name, put: set<Name>, handed: set<Name>)
    requires Split(cached, closed, put, handed) && sql !in cached && name !in put
    ensures Split(cached[sql := name], closed, put + {name}, handed)
  {
    var more := cached[sql := name];
    assert more[sql] == name;
    forall n | n in put && n !in closed && n !in handed ensures n in more.Values {
      var k :| k in cached && cached[k] == n;
      assert more[k] == n;
    }
  }

  lemma DropNames(c: Cache, sql: Sql)
    requires sql in c.byKey
    ensures Names(DropKey(c, sql).byKey) == Names(c.byKey) - {sql}
    ensures |DropKey(c, sql).byKey| == |c.byKey| - 1
  {
    var d := c.byKey - {sql};
    assert c.byKey.Keys == d.Keys + {sql};
    assert |c.byKey| == |c.byKey.Keys| && |d| == |d.Keys|;
  }

  lemma AddNames(byKey: map<Sql, Prepared>, sql: Sql, st: Prepared)
    requires sql !in byKey
    ensures Names(byKey[sql := st]) == Names(byKey)[sql := st.name]
    ensures |byKey[sql := st]| == |byKey| + 1
  {
    var d := byKey[sql := st];
    assert d.Keys == byKey.Keys + {sql};
    assert |byKey| == |byKey.Keys| && |d| == |d.Keys|;
  }

  lemma PutKeeps(c: Cache, sql: Sql, st: Prepared, victim: Option<Sql>, put: set<Name>, handed: set<Name>)
    requires Split(Names(c.byKey), c.closed, put, handed) && sql !in c.byKey && st.name !in put
    requires 0 < c.max && |c.byKey| <= c.max && Evicts(c, victim)
    ensures var d := PutWith(c, sql, st, victim);
            && Split(Names(d.byKey), d.closed, put + {st.name}, handed)
            && |d.byKey| <= c.max
            && forall k :: k in d.byKey ==> (k == sql && d.byKey[k] == st) || (k in c.byKey && d.byKey[k] == c.byKey[k])
  {
    var room := if victim.Some? then DropKey(c, victim.value) else c;
    assert sql !in room.byKey;
    AddNames(room.byKey, sql, st);
    if victim.Some? {
      DropNames(c, victim.value);
      hide Names, DropKey;
      DropSplit(Names(c.byKey), c.closed, victim.value, put, handed);
    }
    hide Names, DropKey, Split;
    AddSplit(Names(room.byKey), room.closed, sql, st.name, put, handed);
  }

  lemma ServedOnlyOurs(backends: map<nat, map<Name, Sql>>, parsed: map<Name, Sql>, current: nat, after: map<Name, Sql>, name: Name, sql: Sql)
    requires OnlyOurs(backends, parsed) && name !in parsed
    requires forall n :: n in after ==> (n == name && after[n] == sql) || (current in backends && n in backends[current] && after[n] == backends[current][n])
    ensures OnlyOurs(backends, parsed[name := sql])
    ensures OnlyOurs(backends[current := after], parsed[name := sql])
  {
  }

  // Handing the pending names out.
  lemma SendSplit(cached: map<Sql, Name>, closed: seq<Name>, put: set<Name>, handed: set<Name>)
    requires Split(cached, closed, put, handed)
    ensures Split(cached, [], put, handed + SetOf(closed))
  {
  }

  lemma OwnKeys(before: map<Sql, Prepared>, after: map<Sql, Prepared>, parsed: map<Name, Sql>, name: Name, sql: Sql)
    requires FromOwnKey(Names(before), parsed) && name !in parsed
    requires forall k :: k in after ==> (k == sql && after[k].name == name) || (k in before && after[k] == before[k])
    ensures FromOwnKey(Names(after), parsed[name := sql])
  {
    forall k | k in after ensures after[k].name in parsed[name := sql] && parsed[name := sql][after[k].name] == k {
      if k in before { assert Names(before)[k] in parsed; }
    }
  }

  lemma MissCacheKeeps(c: Cache, name: Name, a: Action, put: set<Name>, handed: set<Name>, parsed: map<Name, Sql>)
    requires a.Miss? && a.sql !in c.byKey && (a.ok ==> Evicts(c, a.victim))
    requires 0 < c.max && |c.byKey| <= c.max && Split(Names(c.byKey), c.closed, put, handed)
    requires name !in put && name !in parsed && FromOwnKey(Names(c.byKey), parsed)
    ensures var d := MissCache(c, name, a);
            && d.max == c.max && |d.byKey| <= d.max && d.counter == c.counter + 1
            && Split(Names(d.byKey), d.closed, if a.ok then put + {name} else put, handed + SetOf(c.closed))
            && FromOwnKey(Names(d.byKey), parsed[name := a.sql])
  {
    var sent := c.(counter := c.counter + 1, closed := []);
    SendSplit(Names(c.byKey), c.closed, put, handed);
    OwnKeys(c.byKey, c.byKey, parsed, name, a.sql);
    hide Split, SetOf, Names, FromOwnKey;
    if a.ok {
      OwnKeys(c.byKey, MissCache(c, name, a).byKey, parsed, name, a.sql);
      PutKeeps(sent, a.sql, Prepared(name, a.plan, a.formats), a.victim, put, handed + SetOf(c.closed));
    }
  }

  lemma MissKeepsInv(w: World, a: Action)
    requires Inv(w) && Enabled(w, a) && a.Miss?
    ensures Inv(Next(w, a))
  {
    var name := NameOf(w.cache.counter + 1);
    NewNameUnknown(w.parsed, w.cache.counter);
    KnownGrows(w.parsed, w.cache.counter, a.sql);
    MissCacheKeeps(w.cache, name, a, w.put, w.handed, w.parsed);
    var after := MissBackend(OnServer(w), w.cache.closed, name, a.sql, a.accepted);
    ServedOnlyOurs(w.backends, w.parsed, w.current, after, name, a.sql);
    hide NameOf, OnlyOurs, NamesKnown, MissCache, MissBackend, Split, FromOwnKey, SetOf, Names, Evicts;
  }

  lemma KnownGrows(parsed: map<Name, Sql>, counter: nat, sql: Sql)
    requires NamesKnown(parsed, counter)
    ensures NamesKnown(parsed[NameOf(counter + 1) := sql], counter + 1)
  {
    hide NameOf;
  }

  lemma StepKeepsInv(w: World, a: Action)
    requires Inv(w) && Enabled(w, a)
    ensures Inv(Next(w, a))
  {
    match a
    case Miss(_, _, _, _, _, _, _) => MissKeepsInv(w, a);
    case Invalidate(sql) =>
      if sql in w.cache.byKey {
        DropNames(w.cache, sql);
        hide NamesKnown, OnlyOurs, NoRepeats;
        DropSplit(Names(w.cache.byKey), w.cache.closed, sql, w.put, w.handed);
      }
    case Forget(name) => ForgetKeeps(w.backends, w.current, name, w.parsed);
    case _ =>
  }

  lemma ForgetKeeps(backends: map<nat, map<Name, Sql>>, current: nat, name: Name, parsed: map<Name, Sql>)
    requires OnlyOurs(backends, parsed)
    ensures OnlyOurs(backends[current := (if current in backends then backends[current] else map[]) - {name}], parsed)
  {
  }

  // ---- Whole runs ----

  // The world after the actions, or None when one was not enabled.
  function RunFrom(w: World, run: seq<Action>): Option<World>
    decreases |run|
  {
    if run == [] then Some(w)
    else if !Enabled(w, run[0]) then None
    else RunFrom(Next(w, run[0]), run[1..])
  }

  lemma {:induction false} RunKeepsInv(w: World, run: seq<Action>)
    requires Inv(w) && RunFrom(w, run).Some?
    ensures Inv(RunFrom(w, run).value)
    decreases |run|
  {
    if run != [] {
      StepKeepsInv(w, run[0]);
      RunKeepsInv(Next(w, run[0]), run[1..]);
    }
  }

  /** After any run: the cache holds at most max statements; names put are exactly the cached,
      the pending and the handed-out ones, and those are disjoint; so no Close, sent or pending,
      names a cached statement; and on every backend a cached name is absent or holds the SQL it
      is cached under. */
  lemma CacheAgreesWithServer(max: int, run: seq<Action>)
    requires RunFrom(Init(max), run).Some?
    ensures var w := RunFrom(Init(max), run).value;
            && |w.cache.byKey| <= (if max <= 0 then 64 else max)
            && w.put == CachedNames(w.cache) + SetOf(w.cache.closed) + w.handed
            && CachedNames(w.cache) !! SetOf(w.cache.closed) !! w.handed
            && NoRepeats(w.cache.closed)
            && |CachedNames(w.cache)| == |w.cache.byKey|
            && forall sql, b :: sql in w.cache.byKey && b in w.backends && w.cache.byKey[sql].name in w.backends[b] ==>
                                  w.backends[b][w.cache.byKey[sql].name] == sql
  {
    var w := RunFrom(Init(max), run).value;
    RunKeepsInv(Init(max), run);
    MaxFixed(Init(max), run);
    hide RunFrom;
    InvMeans(w);
  }

  lemma InvMeans(w: World)
    requires Inv(w)
    ensures w.put == CachedNames(w.cache) + SetOf(w.cache.closed) + w.handed
    ensures CachedNames(w.cache) !! SetOf(w.cache.closed) !! w.handed
    ensures NoRepeats(w.cache.closed) && |CachedNames(w.cache)| == |w.cache.byKey| <= w.cache.max
    ensures forall sql, b :: sql in w.cache.byKey && b in w.backends && w.cache.byKey[sql].name in w.backends[b] ==>
                               w.backends[b][w.cache.byKey[sql].name] == sql
  {
    var cached := Names(w.cache.byKey);
    assert cached.Keys == w.cache.byKey.Keys && |cached| == |cached.Keys| && |w.cache.byKey| == |w.cache.byKey.Keys|;
    hide NamesKnown, OnlyOurs;
    CachedCount(cached);
    SplitMeans(cached, w.cache.closed, w.put, w.handed);
    OwnSql(w);
    hide Names, Split, FromOwnKey, SetOf;
  }

  lemma SplitMeans(cached: map<Sql, Name>, closed: seq<Name>, put: set<Name>, handed: set<Name>)
    requires Split(cached, closed, put, handed)
    ensures put == cached.Values + SetOf(closed) + handed
    ensures cached.Values !! SetOf(closed) !! handed
  {
    forall n | n in cached.Values ensures n in put && n !in SetOf(closed) && n !in handed {
      var k :| k in cached && cached[k] == n;
    }
    assert forall n :: n in put ==> n in cached.Values || n in closed || n in handed;
  }

  lemma OwnSql(w: World)
    requires FromOwnKey(Names(w.cache.byKey), w.parsed) && OnlyOurs(w.backends, w.parsed)
    ensures forall sql, b :: sql in w.cache.byKey && b in w.backends && w.cache.byKey[sql].name in w.backends[b] ==>
                               w.backends[b][w.cache.byKey[sql].name] == sql
  {
    var cached := Names(w.cache.byKey);
    forall sql | sql in w.cache.byKey ensures w.cache.byKey[sql].name in w.parsed && w.parsed[w.cache.byKey[sql].name] == sql {
      assert cached[sql] in w.parsed;
    }
    hide FromOwnKey, Names;
  }

  lemma {:induction false} MaxFixed(w: World, run: seq<Action>)
    requires RunFrom(w, run).Some?
    ensures RunFrom(w, run).value.cache.max == w.cache.max
    decreases |run|
  {
    if run != [] { MaxFixed(Next(w, run[0]), run[1..]); }
  }

  lemma {:induction false} CachedCount(cached: map<Sql, Name>)
    requires forall j, k :: j in cached && k in cached && j != k ==> cached[j] != cached[k]
    ensures |cached.Values| == |cached|
    decreases |cached|
  {
    if cached != map[] {
      var k :| k in cached;
      var d := cached - {k};
      assert cached.Keys == d.Keys + {k};
      assert |cached| == |cached.Keys| && |d| == |d.Keys|;
      CachedCount(d);
      assert cached.Values == d.Values + {cached[k]} by {
        forall n | n in cached.Values ensures n in d.Values + {cached[k]} {
          var j :| j in cached && cached[j] == n;
          assert j != k ==> d[j] == n;
        }
      }
      assert cached[k] !in d.Values;
    }
  }

  /** A Parse after any run uses a name never sent before, so no backend can refuse it as a
      duplicate; and after a successful put the statement is cached under it, whatever was evicted. */
  lemma ParseNameIsNew(max: int, run: seq<Action>, a: Action)
    requires RunFrom(Init(max), run).Some? && a.Miss?
    requires Enabled(RunFrom(Init(max), run).value, a)
    ensures var w := RunFrom(Init(max), run).value;
            var v := Next(w, a);
            var name := NameOf(w.cache.counter + 1);
            && name !in w.parsed && v.parsed == w.parsed[name := a.sql]
            && (forall b :: b in w.backends ==> name !in w.backends[b])
            && (a.ok ==> a.sql in v.cache.byKey && v.cache.byKey[a.sql].name == name)
            && (a.ok ==> name in OnServer(v) && OnServer(v)[name] == a.sql)
  {
    var w := RunFrom(Init(max), run).value;
    RunKeepsInv(Init(max), run);
    hide *;
    MissIsNew(w, a);
  }

  lemma MissIsNew(w: World, a: Action)
    requires Inv(w) && a.Miss? && Enabled(w, a)
    ensures var v := Next(w, a);
            var name := NameOf(w.cache.counter + 1);
            && name !in w.parsed && v.parsed == w.parsed[name := a.sql]
            && (forall b :: b in w.backends ==> name !in w.backends[b])
            && (a.ok ==> a.sql in v.cache.byKey && v.cache.byKey[a.sql].name == name)
            && (a.ok ==> name in OnServer(v) && OnServer(v)[name] == a.sql)
  {
    NewNameUnknown(w.parsed, w.cache.counter);
    hide NameOf, Names, Split, NamesKnown, SetOf, FromOwnKey, DropKey;
  }

  /** A cache hit binds its own statement: the current backend runs the SQL asked for, or does
      not know the name and answers 26000. */
  lemma HitRunsItsOwnSql(max: int, run: seq<Action>, sql: Sql)
    requires RunFrom(Init(max), run).Some? && Enabled(RunFrom(Init(max), run).value, Hit(sql))
    ensures var w := RunFrom(Init(max), run).value;
            var name := w.cache.byKey[sql].name;
            name in OnServer(w) ==> OnServer(w)[name] == sql
  {
    CacheAgreesWithServer(max, run);
  }

  /** What was handed out for Close stays out: no name is ever closed twice or cached again. */
  lemma {:induction false} ClosedForGood(w: World, run: seq<Action>)
    requires Inv(w) && RunFrom(w, run).Some?
    ensures var v := RunFrom(w, run).value;
            w.handed <= v.handed && w.handed !! CachedNames(v.cache) && w.handed !! SetOf(v.cache.closed)
    decreases |run|
  {
    if run != [] {
      StepKeepsInv(w, run[0]);
      ClosedForGood(Next(w, run[0]), run[1..]);
    }
  }

  // ---- Statements left behind on a backend ----

  ghost predicate Cached(c: Cache, n: Name) { exists k :: k in c.byKey && c.byKey[k].name == n }

  // The client still knows the name: it is cached, or waits for its Close.
  ghost predicate Known(c: Cache, n: Name) { Cached(c, n) || n in c.closed }

  // Every statement on a backend is one the client can still close.
  ghost predicate NoOrphans(w: World)
  {
    forall b, n :: b in w.backends && n in w.backends[b] ==> Known(w.cache, n)
  }

  // A step that loses track of a statement: a Parse was accepted but the client saw a failure, or
  // a Close goes to a backend other than the one that holds the statement, or does not arrive.
  ghost predicate Orphans(w: World, a: Action)
  {
    a.Miss? &&
    ((a.served && a.accepted && !a.ok) ||
     exists b, n :: b in w.backends && n in w.backends[b] && n in w.cache.closed && !(a.served && b == w.current))
  }

  lemma KnownAfterDrop(c: Cache, sql: Sql, n: Name)
    ensures Known(DropKey(c, sql), n) <==> Known(c, n)
  {
    var d := DropKey(c, sql);
    if Cached(c, n) {
      var k :| k in c.byKey && c.byKey[k].name == n;
      assert k != sql ==> k in d.byKey && d.byKey[k].name == n;
    }
  }

  lemma KnownAfterPut(c: Cache, sql: Sql, st: Prepared, victim: Option<Sql>, n: Name)
    requires sql !in c.byKey
    ensures Known(PutWith(c, sql, st, victim), n) <==> Known(c, n) || n == st.name
  {
    var room := if victim.Some? then DropKey(c, victim.value) else c;
    if victim.Some? { KnownAfterDrop(c, victim.value, n); }
    assert sql !in room.byKey;
    var d := PutWith(c, sql, st, victim);
    assert d.byKey == room.byKey[sql := st] && d.closed == room.closed;
    hide PutWith, DropKey;
    assert d.byKey[sql].name == st.name;
    if Cached(room, n) {
      var k :| k in room.byKey && room.byKey[k].name == n;
      assert d.byKey[k].name == n;
    }
    if Cached(d, n) {
      var k :| k in d.byKey && d.byKey[k].name == n;
      assert k != sql ==> room.byKey[k].name == n;
    }
  }

  // A miss keeps what is cached, adds its own statement if it succeeds, and hands the rest out.
  lemma KnownAfterMiss(c: Cache, name: Name, a: Action, n: Name)
    requires a.Miss? && a.sql !in c.byKey
    ensures Known(MissCache(c, name, a), n) <==> Cached(c, n) || (a.ok && n == name)
  {
    var sent := c.(counter := c.counter + 1, closed := []);
    assert Known(sent, n) <==> Cached(c, n);
    if a.ok { KnownAfterPut(sent, a.sql, Prepared(name, a.plan, a.formats), a.victim, n); }
    hide PutWith, Known, Cached;
  }

  lemma MissOrphans(w: World, a: Action)
    requires Inv(w) && NoOrphans(w) && Enabled(w, a) && a.Miss?
    ensures NoOrphans(Next(w, a)) <==> !Orphans(w, a)
  {
    var v, name := Next(w, a), NameOf(w.cache.counter + 1);
    NewNameUnknown(w.parsed, w.cache.counter);
    forall n ensures Known(v.cache, n) <==> Cached(w.cache, n) || (a.ok && n == name) { KnownAfterMiss(w.cache, name, a, n); }
    ClosedNotCached(w);
    hide NameOf, MissCache, Split, NamesKnown, FromOwnKey, Evicts, Names;
    if Orphans(w, a) {
      if a.served && a.accepted && !a.ok {
        assert name in v.backends[w.current];
        CachedParsed(w, name);
      } else {
        var b, n :| b in w.backends && n in w.backends[b] && n in w.cache.closed && !(a.served && b == w.current);
        assert b in v.backends && n in v.backends[b];
        assert n != name;
      }
    } else {
      NoneLost(w, a, v, name);
    }
  }

  lemma NoneLost(w: World, a: Action, v: World, name: Name)
    requires a.Miss? && !Orphans(w, a) && NoOrphans(w) && OnlyOurs(w.backends, w.parsed) && name !in w.parsed
    requires v.backends == if a.served then w.backends[w.current := MissBackend(OnServer(w), w.cache.closed, name, a.sql, a.accepted)] else w.backends
    requires forall n :: Known(v.cache, n) <==> Cached(w.cache, n) || (a.ok && n == name)
    ensures NoOrphans(v)
  {
    forall b, n | b in v.backends && n in v.backends[b] ensures Known(v.cache, n) {
      if n == name {
        assert b in w.backends ==> n !in w.backends[b];
      } else {
        assert b in w.backends && n in w.backends[b] && Known(w.cache, n);
        assert n !in w.cache.closed;
      }
    }
  }

  lemma ClosedNotCached(w: World)
    requires Inv(w)
    ensures forall n :: n in w.cache.closed ==> !Cached(w.cache, n)
  {
    var cached := Names(w.cache.byKey);
    forall n, k | n in w.cache.closed && k in w.cache.byKey ensures w.cache.byKey[k].name != n { assert cached[k] !in w.cache.closed; }
    hide Split;
  }

  lemma CachedParsed(w: World, n: Name)
    requires Inv(w) && n !in w.parsed
    ensures !Cached(w.cache, n)
  {
    var cached := Names(w.cache.byKey);
    forall k | k in w.cache.byKey ensures w.cache.byKey[k].name != n { assert cached[k] in w.parsed; }
  }

  lemma OrphanStep(w: World, a: Action)
    requires Inv(w) && NoOrphans(w) && Enabled(w, a)
    ensures NoOrphans(Next(w, a)) <==> !Orphans(w, a)
  {
    match a
    case Miss(_, _, _, _, _, _, _) => MissOrphans(w, a);
    case Invalidate(sql) =>
      forall n ensures Known(DropKey(w.cache, sql), n) <==> Known(w.cache, n) { KnownAfterDrop(w.cache, sql, n); }
      hide Known, DropKey, Inv;
    case _ => hide Known, Inv;
  }

  // The world after the first i actions.
  ghost function Before(max: int, run: seq<Action>, i: nat): World
    requires i <= |run| && RunFrom(Init(max), run).Some?
  {
    RunPrefix(Init(max), run, i);
    RunFrom(Init(max), run[..i]).value
  }

  lemma {:induction false} RunPrefix(w: World, run: seq<Action>, i: nat)
    requires i <= |run| && RunFrom(w, run).Some?
    ensures RunFrom(w, run[..i]).Some?
    ensures i < |run| ==> RunFrom(w, run[..i + 1]).Some? && Enabled(RunFrom(w, run[..i]).value, run[i])
                          && RunFrom(w, run[..i + 1]).value == Next(RunFrom(w, run[..i]).value, run[i])
    decreases |run|
  {
    hide Enabled, Next;
    if i == 0 {
      if run != [] { assert run[..1][0] == run[0] && run[..1][1..] == []; }
    } else {
      RunPrefix(Next(w, run[0]), run[1..], i - 1);
      assert run[..i][1..] == run[1..][..i - 1];
      if i < |run| { assert run[..i + 1][1..] == run[1..][..i]; }
    }
  }

  /** Over a whole run, every statement on every backend can still be closed by the client, at
      every moment, exactly when no step loses track of one. */
  lemma NoOrphansExact(max: int, run: seq<Action>)
    requires RunFrom(Init(max), run).Some?
    ensures (forall i :: 0 <= i <= |run| ==> NoOrphans(Before(max, run, i))) <==>
            (forall i :: 0 <= i < |run| ==> !Orphans(Before(max, run, i), run[i]))
  {
    hide NoOrphans, Orphans, Next, Enabled, RunFrom;
    if forall i :: 0 <= i < |run| ==> !Orphans(Before(max, run, i), run[i]) {
      forall i | 0 <= i <= |run| ensures NoOrphans(Before(max, run, i)) { OrphanFree(max, run, i); }
    } else if forall i :: 0 <= i <= |run| ==> NoOrphans(Before(max, run, i)) {
      var i :| 0 <= i < |run| && Orphans(Before(max, run, i), run[i]);
      RunPrefix(Init(max), run, i);
      BeforeInv(max, run, i);
      OrphanStep(Before(max, run, i), run[i]);
      assert NoOrphans(Before(max, run, i + 1));
    }
  }

  lemma BeforeInv(max: int, run: seq<Action>, i: nat)
    requires RunFrom(Init(max), run).Some? && i <= |run|
    ensures Inv(Before(max, run, i))
  {
    RunPrefix(Init(max), run, i);
    RunKeepsInv(Init(max), run[..i]);
  }

  lemma {:induction false} OrphanFree(max: int, run: seq<Action>, i: nat)
    requires RunFrom(Init(max), run).Some? && i <= |run|
    requires forall k :: 0 <= k < |run| ==> !Orphans(Before(max, run, k), run[k])
    ensures NoOrphans(Before(max, run, i))
  {
    hide Orphans, Next, Enabled;
    if i == 0 {
      assert run[..0] == [];
    } else {
      OrphanFree(max, run, i - 1);
      RunPrefix(Init(max), run, i - 1);
      BeforeInv(max, run, i - 1);
      hide NoOrphans, RunFrom;
      OrphanStep(Before(max, run, i - 1), run[i - 1]);
    }
  }

  // Accepted by rejectNonSelect and by the server, which describes it by NoData.
  const UNDESCRIBED: Action := Miss("select 1 into t", [], [], true, true, false, None)

  /** And one may: a statement without rows is parsed and described, the client answers that it
      got no row description, and the name stays on a connection that lives on. */
  lemma UndescribedOrphans()
    ensures RunFrom(Init(1), [UNDESCRIBED]).Some? && !NoOrphans(RunFrom(Init(1), [UNDESCRIBED]).value)
  {
    var w := Init(1);
    var v := Next(w, UNDESCRIBED);
    assert [UNDESCRIBED][1..] == [];
    assert NameOf(1) in v.backends[0];
    assert v.cache.byKey == map[] && v.cache.closed == [];
    assert !Known(v.cache, NameOf(1));
  }
}
