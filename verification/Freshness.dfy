/** How old an answer can be: runs of table edits, compilations and deliveries, and queries on what is held. */
module Freshness {
  import opened Options
  import opened Snapshots
  import opened Signature
  import opened Policy
  import opened Index
  import opened Caching
  import opened Database
  import opened Compiler
  import opened Versions
  import opened Pipeline
  import GoCache
  import RustCache

  // ---------- A controller, and one connector ----------

  datatype Connector = Go | Rust(platform: Platform)

  datatype Setting = Setting(
    c: Controller, mac: (Bytes, Bytes) -> Bytes, render: Json -> Bytes, connector: Connector, grace: nat)

  function ConfigOf(s: Setting): Config {
    match s.connector
    case Go => Config(GoScheme(s.mac, s.render), s.c.platform, GoCache.PortMatches, s.grace)
    case Rust(p) => Config(RustScheme(s.mac, s.render), p, RustCache.PortMatches, s.grace)
  }

  predicate Reads(s: Setting, snap: Snapshot) {
    s.connector.Rust? ==> RustCache.Decodes(snap)
  }

  ghost predicate Sane(s: Setting) {
    && s.c.scheme == GoScheme(s.mac, s.render) && KeepsTypeNames(s.c.platform)
    && (forall key :: InjectiveMac(s.mac, key)) && InjectiveRender(s.render)
    && (s.connector.Rust? ==> GoCache.Alike(s.c.platform, s.connector.platform))
  }

  // ---------- Runs ----------

  datatype Event =
    | Edit(db: Db)                                         // the tables change, in any way
    | Compile(connector: string, key: Bytes, now: int)     // the controller compiles, for any of its connectors
    | Deliver(now: int, snap: Snapshot)                    // a message arrives, perhaps late, again or made up
    | Rekey(key: Bytes)                                    // the connector is given a key

  datatype World = World(db: Db, rows: Rows, cache: Caching.State)

  function Step(s: Setting, w: World, e: Event): World {
    match e
    case Edit(db) => w.(db := db)
    case Compile(connector, _, now) => w.(rows := NextRows(s.c, w.db, w.rows, connector, now))
    case Deliver(now, snap) =>
      if Reads(s, snap) then w.(cache := Caching.Step(ConfigOf(s), w.cache, Arrive(now, snap))) else w
    case Rekey(key) => w.(cache := Caching.Step(ConfigOf(s), w.cache, SetKey(key)))
  }

  function Run(s: Setting, db: Db, key: Bytes, events: seq<Event>): World {
    if events == [] then World(db, map[], Caching.State(key, CLEARED))
    else Step(s, Run(s, db, key, events[..|events| - 1]), events[|events| - 1])
  }

  /** The world in which the k-th event happens. */
  function Before(s: Setting, db: Db, key: Bytes, events: seq<Event>, k: nat): World
    requires k < |events|
  {
    Run(s, db, key, events[..k])
  }

  /** The snapshot that the k-th event produces, if it is a compilation that succeeds. */
  function SentAt(s: Setting, db: Db, key: Bytes, events: seq<Event>, k: nat): Option<Snapshot>
    requires k < |events|
  {
    var w := Before(s, db, key, events, k);
    match events[k]
    case Compile(connector, key', now) =>
      if Compiles(s.c, w.db, connector, key') then Some(SnapshotFor(s.c, w.db, w.rows, connector, key', now)) else None
    case _ => None
  }

  // ---------- What is asked of a run ----------

  /** Some earlier compilation signed with this signature under this key. */
  ghost predicate SignedBefore(s: Setting, db: Db, key: Bytes, events: seq<Event>, n: nat, under: Bytes,
                               signature: Option<Bytes>)
    requires n <= |events|
  {
    exists k :: 0 <= k < n && SignedAt(s, db, key, events, k, under, signature)
  }

  predicate SignedAt(s: Setting, db: Db, key: Bytes, events: seq<Event>, k: nat, under: Bytes, signature: Option<Bytes>)
    requires k < |events|
  {
    && SentAt(s, db, key, events, k).Some? && events[k].Compile? && events[k].key == under
    && Provided(SentAt(s, db, key, events, k).value) == signature
  }

  /** A delivered snapshot that verifies carries a signature the controller made: nobody else can make one. */
  ghost predicate Unforged(s: Setting, db: Db, key: Bytes, events: seq<Event>, n: nat)
    requires n < |events|
  {
    var held := Before(s, db, key, events, n).cache.key;
    events[n].Deliver? && Verifies(ConfigOf(s).scheme, held, events[n].snap) ==>
      SignedBefore(s, db, key, events, n, held, Provided(events[n].snap))
  }

  /** The expiry of a compiled snapshot is not read as a later time, and the ids in it do not shadow each other. */
  predicate ReadsNoLater(s: Setting, e: Event) {
    e.Compile? ==>
      var read := ConfigOf(s).platform.parseTime(s.c.formatTime(e.now + s.c.ttl));
      read.Some? ==> read.value <= e.now + s.c.ttl
  }

  predicate IdsUnshadowed(s: Setting, w: World, e: Event) {
    e.Compile? && Compiles(s.c, w.db, e.connector, e.key) ==>
      UnshadowedIds(NetworkIds(w.db, ConnectorNetwork(w.db, e.connector).value))
  }

  ghost predicate WellBehaved(s: Setting, db: Db, key: Bytes, events: seq<Event>) {
    forall n :: 0 <= n < |events| ==>
      && Unforged(s, db, key, events, n) && ReadsNoLater(s, events[n])
      && IdsUnshadowed(s, Before(s, db, key, events, n), events[n])
  }

  // ---------- What is held was compiled ----------

  predicate GivenKey(key: Bytes, events: seq<Event>, under: Bytes) {
    under == key || Rekey(under) in events
  }

  lemma {:induction false} KeyWasGiven(s: Setting, db: Db, key: Bytes, events: seq<Event>)
    ensures GivenKey(key, events, Run(s, db, key, events).cache.key)
  {
    hide NextRows, Replaced, Reads;
    if events != [] {
      KeyWasGiven(s, db, key, events[..|events| - 1]);
    }
  }

  ghost predicate HeldFrom(s: Setting, db: Db, key: Bytes, events: seq<Event>, k: nat, held: Contents)
    requires k < |events|
  {
    SentAt(s, db, key, events, k).Some? && held == Holding(ConfigOf(s), SentAt(s, db, key, events, k).value)
    && held.validUntil.Some? && events[k].Compile? && GivenKey(key, events, events[k].key)
  }

  ghost predicate HoldsSomethingSent(s: Setting, db: Db, key: Bytes, events: seq<Event>, held: Contents) {
    held == CLEARED || exists k :: 0 <= k < |events| && HeldFrom(s, db, key, events, k, held)
  }

  lemma SentVerifies(s: Setting, db: Db, key: Bytes, events: seq<Event>, k: nat)
    requires Sane(s) && k < |events| && SentAt(s, db, key, events, k).Some?
    ensures Verifies(GoScheme(s.mac, s.render), events[k].key, SentAt(s, db, key, events, k).value)
  {
    hide Verifies, GoScheme, Compiles, SnapshotFor;
    var w, e := Before(s, db, key, events, k), events[k];
    var draft := SignedByController(s.c, w.db, w.rows, e.connector, e.key, e.now);
  }

  /** A snapshot that verifies is held as the compiled one whose signature it carries. */
  lemma DeliveredWasSent(s: Setting, db: Db, key: Bytes, events: seq<Event>, n: nat)
    requires Sane(s) && n < |events| && events[n].Deliver? && Unforged(s, db, key, events, n)
    ensures var e, w := events[n], Before(s, db, key, events, n);
            Accepted(ConfigOf(s), w.cache.key, e.now, e.snap) ==>
              exists k :: 0 <= k < n && HeldFrom(s, db, key, events, k, Holding(ConfigOf(s), e.snap))
  {
    hide SentAt, Before, Verifies, GoScheme, RustScheme, Build, Provided, KeepsTypeNames, GoCache.Alike;
    var e, w := events[n], Before(s, db, key, events, n);
    if Accepted(ConfigOf(s), w.cache.key, e.now, e.snap) {
      assert SignedBefore(s, db, key, events, n, w.cache.key, Provided(e.snap));
      var k :| 0 <= k < n && SignedAt(s, db, key, events, k, w.cache.key, Provided(e.snap));
      var sent := SentAt(s, db, key, events, k).value;
      SentVerifies(s, db, key, events, k);
      assert InjectiveMac(s.mac, w.cache.key);
      SameSignatureSameContent(s.mac, s.render, w.cache.key, ConfigOf(s).scheme, sent, e.snap);
      UnsignedHolds(ConfigOf(s), sent, e.snap);
      KeyGivenBefore(s, db, key, events, n);
      assert HeldFrom(s, db, key, events, k, Holding(ConfigOf(s), e.snap));
    }
  }

  lemma KeyGivenBefore(s: Setting, db: Db, key: Bytes, events: seq<Event>, n: nat)
    requires n < |events|
    ensures GivenKey(key, events, Before(s, db, key, events, n).cache.key)
  {
    KeyWasGiven(s, db, key, events[..n]);
  }

  lemma UnsignedHolds(c: Config, a: Snapshot, b: Snapshot)
    requires Unsigned(a) == Unsigned(b)
    ensures Holding(c, a) == Holding(c, b)
  {
    assert Unsigned(a).resources == a.resources && Unsigned(b).resources == b.resources;
    assert Unsigned(a).meta.validUntil == a.meta.validUntil && Unsigned(b).meta.validUntil == b.meta.validUntil;
  }

  lemma PrefixKeeps(s: Setting, db: Db, key: Bytes, events: seq<Event>, n: nat, held: Contents)
    requires n <= |events| && HoldsSomethingSent(s, db, key, events[..n], held)
    ensures HoldsSomethingSent(s, db, key, events, held)
  {
    hide SentAt;
    if held != CLEARED {
      var k :| 0 <= k < n && HeldFrom(s, db, key, events[..n], k, held);
      SentInPrefix(s, db, key, events, n, k);
      assert HeldFrom(s, db, key, events, k, held);
    }
  }

  lemma SentInPrefix(s: Setting, db: Db, key: Bytes, events: seq<Event>, n: nat, k: nat)
    requires k < n <= |events|
    ensures SentAt(s, db, key, events[..n], k) == SentAt(s, db, key, events, k)
    ensures Before(s, db, key, events[..n], k) == Before(s, db, key, events, k)
  {
    assert events[..n][..k] == events[..k];
  }

  lemma PrefixBehaves(s: Setting, db: Db, key: Bytes, events: seq<Event>, n: nat)
    requires n <= |events| && WellBehaved(s, db, key, events)
    ensures WellBehaved(s, db, key, events[..n])
  {
    hide SentAt, Before, Verifies, ReadsNoLater, IdsUnshadowed, Provided;
    forall i | 0 <= i < n
      ensures Unforged(s, db, key, events[..n], i) && ReadsNoLater(s, events[..n][i])
      ensures IdsUnshadowed(s, Before(s, db, key, events[..n], i), events[..n][i])
    {
      assert Unforged(s, db, key, events, i);
      SentInPrefix(s, db, key, events, n, i);
      var under := Before(s, db, key, events, i).cache.key;
      if events[i].Deliver? && Verifies(ConfigOf(s).scheme, under, events[i].snap) {
        var k :| 0 <= k < i && SignedAt(s, db, key, events, k, under, Provided(events[i].snap));
        SentInPrefix(s, db, key, events, n, k);
        assert SignedAt(s, db, key, events[..n], k, under, Provided(events[i].snap));
      }
    }
  }

  /** After any run the connector holds nothing, or exactly what some compilation of the run sent. */
  lemma {:induction false} HeldWasSent(s: Setting, db: Db, key: Bytes, events: seq<Event>)
    requires Sane(s) && WellBehaved(s, db, key, events)
    ensures HoldsSomethingSent(s, db, key, events, Run(s, db, key, events).cache.held)
  {
    hide SentAt, Sane, Unforged, Accepted, Holding, Reads, NextRows;
    if events != [] {
      var n := |events| - 1;
      var w, e := Before(s, db, key, events, n), events[n];
      PrefixBehaves(s, db, key, events, n);
      HeldWasSent(s, db, key, events[..n]);
      PrefixKeeps(s, db, key, events, n, w.cache.held);
      if e.Deliver? && Reads(s, e.snap) {
        DeliveredWasSent(s, db, key, events, n);
        if Accepted(ConfigOf(s), w.cache.key, e.now, e.snap) {
          var k :| 0 <= k < n && HeldFrom(s, db, key, events, k, Holding(ConfigOf(s), e.snap));
        }
      }
    }
  }

  // ---------- What an answer means ----------

  /** The tables let the request through, by the network of this connector. */
  ghost predicate TablesAllow(s: Setting, db: Db, connector: string, q: Request) {
    ConnectorNetwork(db, connector).Some?
    && (forall i <- NetworkIds(db, ConnectorNetwork(db, connector).value) :: db.resources[i].address.Some?)
    && MayReach(s.c.platform, db, ConnectorNetwork(db, connector).value, q)
  }

  /** Deciding from compiled resources is asking the tables, for either connector. */
  lemma IndexMeansTables(s: Setting, db: Db, connector: string, key: Bytes, q: Request)
    requires Sane(s) && Compiles(s.c, db, connector, key) && q.port < 0x1_0000
    requires UnshadowedIds(NetworkIds(db, ConnectorNetwork(db, connector).value))
    ensures var config := ConfigOf(s);
            var rs := Compiled(s.c.platform, db, ConnectorNetwork(db, connector).value).value;
            Decide(config.platform, config.ports, Build(config.platform, rs), q).allowed
            <==> TablesAllow(s, db, connector, q)
  {
    hide Compiled, Decide, Scan, Build, MayReach, GoScheme, RustScheme;
    var network := ConnectorNetwork(db, connector).value;
    var rs := Compiled(s.c.platform, db, network).value;
    CompiledForCaches(s.c.platform, db, network);
    forall r <- rs ensures GoCache.PortMatches(r, q.port) == PortOpen(r, q.port) {
      GoCache.PortMatchesExact(r);
    }
    if s.connector.Rust? {
      GoCache.CachesAgree(s.c.platform, s.connector.platform, rs, q);
    }
    RefinesScan(s.c.platform, GoCache.PortMatches, rs, q);
    ScanMeansReach(s.c.platform, db, network, q);
  }

  /** The k-th event compiles under a key the connector was given, from tables that allow, and is still in date. */
  ghost predicate AllowedBy(s: Setting, db: Db, key: Bytes, events: seq<Event>, k: nat, t: int, q: Request)
    requires k < |events|
  {
    && events[k].Compile? && GivenKey(key, events, events[k].key) && t <= events[k].now + s.c.ttl + s.grace
    && TablesAllow(s, Before(s, db, key, events, k).db, events[k].connector, q)
  }

  lemma SentMeansTables(s: Setting, db: Db, key: Bytes, events: seq<Event>, k: nat, t: int, q: Request)
    requires Sane(s) && WellBehaved(s, db, key, events) && q.port < 0x1_0000 && k < |events|
    requires SentAt(s, db, key, events, k).Some? && GivenKey(key, events, events[k].key)
    requires Answer(ConfigOf(s), Holding(ConfigOf(s), SentAt(s, db, key, events, k).value), t, q).allowed
    requires Holding(ConfigOf(s), SentAt(s, db, key, events, k).value).validUntil.Some?
    ensures AllowedBy(s, db, key, events, k, t, q)
  {
    hide Sane, Unforged, Compiled, Decide, Build, TablesAllow, Before, Compiles, UnshadowedIds, Sign;
    var w, e := Before(s, db, key, events, k), events[k];
    assert ReadsNoLater(s, e) && IdsUnshadowed(s, w, e);
    SentResources(s.c, w.db, w.rows, e.connector, e.key, e.now);
    SentExpiry(s.c, w.db, w.rows, e.connector, e.key, e.now);
    IndexMeansTables(s, w.db, e.connector, e.key, q);
  }

  lemma SentExpiry(c: Controller, db: Db, rows: Rows, connector: string, key: Bytes, now: int)
    requires Compiles(c, db, connector, key)
    ensures SnapshotFor(c, db, rows, connector, key, now).meta.validUntil == c.formatTime(now + c.ttl)
  {
    hide Compiled, Sign;
  }

  /**
   Whatever is lost, delayed, repeated or made up on the way: when a connector allows a request at time t, the
   tables allowed it at some compilation, under one of its keys, no longer before t than lifetime and grace.
   */
  lemma AllowsWithinLag(s: Setting, db: Db, key: Bytes, events: seq<Event>, t: int, q: Request)
    requires Sane(s) && WellBehaved(s, db, key, events) && q.port < 0x1_0000
    requires Answer(ConfigOf(s), Run(s, db, key, events).cache.held, t, q).allowed
    ensures exists k :: 0 <= k < |events| && AllowedBy(s, db, key, events, k, t, q)
  {
    hide Sane, WellBehaved, Run, SentAt, Holding, AllowedBy;
    var held := Run(s, db, key, events).cache.held;
    HeldWasSent(s, db, key, events);
    assert held != CLEARED;
    var k :| 0 <= k < |events| && HeldFrom(s, db, key, events, k, held);
    SentMeansTables(s, db, key, events, k, t, q);
  }

  /** Compilations under the connector's keys are for it: a key is exported per connector. */
  predicate KeysAreOwn(key: Bytes, events: seq<Event>, me: string) {
    forall k :: 0 <= k < |events| && events[k].Compile? && GivenKey(key, events, events[k].key) ==>
      events[k].connector == me
  }

  /** Where keys are its own, it was this connector's request that the tables allowed then. */
  lemma AllowsOnlyOwn(s: Setting, db: Db, key: Bytes, events: seq<Event>, me: string, t: int, q: Request)
    requires Sane(s) && WellBehaved(s, db, key, events) && KeysAreOwn(key, events, me) && q.port < 0x1_0000
    requires Answer(ConfigOf(s), Run(s, db, key, events).cache.held, t, q).allowed
    ensures exists k :: 0 <= k < |events| && events[k].Compile? && events[k].connector == me
                        && t <= events[k].now + s.c.ttl + s.grace
                        && TablesAllow(s, Before(s, db, key, events, k).db, me, q)
  {
    hide Sane, WellBehaved, Run, TablesAllow, Answer;
    AllowsWithinLag(s, db, key, events, t, q);
    var k :| 0 <= k < |events| && AllowedBy(s, db, key, events, k, t, q);
    assert events[k].connector == me;
  }

  /** From its n-th event on, no compilation under the connector's keys finds tables that allow the request. */
  ghost predicate RevokedFrom(s: Setting, db: Db, key: Bytes, events: seq<Event>, n: nat, q: Request) {
    forall k :: n <= k < |events| && events[k].Compile? && GivenKey(key, events, events[k].key) ==>
      !TablesAllow(s, Before(s, db, key, events, k).db, events[k].connector, q)
  }

  /** A revocation takes effect: after the last compilation before it, lifetime and grace are all that is left. */
  lemma RevocationTakesEffect(s: Setting, db: Db, key: Bytes, events: seq<Event>, n: nat, last: int, t: int, q: Request)
    requires Sane(s) && WellBehaved(s, db, key, events) && q.port < 0x1_0000
    requires RevokedFrom(s, db, key, events, n, q)
    requires forall k :: 0 <= k < n && k < |events| && events[k].Compile? && GivenKey(key, events, events[k].key) ==>
               events[k].now <= last
    requires t > last + s.c.ttl + s.grace
    ensures !Answer(ConfigOf(s), Run(s, db, key, events).cache.held, t, q).allowed
  {
    hide Sane, WellBehaved, Run, TablesAllow, Answer;
    if Answer(ConfigOf(s), Run(s, db, key, events).cache.held, t, q).allowed {
      AllowsWithinLag(s, db, key, events, t, q);
    }
  }

  // ---------- The bound is reached ----------

  /** The connector takes over what is compiled from these tables: always in Go, on conditions in Rust. */
  predicate Takes(s: Setting, db: Db, connector: string, key: Bytes, now: int)
    requires ConnectorNetwork(db, connector).Some?
  {
    s.connector.Rust? ==>
      && BoundsFit(db, NetworkIds(db, ConnectorNetwork(db, connector).value))
      && RustAgrees(s.c, db, connector, key, key, now)
  }

  lemma TakenAnswers(s: Setting, db: Db, rows: Rows, connector: string, key: Bytes, now: int, expiry: int,
                     arrival: int, t: int, q: Request)
    requires Sane(s) && Compiles(s.c, db, connector, key) && q.port < 0x1_0000
    requires UnshadowedIds(NetworkIds(db, ConnectorNetwork(db, connector).value))
    requires Expires(s.c, ConfigOf(s).platform, now, expiry)
    ensures var snap := SnapshotFor(s.c, db, rows, connector, key, now);
            var held := if Reads(s, snap) then Replaced(ConfigOf(s), key, arrival, snap) else CLEARED;
            Answer(ConfigOf(s), held, t, q).allowed
            <==> && Takes(s, db, connector, key, now)
                 && arrival <= expiry + s.grace && t <= expiry + s.grace && TablesAllow(s, db, connector, q)
  {
    hide Compiled, SnapshotFor, UnshadowedIds, Answer, MayReach, KeepsTypeNames, GoScheme, RustScheme, Replaced;
    hide BoundsFit, RustAgrees, GoCache.Alike, Expires, RustCache.Decodes;
    if s.connector.Go? {
      GoEndToEnd(s.c, db, rows, connector, key, s.grace, now, expiry, arrival, t, q);
    } else {
      OneKeySeparates(s.mac, key);
      DeniesWhenCleared(s, t, q);
      RustEndToEnd(s.c, s.mac, s.render, s.connector.platform, db, rows, connector, key, key, s.grace, CLEARED,
                   now, expiry, arrival, t, q);
    }
  }

  lemma DeniesWhenCleared(s: Setting, t: int, q: Request)
    ensures !Answer(ConfigOf(s), CLEARED, t, q).allowed
  {
  }

  /**
   Compile, change the tables, deliver: until expiry and grace are past, a connector that takes the snapshot over
   answers from the old tables, whatever the new ones say.
   */
  lemma LagIsReached(s: Setting, db: Db, db': Db, connector: string, key: Bytes, now: int, expiry: int, arrival: int,
                     t: int, q: Request)
    requires Sane(s) && Compiles(s.c, db, connector, key) && q.port < 0x1_0000
    requires UnshadowedIds(NetworkIds(db, ConnectorNetwork(db, connector).value))
    requires Expires(s.c, ConfigOf(s).platform, now, expiry) && expiry <= now + s.c.ttl
    ensures var events := [Compile(connector, key, now), Edit(db'),
                           Deliver(arrival, SnapshotFor(s.c, db, map[], connector, key, now))];
            && WellBehaved(s, db, key, events)
            && (Answer(ConfigOf(s), Run(s, db, key, events).cache.held, t, q).allowed
                <==> && Takes(s, db, connector, key, now)
                     && arrival <= expiry + s.grace && t <= expiry + s.grace && TablesAllow(s, db, connector, q))
  {
    hide Compiled, SnapshotFor, UnshadowedIds, Answer, MayReach, KeepsTypeNames, GoScheme, RustScheme, Replaced;
    hide Verifies, Takes, TablesAllow, Reads, GoCache.Alike;
    var snap := SnapshotFor(s.c, db, map[], connector, key, now);
    var events := [Compile(connector, key, now), Edit(db'), Deliver(arrival, snap)];
    assert events[..0] == [] && events[..1][..0] == [] && events[..2][..1] == events[..1];
    assert SentAt(s, db, key, events, 0) == Some(snap);
    assert SignedAt(s, db, key, events, 0, key, Provided(snap));
    assert Run(s, db, key, events[..0]) == World(db, map[], Caching.State(key, CLEARED));
    assert Run(s, db, key, events[..1]).cache == Caching.State(key, CLEARED);
    assert Run(s, db, key, events[..2]).cache == Caching.State(key, CLEARED);
    assert Run(s, db, key, events).cache.held
        == if Reads(s, snap) then Replaced(ConfigOf(s), key, arrival, snap) else CLEARED;
    TakenAnswers(s, db, map[], connector, key, now, expiry, arrival, t, q);
  }

  // ---------- News arrives ----------

  /** A new key, new tables, a compilation, and its delivery. */
  function News(s: Setting, rows: Rows, key: Bytes, db: Db, connector: string, now: int, arrival: int): seq<Event>
    requires Compiles(s.c, db, connector, key)
  {
    [Rekey(key), Edit(db), Compile(connector, key, now),
     Deliver(arrival, SnapshotFor(s.c, db, rows, connector, key, now))]
  }

  /** Whatever happened before, once news has arrived that the connector can read, the new tables decide. */
  lemma NewsTakesEffect(s: Setting, db0: Db, key0: Bytes, events: seq<Event>, key: Bytes, db: Db, connector: string,
                        now: int, expiry: int, arrival: int, t: int, q: Request)
    requires Sane(s) && Compiles(s.c, db, connector, key) && q.port < 0x1_0000
    requires UnshadowedIds(NetworkIds(db, ConnectorNetwork(db, connector).value))
    requires Expires(s.c, ConfigOf(s).platform, now, expiry)
    ensures var rows := Run(s, db0, key0, events).rows;
            var after := Run(s, db0, key0, events + News(s, rows, key, db, connector, now, arrival));
            && after.db == db
            && after.rows == NextRows(s.c, db, rows, connector, now)
            && (Reads(s, SnapshotFor(s.c, db, rows, connector, key, now)) ==>
                 (Answer(ConfigOf(s), after.cache.held, t, q).allowed
                  <==> && Takes(s, db, connector, key, now)
                       && arrival <= expiry + s.grace && t <= expiry + s.grace && TablesAllow(s, db, connector, q)))
  {
    hide Compiled, SnapshotFor, UnshadowedIds, Answer, MayReach, KeepsTypeNames, Replaced, ConfigOf, Run;
    hide Takes, TablesAllow, Reads, GoCache.Alike, NextRows, Expires, Sane;
    var w := Run(s, db0, key0, events);
    var snap := SnapshotFor(s.c, db, w.rows, connector, key, now);
    RunStep(s, db0, key0, events, Rekey(key));
    RunStep(s, db0, key0, events + [Rekey(key)], Edit(db));
    RunStep(s, db0, key0, events + [Rekey(key)] + [Edit(db)], Compile(connector, key, now));
    RunStep(s, db0, key0, events + [Rekey(key)] + [Edit(db)] + [Compile(connector, key, now)], Deliver(arrival, snap));
    assert events + News(s, w.rows, key, db, connector, now, arrival)
        == events + [Rekey(key)] + [Edit(db)] + [Compile(connector, key, now)] + [Deliver(arrival, snap)];
    TakenAnswers(s, db, w.rows, connector, key, now, expiry, arrival, t, q);
  }

  lemma RunStep(s: Setting, db: Db, key: Bytes, events: seq<Event>, e: Event)
    ensures Run(s, db, key, events + [e]) == Step(s, Run(s, db, key, events), e)
  {
    assert (events + [e])[..|events|] == events;
  }
}
