/** One snapshot from the controller's tables to a connector's answer. */
module Pipeline {
  import opened Literals
  import opened Options
  import opened Snapshots
  import opened Signature
  import opened Policy
  import opened Index
  import opened Caching
  import opened Database
  import opened Compiler
  import opened Versions
  import Timestamps
  import GoCache
  import RustCache

  /** What the controller takes from its libraries and configuration. */
  datatype Controller = Controller(
    platform: Platform,
    scheme: Scheme,
    hash: seq<Resource> -> string,
    formatTime: int -> string,
    ttl: int)

  function Draft(c: Controller, connector: string, version: nat, now: int, rs: seq<Resource>): Snapshot {
    Snapshot(Meta(connector, version, c.formatTime(now), c.formatTime(now + c.ttl), ""), rs)
  }

  /** The network is known, its resources compile, and there is a key to sign with. */
  predicate Compiles(c: Controller, db: Db, connector: string, key: Bytes) {
    && connector != "" && key != []
    && ConnectorNetwork(db, connector).Some?
    && Compiled(c.platform, db, ConnectorNetwork(db, connector).value).Ok?
  }

  /** The snapshot sent: exactly the compiled resources, numbered by their hash, signed as they stand. */
  function SnapshotFor(c: Controller, db: Db, rows: Rows, connector: string, key: Bytes, now: int): Snapshot
    requires Compiles(c, db, connector, key)
  {
    var rs := Compiled(c.platform, db, ConnectorNetwork(db, connector).value).value;
    var draft := Draft(c, connector, NextVersion(rows, connector, c.hash(rs)), now, rs);
    draft.WithSignature(Sign(c.scheme, key, draft).value)
  }

  /** A version is taken, and its row written, whenever the resources compile, even if signing then fails. */
  predicate Numbers(c: Controller, db: Db, connector: string) {
    && connector != ""
    && ConnectorNetwork(db, connector).Some?
    && Compiled(c.platform, db, ConnectorNetwork(db, connector).value).Ok?
  }

  /** The compilation that the version table sees. */
  function Numbered(c: Controller, db: Db, connector: string, now: int): Compilation
    requires Numbers(c, db, connector)
  {
    var rs := Compiled(c.platform, db, ConnectorNetwork(db, connector).value).value;
    Compilation(connector, c.hash(rs), c.formatTime(now))
  }

  function NextRows(c: Controller, db: Db, rows: Rows, connector: string, now: int): Rows {
    if Numbers(c, db, connector) then
      var n := Numbered(c, db, connector, now);
      rows[connector := VersionRow(NextVersion(rows, connector, n.hash), n.compiledAt, Some(n.hash))]
    else rows
  }

  /** Where each part of the meta data comes from, and that the version table is told the same. */
  lemma SentMeta(c: Controller, db: Db, rows: Rows, connector: string, key: Bytes, now: int)
    requires Compiles(c, db, connector, key)
    ensures var meta := SnapshotFor(c, db, rows, connector, key, now).meta;
            && meta.connectorId == connector && meta.compiledAt == c.formatTime(now)
            && meta.validUntil == c.formatTime(now + c.ttl)
    ensures var snap, after := SnapshotFor(c, db, rows, connector, key, now), NextRows(c, db, rows, connector, now);
            && connector in after && after == rows[connector := after[connector]]
            && after[connector] == VersionRow(snap.meta.version, snap.meta.compiledAt, Some(c.hash(snap.resources)))
  {
    hide Compiled, Sign;
  }

  /** A connector with a network of its own gets a snapshot exactly when there is a key and all rows are addressed. */
  lemma OwnNetworkCompiles(c: Controller, db: Db, connector: string, key: Bytes, network: string)
    requires connector in db.connectors && db.connectors[connector] == Some(network) && !Blank(network)
    ensures Compiles(c, db, connector, key) <==>
      && connector != "" && key != []
      && forall i <- db.resources :: db.resources[i].network == Some(network) ==> db.resources[i].address.Some?
  {
    hide Compiled;
    NetworkExactly(db, connector);
    CompiledExactly(c.platform, db, network);
  }

  /** One with assignments only, if the latest of them is not blank, likewise. */
  lemma AssignedNetworkCompiles(c: Controller, db: Db, connector: string, key: Bytes)
    requires HasAssignmentsOnly(db, connector)
    ensures exists a :: IsLatest(db.assignments[connector], a) && (Compiles(c, db, connector, key) <==>
      && connector != "" && key != [] && !Blank(a.network)
      && forall i <- db.resources :: db.resources[i].network == Some(a.network) ==> db.resources[i].address.Some?)
  {
    hide Compiled;
    NetworkExactly(db, connector);
    var a :| IsLatest(db.assignments[connector], a)
      && ConnectorNetwork(db, connector) == if Blank(a.network) then None else Some(a.network);
    CompiledExactly(c.platform, db, a.network);
  }

  method CompilePolicySnapshot(c: Controller, db: Db, table: VersionTable, connector: string, key: Bytes, now: int)
    returns (r: Result<Snapshot>)
    modifies table
    ensures r.Ok? <==> Compiles(c, db, connector, key)
    ensures r.Ok? ==> r.value == SnapshotFor(c, db, old(table.rows), connector, key, now)
    ensures table.rows == NextRows(c, db, old(table.rows), connector, now)
  {
    if connector == "" {
      return Err("connector_id required");
    }
    var network := ConnectorNetwork(db, connector);
    if network.None? {
      return Err("no network");
    }
    var compiled := PolicyResources(c.platform, db, network.value);
    if compiled.Err? {
      return Err(compiled.error);
    }
    var rs := compiled.value;
    var version := table.PolicyVersion(connector, c.hash(rs), c.formatTime(now));
    var a := new Resource[|rs|](i requires 0 <= i < |rs| => rs[i]);
    assert a[..] == rs;
    NormalizeSnapshot(a);
    CompiledIsNormal(c.platform, db, network.value);
    var snap := Draft(c, connector, version, now, a[..]);
    var signature := Sign(c.scheme, key, snap);
    if signature.None? {
      return Err("signing key not configured");
    }
    r := Ok(snap.WithSignature(signature.value));
  }

  /** The version in a snapshot counts the stretches of equal hashes in its connector's history, this one included. */
  lemma SnapshotVersion(c: Controller, db: Db, run: seq<Compilation>, connector: string, key: Bytes, now: int)
    requires Compiles(c, db, connector, key)
    ensures var last := Numbered(c, db, connector, now);
            && NextRows(c, db, RowsAfter(run), connector, now) == RowsAfter(run + [last])
            && SnapshotFor(c, db, RowsAfter(run), connector, key, now).meta.version
               == Stretches(Hashes(run, connector) + [last.hash])
  {
    hide Compiled, Sign;
    var longer := run + [Numbered(c, db, connector, now)];
    assert longer[..|run|] == run && longer[..|run| + 1] == longer;
    VersionCountsStretches(longer, |run|);
  }

  // ---------- The relational meaning of a request ----------

  predicate RowAtAddress(p: Platform, row: ResourceRow, key: string)
    requires row.address.Some?
  {
    var addr := p.fold(row.address.value);
    match p.parseIp(key)
    case None => false
    case Some(ip) =>
      match RowKind(p, row)
      case Host => addr != "" && p.parseIp(addr) == Some(ip)
      case Cidr => p.parseNet(addr).Some? && p.contains(p.parseNet(addr).value, ip)
      case Internet => false
  }

  predicate RowAtName(p: Platform, row: ResourceRow, key: string)
    requires row.address.Some?
  {
    RowKind(p, row) == Host && p.fold(row.address.value) == key && key != ""
  }

  /** Address matches in the network shut out name matches, and both shut out the internet resources. */
  predicate RowSelected(p: Platform, db: Db, ids: set<string>, id: string, dest: string)
    requires id in ids && forall i <- ids :: i in db.resources && db.resources[i].address.Some?
  {
    var key := p.fold(dest);
    if exists i <- ids :: RowAtAddress(p, db.resources[i], key) then RowAtAddress(p, db.resources[id], key)
    else if exists i <- ids :: RowAtName(p, db.resources[i], key) then RowAtName(p, db.resources[id], key)
    else RowKind(p, db.resources[id]) == Internet
  }

  function RowProtocol(row: ResourceRow): string {
    if row.protocol.Some? && row.protocol.value != "" then row.protocol.value else "TCP"
  }

  /** A resource of the network is selected, opens the protocol and port, and is reached by an enabled rule. */
  ghost predicate MayReach(p: Platform, db: Db, network: string, q: Request)
    requires forall i <- NetworkIds(db, network) :: db.resources[i].address.Some?
  {
    exists id :: id in NetworkIds(db, network)
      && RowSelected(p, db, NetworkIds(db, network), id, q.dest)
      && (q.protocol == "" || p.sameProtocol(RowProtocol(db.resources[id]), q.protocol))
      && RowPortOpen(db.resources[id], q.port)
      && Reaches(db, id, q.identity)
  }

  // ---------- From rows to compiled resources ----------

  lemma CompiledTiers(p: Platform, db: Db, id: string, key: string)
    requires KeepsTypeNames(p) && id in db.resources && db.resources[id].address.Some?
    ensures var r := CompiledResource(p, db, id);
            && (p.parseIp(key).Some? ==>
                 (AtIp(p, r, p.parseIp(key).value) || InNet(p, r, p.parseIp(key).value)
                  <==> RowAtAddress(p, db.resources[id], key)))
            && (AtName(p, r, key) <==> RowAtName(p, db.resources[id], key))
            && (IsInternet(p, r) <==> RowKind(p, db.resources[id]) == Internet)
  {
    CompiledKind(p, db, id);
  }

  lemma InAddressTier(p: Platform, rs: seq<Resource>, key: string, r: Resource)
    ensures r in AddressTier(p, rs, key)
       <==> r in rs && p.parseIp(key).Some? && (AtIp(p, r, p.parseIp(key).value) || InNet(p, r, p.parseIp(key).value))
  {
    if p.parseIp(key).Some? {
      var ip := p.parseIp(key).value;
      SelectMembers(rs, r => AtIp(p, r, ip), r);
      SelectMembers(rs, r => InNet(p, r, ip), r);
    }
  }

  lemma TierMembers(p: Platform, db: Db, network: string, key: string)
    requires KeepsTypeNames(p) && Compiled(p, db, network).Ok?
    ensures forall i <- NetworkIds(db, network) :: db.resources[i].address.Some?
    ensures var rs := Compiled(p, db, network).value;
            forall id <- NetworkIds(db, network) ::
              && (CompiledResource(p, db, id) in AddressTier(p, rs, key) <==> RowAtAddress(p, db.resources[id], key))
              && (CompiledResource(p, db, id) in NameTier(p, rs, key) <==> RowAtName(p, db.resources[id], key))
              && (CompiledResource(p, db, id) in InternetTier(p, rs) <==> RowKind(p, db.resources[id]) == Internet)
  {
    CompiledMembers(p, db, network);
    var rs := Compiled(p, db, network).value;
    forall id <- NetworkIds(db, network)
      ensures CompiledResource(p, db, id) in AddressTier(p, rs, key) <==> RowAtAddress(p, db.resources[id], key)
      ensures CompiledResource(p, db, id) in NameTier(p, rs, key) <==> RowAtName(p, db.resources[id], key)
      ensures CompiledResource(p, db, id) in InternetTier(p, rs) <==> RowKind(p, db.resources[id]) == Internet
    {
      var r := CompiledResource(p, db, id);
      CompiledTiers(p, db, id, key);
      InAddressTier(p, rs, key, r);
      SelectMembers(rs, r => AtName(p, r, key), r);
      SelectMembers(rs, r => IsInternet(p, r), r);
    }
  }

  lemma TierWithin(p: Platform, rs: seq<Resource>, key: string, r: Resource)
    requires r in AddressTier(p, rs, key) || r in NameTier(p, rs, key)
    ensures r in rs
  {
    InAddressTier(p, rs, key, r);
    SelectMembers(rs, r => AtName(p, r, key), r);
  }

  lemma TiersNonEmpty(p: Platform, db: Db, network: string, key: string)
    requires KeepsTypeNames(p) && Compiled(p, db, network).Ok?
    ensures forall i <- NetworkIds(db, network) :: db.resources[i].address.Some?
    ensures var rs, ids := Compiled(p, db, network).value, NetworkIds(db, network);
            && (AddressTier(p, rs, key) != [] <==> exists i <- ids :: RowAtAddress(p, db.resources[i], key))
            && (NameTier(p, rs, key) != [] <==> exists i <- ids :: RowAtName(p, db.resources[i], key))
  {
    hide Compiled, CompiledResource, RowAtAddress, RowAtName;
    var rs, ids := Compiled(p, db, network).value, NetworkIds(db, network);
    TierMembers(p, db, network, key);
    CompiledMembers(p, db, network);
    var a, n := AddressTier(p, rs, key), NameTier(p, rs, key);
    if a != [] {
      TierWithin(p, rs, key, a[0]);
      assert a[0] == CompiledResource(p, db, a[0].id) && a[0] in a;
    }
    if n != [] {
      TierWithin(p, rs, key, n[0]);
      assert n[0] == CompiledResource(p, db, n[0].id) && n[0] in n;
    }
  }

  lemma SelectedIsWinning(p: Platform, db: Db, network: string, id: string, dest: string)
    requires KeepsTypeNames(p) && Compiled(p, db, network).Ok? && id in NetworkIds(db, network)
    ensures forall i <- NetworkIds(db, network) :: db.resources[i].address.Some?
    ensures CompiledResource(p, db, id) in WinningTier(p, Compiled(p, db, network).value, dest)
       <==> RowSelected(p, db, NetworkIds(db, network), id, dest)
  {
    hide Compiled, CompiledResource, RowAtAddress, RowAtName;
    TiersNonEmpty(p, db, network, p.fold(dest));
    TierMembers(p, db, network, p.fold(dest));
  }

  lemma CompiledPermits(p: Platform, db: Db, id: string, q: Request)
    requires id in db.resources && db.resources[id].address.Some?
    ensures Permits(p, CompiledResource(p, db, id), q)
       <==> (q.protocol == "" || p.sameProtocol(RowProtocol(db.resources[id]), q.protocol))
            && RowPortOpen(db.resources[id], q.port) && Reaches(db, id, q.identity)
  {
    CompiledPort(p, db, id, q.port);
    CompiledIdentities(p, db, id, q.identity);
  }

  /** Scanning the compiled resources answers the relational question. */
  lemma ScanMeansReach(p: Platform, db: Db, network: string, q: Request)
    requires KeepsTypeNames(p) && Compiled(p, db, network).Ok?
    ensures forall i <- NetworkIds(db, network) :: db.resources[i].address.Some?
    ensures Scan(p, Compiled(p, db, network).value, q).allowed <==> MayReach(p, db, network, q)
  {
    var rs, ids := Compiled(p, db, network).value, NetworkIds(db, network);
    CompiledMembers(p, db, network);
    ScanAllows(p, rs, q);
    WinningTierWithin(p, rs, q.dest);
    forall id <- ids
      ensures CompiledResource(p, db, id) in WinningTier(p, rs, q.dest) <==> RowSelected(p, db, ids, id, q.dest)
      ensures Permits(p, CompiledResource(p, db, id), q)
         <==> (q.protocol == "" || p.sameProtocol(RowProtocol(db.resources[id]), q.protocol))
              && RowPortOpen(db.resources[id], q.port) && Reaches(db, id, q.identity)
    {
      SelectedIsWinning(p, db, network, id, q.dest);
      CompiledPermits(p, db, id, q);
    }
    if Scan(p, rs, q).allowed {
      var r :| r in WinningTier(p, rs, q.dest) && Permits(p, r, q);
      assert r.id in ids && r == CompiledResource(p, db, r.id);
    }
    if MayReach(p, db, network, q) {
      var id :| id in ids && RowSelected(p, db, ids, id, q.dest)
        && (q.protocol == "" || p.sameProtocol(RowProtocol(db.resources[id]), q.protocol))
        && RowPortOpen(db.resources[id], q.port) && Reaches(db, id, q.identity);
      assert CompiledResource(p, db, id) in WinningTier(p, rs, q.dest);
    }
  }

  // ---------- End to end ----------

  predicate UnshadowedIds(ids: set<string>) {
    forall a <- ids, b <- ids :: !Shadows(a, b)
  }

  /** The expiry the connector reads from the snapshot, compiled at time now. */
  predicate Expires(c: Controller, p: Platform, now: int, expiry: int) {
    p.parseTime(c.formatTime(now + c.ttl)) == Some(expiry)
  }

  /** A connector takes the snapshot over when it arrives within grace, and is left with nothing otherwise. */
  lemma SnapshotInstalls(c: Controller, db: Db, rows: Rows, connector: string, key: Bytes, own: Bytes, config: Config,
                         now: int, expiry: int, arrival: int)
    requires Compiles(c, db, connector, key) && Expires(c, config.platform, now, expiry)
    requires Verifies(config.scheme, own, SnapshotFor(c, db, rows, connector, key, now))
    ensures var rs := Compiled(c.platform, db, ConnectorNetwork(db, connector).value).value;
            Replaced(config, own, arrival, SnapshotFor(c, db, rows, connector, key, now))
            == if arrival <= expiry + config.staleGrace
               then Contents(Build(config.platform, rs), Some(expiry), true) else CLEARED
  {
    hide Verifies, Build, Sign, Compiled;
  }

  lemma SignedByController(c: Controller, db: Db, rows: Rows, connector: string, key: Bytes, now: int)
    returns (draft: Snapshot)
    requires Compiles(c, db, connector, key)
    ensures var snap := SnapshotFor(c, db, rows, connector, key, now);
            && snap == draft.WithSignature(Sign(c.scheme, key, draft).value)
            && draft.resources == Compiled(c.platform, db, ConnectorNetwork(db, connector).value).value
            && draft == Draft(c, connector, draft.meta.version, now, draft.resources)
            && Verifies(c.scheme, key, snap)
  {
    hide Verifies, Sign, Compiled;
    var rs := Compiled(c.platform, db, ConnectorNetwork(db, connector).value).value;
    draft := Draft(c, connector, NextVersion(rows, connector, c.hash(rs)), now, rs);
    SignedVerifies(c.scheme, key, draft);
  }

  lemma CompiledForCaches(p: Platform, db: Db, network: string)
    requires Compiled(p, db, network).Ok? && UnshadowedIds(NetworkIds(db, network))
    ensures var rs := Compiled(p, db, network).value;
            DistinctIds(rs) && Unshadowed(rs) && forall r <- rs :: GoCache.PortFits(r)
  {
  }

  /**
   Compile, sign, verify, install, look up: a Go connector answers exactly as the controller's tables did when
   the snapshot was compiled, from its arrival until its expiry and grace are past, and denies otherwise.
   */
  lemma GoEndToEnd(c: Controller, db: Db, rows: Rows, connector: string, key: Bytes, grace: nat,
                   now: int, expiry: int, arrival: int, t: int, q: Request)
    requires Compiles(c, db, connector, key) && KeepsTypeNames(c.platform) && Expires(c, c.platform, now, expiry)
    requires UnshadowedIds(NetworkIds(db, ConnectorNetwork(db, connector).value)) && q.port < 0x1_0000
    ensures var network := ConnectorNetwork(db, connector).value;
            var snap := SnapshotFor(c, db, rows, connector, key, now);
            var config := Config(c.scheme, c.platform, GoCache.PortMatches, grace);
            && (forall i <- NetworkIds(db, network) :: db.resources[i].address.Some?)
            && (Answer(config, Replaced(config, key, arrival, snap), t, q).allowed
                <==> arrival <= expiry + grace && t <= expiry + grace && MayReach(c.platform, db, network, q))
  {
    hide Verifies, Sign, MayReach, Compiled, Decide, Scan, Build, SnapshotFor;
    var network := ConnectorNetwork(db, connector).value;
    var rs := Compiled(c.platform, db, network).value;
    var config := Config(c.scheme, c.platform, GoCache.PortMatches, grace);
    var draft := SignedByController(c, db, rows, connector, key, now);
    SnapshotInstalls(c, db, rows, connector, key, key, config, now, expiry, arrival);
    CompiledForCaches(c.platform, db, network);
    forall r <- rs ensures GoCache.PortMatches(r, q.port) == PortOpen(r, q.port) {
      GoCache.PortMatchesExact(r);
    }
    RefinesScan(c.platform, GoCache.PortMatches, rs, q);
    ScanMeansReach(c.platform, db, network, q);
  }

  predicate BoundsPresent(db: Db, ids: set<string>) {
    forall i <- ids :: i in db.resources && db.resources[i].portFrom.Some? && db.resources[i].portTo.Some?
  }

  predicate BoundsFit(db: Db, ids: set<string>) {
    forall i <- ids :: i in db.resources
      && (db.resources[i].portFrom.Some? ==> RustCache.IsU16(db.resources[i].portFrom.value))
      && (db.resources[i].portTo.Some? ==> RustCache.IsU16(db.resources[i].portTo.value))
  }

  /** What the rows of a network put into a snapshot holds none of the characters that only Go escapes. */
  predicate RowsPlain(db: Db, ids: set<string>) {
    forall i <- ids :: i in db.resources && RowPlain(db, i)
  }

  predicate RowPlain(db: Db, id: string)
    requires id in db.resources
  {
    var row := db.resources[id];
    && row.address.Some? && PlainText(row.address.value)
    && PlainText(id) && PlainText(RowProtocol(row)) && forall identity <- IdentityRows(db, id) :: PlainText(identity)
  }

  predicate TextsPlain(c: Controller, db: Db, connector: string, now: int)
    requires ConnectorNetwork(db, connector).Some?
  {
    && PlainText(connector) && PlainText(c.formatTime(now)) && PlainText(c.formatTime(now + c.ttl))
    && RowsPlain(db, NetworkIds(db, ConnectorNetwork(db, connector).value))
  }

  /** One key at both ends, both port bounds on every resource, and no text that only Go escapes. */
  predicate RustAgrees(c: Controller, db: Db, connector: string, key: Bytes, own: Bytes, now: int)
    requires ConnectorNetwork(db, connector).Some?
  {
    && own != [] && SameKey(key, own) && BoundsPresent(db, NetworkIds(db, ConnectorNetwork(db, connector).value))
    && TextsPlain(c, db, connector, now)
  }

  /**
   The Rust connector, given the same snapshot and a key of its own, does so exactly when the keys are the same,
   every resource of the network has both port bounds, and no text of the snapshot is one that only Go escapes.
   A bound that does not fit 16 bits makes it ignore the message and keep what it held. Anything else makes it
   reject the snapshot, drop what it held, and deny every request.
   */
  lemma RustEndToEnd(c: Controller, mac: (Bytes, Bytes) -> Bytes, render: Json -> Bytes, p: Platform,
                     db: Db, rows: Rows, connector: string, key: Bytes, own: Bytes, grace: nat, held: Contents,
                     now: int, expiry: int, arrival: int, t: int, q: Request)
    requires c.scheme == GoScheme(mac, render) && Separates(mac, key, own) && InjectiveRender(render)
    requires Compiles(c, db, connector, key) && KeepsTypeNames(c.platform)
    requires GoCache.Alike(c.platform, p) && Expires(c, p, now, expiry)
    requires UnshadowedIds(NetworkIds(db, ConnectorNetwork(db, connector).value)) && q.port < 0x1_0000
    ensures var network := ConnectorNetwork(db, connector).value;
            var snap := SnapshotFor(c, db, rows, connector, key, now);
            var config := Config(RustScheme(mac, render), p, RustCache.PortMatches, grace);
            var after := RustCache.Received(config, own, arrival, held, snap);
            var verdict := Answer(config, after, t, q);
            && (forall i <- NetworkIds(db, network) :: db.resources[i].address.Some?)
            && if !BoundsFit(db, NetworkIds(db, network)) then after == held
               else if RustAgrees(c, db, connector, key, own, now) then
                 verdict.allowed
                 <==> arrival <= expiry + grace && t <= expiry + grace && MayReach(c.platform, db, network, q)
               else after == CLEARED && verdict == Verdict(false, "", "no_snapshot")
  {
    hide Verifies, Sign, MayReach, GoScheme, RustScheme, Compiled, Decide, Scan, Build, SnapshotFor, RustCache.Decodes;
    hide RustAgrees, BoundsFit;
    var network := ConnectorNetwork(db, connector).value;
    var rs := Compiled(c.platform, db, network).value;
    var config := Config(RustScheme(mac, render), p, RustCache.PortMatches, grace);
    RustVerifiesExactly(c, mac, render, db, rows, connector, key, own, now);
    SentResources(c, db, rows, connector, key, now);
    FitOfRows(c.platform, db, network);
    CompiledForCaches(c.platform, db, network);
    if RustAgrees(c, db, connector, key, own, now) {
      SnapshotInstalls(c, db, rows, connector, key, own, config, now, expiry, arrival);
      forall r <- rs ensures GoCache.PortMatches(r, q.port) == PortOpen(r, q.port) {
        GoCache.PortMatchesExact(r);
      }
      GoCache.CachesAgree(c.platform, p, rs, q);
      RefinesScan(c.platform, GoCache.PortMatches, rs, q);
    }
    ScanMeansReach(c.platform, db, network, q);
  }

  /** The compiled snapshot verifies at the Rust connector exactly when key and tables agree with it. */
  lemma RustVerifiesExactly(c: Controller, mac: (Bytes, Bytes) -> Bytes, render: Json -> Bytes, db: Db, rows: Rows,
                            connector: string, key: Bytes, own: Bytes, now: int)
    requires c.scheme == GoScheme(mac, render) && Separates(mac, key, own) && InjectiveRender(render)
    requires Compiles(c, db, connector, key)
    ensures Verifies(RustScheme(mac, render), own, SnapshotFor(c, db, rows, connector, key, now))
       <==> RustAgrees(c, db, connector, key, own, now)
  {
    hide Verifies, Sign, GoScheme, RustScheme, Compiled, SnapshotFor, PlainText, BoundsPresent, RowsPlain;
    hide BothBounds, PlainResource, SameKey;
    var network := ConnectorNetwork(db, connector).value;
    var draft := SignedByController(c, db, rows, connector, key, now);
    RustAcceptsGo(mac, render, key, own, draft);
    BoundsOfRows(c.platform, db, network);
    TextsOfRows(c.platform, db, network);
    assert PlainText("") by {
      EmptyIsPlain();
    }
  }

  lemma EmptyIsPlain()
    ensures PlainText("")
  {
  }

  lemma CompiledTexts(p: Platform, db: Db, id: string)
    requires id in db.resources && db.resources[id].address.Some?
    ensures PlainResource(CompiledResource(p, db, id)) <==> RowPlain(db, id)
  {
    hide PlainText, IdentityRows;
    ListedIdentities(p, db, id);
    EmptyIsPlain();
    assert PlainText("cidr") && PlainText("dns") && PlainText("internet") by {
      TypeNamesArePlain();
    }
  }

  lemma TypeNamesArePlain()
    ensures PlainText("cidr") && PlainText("dns") && PlainText("internet")
  {
  }

  lemma TextsOfRows(p: Platform, db: Db, network: string)
    requires Compiled(p, db, network).Ok?
    ensures (forall r <- Compiled(p, db, network).value :: PlainResource(r)) <==> RowsPlain(db, NetworkIds(db, network))
  {
    hide Compiled, CompiledResource, PlainResource, RowPlain;
    CompiledMembers(p, db, network);
    var rs, ids := Compiled(p, db, network).value, NetworkIds(db, network);
    forall i <- ids ensures PlainResource(CompiledResource(p, db, i)) <==> RowPlain(db, i) {
      CompiledTexts(p, db, i);
    }
  }

  lemma BoundsOfRows(p: Platform, db: Db, network: string)
    requires Compiled(p, db, network).Ok?
    ensures (forall r <- Compiled(p, db, network).value :: BothBounds(r))
       <==> BoundsPresent(db, NetworkIds(db, network))
  {
    hide Compiled;
    CompiledMembers(p, db, network);
    var rs, ids := Compiled(p, db, network).value, NetworkIds(db, network);
    forall i <- ids
      ensures BothBounds(CompiledResource(p, db, i))
         <==> db.resources[i].portFrom.Some? && db.resources[i].portTo.Some?
    {
    }
  }

  lemma FitOfRows(p: Platform, db: Db, network: string)
    requires Compiled(p, db, network).Ok?
    ensures forall meta :: RustCache.Decodes(Snapshot(meta, Compiled(p, db, network).value))
                      <==> BoundsFit(db, NetworkIds(db, network))
  {
    hide Compiled;
    CompiledMembers(p, db, network);
    var rs, ids := Compiled(p, db, network).value, NetworkIds(db, network);
    forall meta
      ensures RustCache.Decodes(Snapshot(meta, rs)) <==> BoundsFit(db, ids)
    {
      if RustCache.Decodes(Snapshot(meta, rs)) {
        assert forall i <- ids :: CompiledResource(p, db, i) in rs;
      }
    }
  }

  // ---------- The clock the two sides share ----------

  const SECOND: int := 1_000_000_000

  /**
   The printer that the Rust reader's tests keep beside it, on an instant from the epoch on. Go's
   Format(time.RFC3339) in UTC prints the same before the year 2^31; from then on it prints the full year.
   */
  function FormatInstant(t: nat): string {
    Timestamps.Format(t / SECOND)
  }

  /** The Rust reader's SystemTime. */
  function ParseInstant(s: string): Option<int> {
    match Timestamps.Parse(s)
    case None => None
    case Some(secs) => Some(secs * SECOND)
  }

  /** The Rust reader gets back the instant the controller printed, cut to the whole second, and never a later one. */
  lemma InstantRoundTrip(t: nat)
    requires t / SECOND <= Timestamps.MAX_SECONDS
    ensures ParseInstant(FormatInstant(t)) == Some(t - t % SECOND) <==> t / SECOND < Timestamps.FIRST_WRAPPED
    ensures ParseInstant(FormatInstant(t)).Some? ==> ParseInstant(FormatInstant(t)).value <= t
  {
    hide Timestamps.Format, Timestamps.Parse;
    Timestamps.RoundTrip(t / SECOND);
  }

  /** A printed instant holds digits and separators only. */
  lemma InstantIsPlain(t: nat)
    ensures PlainText(FormatInstant(t))
  {
    Timestamps.PrintsPlainly(t / SECOND);
  }

  /** With that printer and that reader, the answers last until a second's fraction short of now + ttl + grace. */
  lemma RustOnTheClock(c: Controller, mac: (Bytes, Bytes) -> Bytes, render: Json -> Bytes, p: Platform,
                       db: Db, rows: Rows, connector: string, key: Bytes, own: Bytes, grace: nat,
                       now: nat, arrival: int, t: int, q: Request)
    requires c.scheme == GoScheme(mac, render) && Separates(mac, key, own) && InjectiveRender(render)
    requires Compiles(c, db, connector, key) && KeepsTypeNames(c.platform) && GoCache.Alike(c.platform, p)
    requires UnshadowedIds(NetworkIds(db, ConnectorNetwork(db, connector).value)) && q.port < 0x1_0000
    requires 0 <= now + c.ttl && (now + c.ttl) / SECOND < Timestamps.FIRST_WRAPPED
    requires c.formatTime(now) == FormatInstant(now) && c.formatTime(now + c.ttl) == FormatInstant(now + c.ttl)
    requires p.parseTime(FormatInstant(now + c.ttl)) == ParseInstant(FormatInstant(now + c.ttl))
    ensures var network := ConnectorNetwork(db, connector).value;
            var ids := NetworkIds(db, network);
            var snap := SnapshotFor(c, db, rows, connector, key, now);
            var config := Config(RustScheme(mac, render), p, RustCache.PortMatches, grace);
            var after := RustCache.Received(config, own, arrival, CLEARED, snap);
            var until := now + c.ttl - (now + c.ttl) % SECOND + grace;
            && (forall i <- ids :: db.resources[i].address.Some?)
            && (Answer(config, after, t, q).allowed
                <==> && own != [] && SameKey(key, own) && BoundsFit(db, ids) && BoundsPresent(db, ids)
                     && PlainText(connector) && RowsPlain(db, ids)
                     && arrival <= until && t <= until && MayReach(c.platform, db, network, q))
  {
    hide FormatInstant, ParseInstant, MayReach, SnapshotFor, RustCache.Received, BoundsPresent, BoundsFit, RowsPlain;
    hide GoScheme, RustScheme, Compiled, KeepsTypeNames, GoCache.Alike, UnshadowedIds, PlainText, SameKey;
    InstantRoundTrip(now + c.ttl);
    InstantIsPlain(now);
    InstantIsPlain(now + c.ttl);
    var expiry := now + c.ttl - (now + c.ttl) % SECOND;
    RustEndToEnd(c, mac, render, p, db, rows, connector, key, own, grace, CLEARED, now, expiry, arrival, t, q);
  }

  lemma SentResources(c: Controller, db: Db, rows: Rows, connector: string, key: Bytes, now: int)
    requires Compiles(c, db, connector, key)
    ensures var snap := SnapshotFor(c, db, rows, connector, key, now);
            snap == Snapshot(snap.meta, Compiled(c.platform, db, ConnectorNetwork(db, connector).value).value)
  {
    hide Compiled, Sign;
  }
}
