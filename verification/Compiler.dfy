/** The controller's policy compiler: relational rules flattened into the resources of one network. */
module Compiler {
  import opened Options
  import opened Text
  import opened Sorting
  import opened Snapshots
  import opened Policy
  import opened Database

  function NormalizeType(p: Platform, kind: string, address: string): string {
    var k := p.fold(kind);
    if k == "cidr" || k == "dns" || k == "internet" then k
    else if address == "" then "dns"
    else
      var addr := p.fold(address);
      if addr == "*" || addr == "internet" then "internet"
      else if '/' in addr && p.parseNet(addr).Some? then "cidr"
      else "dns"
  }

  /** Folding leaves the three type names alone, as trimming and lower-casing do. */
  predicate KeepsTypeNames(p: Platform) {
    p.fold("cidr") == "cidr" && p.fold("dns") == "dns" && p.fold("internet") == "internet"
  }

  /**
   The compiler writes one of three type names, which compiling again or folding at the connector leaves alone.
   A network it recognised itself is one the connector can parse; a declared one need not be.
   */
  lemma TypeIsSettled(p: Platform, kind: string, address: string)
    requires KeepsTypeNames(p)
    ensures var settled := NormalizeType(p, kind, address);
            && settled in {"cidr", "dns", "internet"} && p.fold(settled) == settled
            && NormalizeType(p, settled, address) == settled
            && (p.fold(kind) in {"cidr", "dns", "internet"} ==> settled == p.fold(kind))
            && (settled == "cidr" && p.fold(kind) != "cidr" ==> p.parseNet(p.fold(address)).Some?)
  {
  }

  // ---------- What a row stands for: declared by its type, or told by the shape of its address ----------

  predicate Undeclared(p: Platform, row: ResourceRow) {
    p.fold(row.kind) !in {"cidr", "dns", "internet"}
  }

  predicate StandsForAll(p: Platform, address: string) {
    address != "" && p.fold(address) in {"*", "internet"}
  }

  /** A network is written with a slash, as a parser can also take a single address for one. */
  predicate StandsForNet(p: Platform, address: string) {
    && address != "" && !StandsForAll(p, address)
    && '/' in p.fold(address) && p.parseNet(p.fold(address)).Some?
  }

  function RowKind(p: Platform, row: ResourceRow): Kind
    requires row.address.Some?
  {
    if p.fold(row.kind) == "internet" || (Undeclared(p, row) && StandsForAll(p, row.address.value)) then Internet
    else if p.fold(row.kind) == "cidr" || (Undeclared(p, row) && StandsForNet(p, row.address.value)) then Cidr
    else Host
  }

  lemma CompiledKind(p: Platform, db: Db, id: string)
    requires KeepsTypeNames(p) && id in db.resources && db.resources[id].address.Some?
    ensures KindOf(p, CompiledResource(p, db, id)) == RowKind(p, db.resources[id])
  {
  }

  /**
   A resource whose row declares no known type is the whole internet, a network, or a host, by its address:
   what each then matches, in terms of the row.
   */
  lemma UndeclaredMatches(p: Platform, db: Db, id: string)
    requires KeepsTypeNames(p) && id in db.resources && db.resources[id].address.Some?
    requires Undeclared(p, db.resources[id])
    ensures var r, address := CompiledResource(p, db, id), db.resources[id].address.value;
            var addr := p.fold(address);
            && (IsInternet(p, r) <==> StandsForAll(p, address))
            && (forall ip :: InNet(p, r, ip) <==>
                  StandsForNet(p, address) && p.contains(p.parseNet(addr).value, ip))
            && (forall ip :: AtIp(p, r, ip) <==>
                  !StandsForAll(p, address) && !StandsForNet(p, address) && addr != "" && p.parseIp(addr) == Some(ip))
            && (forall key :: AtName(p, r, key) <==>
                  !StandsForAll(p, address) && !StandsForNet(p, address) && addr == key && key != "")
  {
    CompiledKind(p, db, id);
  }

  /** A declared type decides alone, whatever the address looks like. */
  lemma DeclaredMatches(p: Platform, db: Db, id: string)
    requires KeepsTypeNames(p) && id in db.resources && db.resources[id].address.Some?
    requires !Undeclared(p, db.resources[id])
    ensures var r, kind := CompiledResource(p, db, id), p.fold(db.resources[id].kind);
            var addr := p.fold(db.resources[id].address.value);
            && (IsInternet(p, r) <==> kind == "internet")
            && (forall ip :: InNet(p, r, ip) <==>
                  kind == "cidr" && p.parseNet(addr).Some? && p.contains(p.parseNet(addr).value, ip))
            && (forall ip :: AtIp(p, r, ip) <==> kind == "dns" && addr != "" && p.parseIp(addr) == Some(ip))
            && (forall key :: AtName(p, r, key) <==> kind == "dns" && addr == key && key != "")
  {
    CompiledKind(p, db, id);
  }

  function RowPort(row: ResourceRow): int {
    var port := if row.portFrom.Some? then row.portFrom.value else 0;
    if row.portTo.Some? && (port == 0 || port != row.portTo.value) then 0 else port
  }

  function CompiledResource(p: Platform, db: Db, id: string): Resource
    requires id in db.resources && db.resources[id].address.Some?
  {
    var row := db.resources[id];
    Resource(
      id, NormalizeType(p, row.kind, row.address.value), row.address.value, RowPort(row),
      if row.protocol.Some? && row.protocol.value != "" then row.protocol.value else "TCP",
      row.portFrom, row.portTo, Ascending(IdentityRows(db, id) - {""}))
  }

  function NetworkIds(db: Db, network: string): set<string> {
    set id <- db.resources | db.resources[id].network == Some(network)
  }

  predicate AddressesPresent(db: Db, ids: seq<string>) {
    forall id <- ids :: id in db.resources && db.resources[id].address.Some?
  }

  function CompiledRows(p: Platform, db: Db, ids: seq<string>): seq<Resource>
    requires AddressesPresent(db, ids)
  {
    seq(|ids|, i requires 0 <= i < |ids| => CompiledResource(p, db, ids[i]))
  }

  /** All resources of the network in the order of their ids, or an error when one has no address. */
  function Compiled(p: Platform, db: Db, network: string): Result<seq<Resource>> {
    var ids := Ascending(NetworkIds(db, network));
    if AddressesPresent(db, ids) then Ok(CompiledRows(p, db, ids)) else Err("null address")
  }

  // ---------- The row loops ----------

  method PolicyResources(p: Platform, db: Db, network: string) returns (r: Result<seq<Resource>>)
    ensures r == Compiled(p, db, network)
  {
    hide Leq, CompiledResource;
    var rows := Ascending(NetworkIds(db, network));
    var resources: seq<Resource> := [];
    for i := 0 to |rows|
      invariant AddressesPresent(db, rows[..i]) && resources == CompiledRows(p, db, rows[..i])
    {
      var id := rows[i];
      assert id in Elements(rows);
      var row := db.resources[id];
      if row.address.None? {
        return Err("null address");
      }
      var res := RowResource(p, db, id);
      assert rows[..i + 1] == rows[..i] + [id];
      resources := resources + [res];
    }
    assert rows[..|rows|] == rows;
    r := Ok(resources);
  }

  /** One turn of the row loop, once the row has an address. */
  method RowResource(p: Platform, db: Db, id: string) returns (res: Resource)
    requires id in db.resources && db.resources[id].address.Some?
    ensures res == CompiledResource(p, db, id)
  {
    var row := db.resources[id];
    var identities := Identities(db, id);
    res := Resource(
      id, NormalizeType(p, row.kind, row.address.value), row.address.value, 0, "TCP", None, None, identities);
    if row.protocol.Some? && row.protocol.value != "" {
      res := res.(protocol := row.protocol.value);
    }
    if row.portFrom.Some? {
      res := res.(portFrom := row.portFrom, port := row.portFrom.value);
    }
    if row.portTo.Some? {
      res := res.(portTo := row.portTo);
      if res.port == 0 || res.port != row.portTo.value {
        res := res.(port := 0);
      }
    }
  }

  /** The inner loop: the query's rows in order, without the empty identity. */
  method Identities(db: Db, resource: string) returns (identities: seq<string>)
    ensures identities == Ascending(IdentityRows(db, resource) - {""})
  {
    var rows := Ascending(IdentityRows(db, resource));
    identities := [];
    for i := 0 to |rows|
      invariant StrictlySorted(identities) && Elements(identities) == Elements(rows[..i]) - {""}
    {
      ElementsSnoc(rows[..i], rows[i]);
      assert rows[..i + 1] == rows[..i] + [rows[i]];
      if rows[i] != "" {
        ElementsSnoc(identities, rows[i]);
        forall k | 0 <= k < |identities| ensures Less(identities[k], rows[i]) {
          assert identities[k] in Elements(identities);
          var j :| 0 <= j < i && rows[j] == identities[k];
        }
        identities := identities + [rows[i]];
      }
    }
    assert rows[..|rows|] == rows;
    SortedUnique(identities, Ascending(IdentityRows(db, resource) - {""}));
  }

  // ---------- What a compiled resource says ----------

  /** The ports a row of the resource table opens. */
  predicate RowPortOpen(row: ResourceRow, port: int) {
    if row.portFrom.None? && row.portTo.None? then true
    else
      var from := if row.portFrom.Some? then row.portFrom.value else 0;
      var to := if row.portTo.Some? then row.portTo.value else 0;
      (from == 0 && to == 0) || (if to == 0 then port == from else from <= port <= to)
  }

  lemma CompiledPort(p: Platform, db: Db, id: string, port: int)
    requires id in db.resources && db.resources[id].address.Some?
    ensures PortOpen(CompiledResource(p, db, id), port) <==> RowPortOpen(db.resources[id], port)
  {
  }

  /** The single port a compiled resource carries is the only one its row opens; other rows leave it 0. */
  lemma CompiledSinglePort(p: Platform, db: Db, id: string)
    requires id in db.resources && db.resources[id].address.Some?
    ensures var r, row := CompiledResource(p, db, id), db.resources[id];
            && (r.port != 0 <==>
                  row.portFrom.Some? && row.portFrom.value != 0 && (row.portTo.None? || row.portTo == row.portFrom))
            && (r.port != 0 ==> forall port :: RowPortOpen(row, port) <==> port == r.port)
  {
  }

  lemma ListedIdentities(p: Platform, db: Db, id: string)
    requires id in db.resources && db.resources[id].address.Some?
    ensures forall identity ::
              identity in CompiledResource(p, db, id).identities <==> identity in IdentityRows(db, id) && identity != ""
  {
    var listed := Ascending(IdentityRows(db, id) - {""});
    assert forall identity :: identity in listed <==> identity in Elements(listed);
  }

  /** The compiled identity list holds exactly the identities that some enabled rule reaches. */
  lemma CompiledIdentities(p: Platform, db: Db, id: string, identity: string)
    requires id in db.resources && db.resources[id].address.Some?
    ensures Granted(CompiledResource(p, db, id), identity) <==> Reaches(db, id, identity)
  {
    ListedIdentities(p, db, id);
    if identity != "" {
      RowsReach(db, id, identity);
    } else {
      assert forall path :: !Grants(db, path, id, "");
    }
  }

  /** A network compiles exactly when all its rows have addresses, and then holds one resource for each of them. */
  lemma CompiledExactly(p: Platform, db: Db, network: string)
    ensures Compiled(p, db, network).Ok? <==>
      forall i <- db.resources :: db.resources[i].network == Some(network) ==> db.resources[i].address.Some?
    ensures Compiled(p, db, network).Ok? ==> forall i ::
      (exists r <- Compiled(p, db, network).value :: r.id == i)
      <==> i in db.resources && db.resources[i].network == Some(network)
  {
    var ids := Ascending(NetworkIds(db, network));
    assert forall i :: i in ids <==> i in Elements(ids);
    if Compiled(p, db, network).Ok? {
      CompiledMembers(p, db, network);
      forall i | i in db.resources && db.resources[i].network == Some(network)
        ensures exists r <- Compiled(p, db, network).value :: r.id == i
      {
        assert CompiledResource(p, db, i).id == i && i in NetworkIds(db, network);
      }
    }
  }

  lemma CompiledMembers(p: Platform, db: Db, network: string)
    requires Compiled(p, db, network).Ok?
    ensures var rs := Compiled(p, db, network).value;
            && (forall id <- NetworkIds(db, network) ::
                 db.resources[id].address.Some? && CompiledResource(p, db, id) in rs)
            && (forall r <- rs :: r.id in NetworkIds(db, network) && db.resources[r.id].address.Some?
                                  && r == CompiledResource(p, db, r.id))
  {
    var ids := Ascending(NetworkIds(db, network));
    var rs := Compiled(p, db, network).value;
    assert forall id <- ids :: id in Elements(ids);
    forall id <- NetworkIds(db, network)
      ensures db.resources[id].address.Some? && CompiledResource(p, db, id) in rs
    {
      assert id in Elements(ids);
      var i :| 0 <= i < |ids| && ids[i] == id;
      assert rs[i] == CompiledResource(p, db, id);
    }
  }

  // ---------- Sorting before signing ----------

  function IdOf(r: Resource): string {
    r.id
  }

  function Self(s: string): string {
    s
  }

  function SortIdentities(r: Resource): Resource {
    r.(identities := Sort(r.identities, Self))
  }

  function Normalized(rs: seq<Resource>): seq<Resource> {
    var sorted := Sort(rs, IdOf);
    seq(|sorted|, i requires 0 <= i < |sorted| => SortIdentities(sorted[i]))
  }

  method NormalizeSnapshot(a: array<Resource>)
    modifies a
    ensures a[..] == Normalized(old(a[..]))
  {
    hide Leq, Sort;
    var sorted := Sort(a[..], IdOf);
    SortCorrect(a[..], IdOf);
    for i := 0 to a.Length
      invariant a[..i] == sorted[..i]
    {
      a[i] := sorted[i];
    }
    for i := 0 to a.Length
      invariant forall k :: 0 <= k < i ==> a[k] == SortIdentities(sorted[k])
      invariant forall k :: i <= k < a.Length ==> a[k] == sorted[k]
    {
      a[i] := a[i].(identities := Sort(a[i].identities, Self));
    }
    assert forall k :: 0 <= k < a.Length ==> a[..][k] == SortIdentities(sorted[k]);
  }

  /** Nothing is gained or lost: the same resources, each with the same identities, only reordered. */
  lemma NormalizedPermutes(rs: seq<Resource>)
    ensures |Normalized(rs)| == |rs| && multiset(Sort(rs, IdOf)) == multiset(rs)
    ensures forall i :: 0 <= i < |rs| ==>
      && Normalized(rs)[i].(identities := []) == Sort(rs, IdOf)[i].(identities := [])
      && multiset(Normalized(rs)[i].identities) == multiset(Sort(rs, IdOf)[i].identities)
  {
    SortCorrect(rs, IdOf);
    forall i | 0 <= i < |rs| ensures multiset(Normalized(rs)[i].identities) == multiset(Sort(rs, IdOf)[i].identities) {
      SortCorrect(Sort(rs, IdOf)[i].identities, Self);
    }
  }

  lemma NormalizedFixesSorted(rs: seq<Resource>)
    requires SortedBy(rs, IdOf) && forall r <- rs :: SortedBy(r.identities, Self)
    ensures Normalized(rs) == rs
  {
    SortFixesSorted(rs, IdOf);
    forall i | 0 <= i < |rs| ensures SortIdentities(rs[i]) == rs[i] {
      SortFixesSorted(rs[i].identities, Self);
    }
  }

  lemma NormalizedIdempotent(rs: seq<Resource>)
    ensures Normalized(Normalized(rs)) == Normalized(rs)
  {
    var sorted := Sort(rs, IdOf);
    SortCorrect(rs, IdOf);
    forall i | 0 <= i < |sorted| ensures SortedBy(SortIdentities(sorted[i]).identities, Self) {
      SortCorrect(sorted[i].identities, Self);
    }
    NormalizedFixesSorted(Normalized(rs));
  }

  /** The compiler already writes the normal form, so the hash taken before sorting covers what is sent. */
  lemma CompiledIsNormal(p: Platform, db: Db, network: string)
    requires Compiled(p, db, network).Ok?
    ensures var rs := Compiled(p, db, network).value;
            Normalized(rs) == rs && DistinctIds(rs) && SortedBy(rs, IdOf)
  {
    var ids := Ascending(NetworkIds(db, network));
    var rs := Compiled(p, db, network).value;
    forall i, j | 0 <= i < j < |rs| ensures Less(rs[i].id, rs[j].id) {
      assert rs[i].id == ids[i] && rs[j].id == ids[j];
    }
    forall r <- rs ensures SortedBy(r.identities, Self) {
      var i :| 0 <= i < |rs| && rs[i] == r;
      assert r.identities == Ascending(IdentityRows(db, ids[i]) - {""});
    }
    NormalizedFixesSorted(rs);
  }
}
