/**
 The lookup tables both connectors build from a snapshot, the decision they take from the tables, and the
 proof that it is the decision of the plain scan.
 */
module Index {
  import opened Options
  import opened Snapshots
  import opened Policy

  datatype Tables = Tables(
    byId: map<string, Resource>,
    byDns: map<string, seq<string>>,
    byIp: map<Ip, seq<string>>,
    nets: seq<(Net, string)>,
    internet: seq<string>,
    acl: set<string>)

  const EMPTY := Tables(map[], map[], map[], [], [], {})

  function Entries<K>(m: map<K, seq<string>>, k: K): seq<string> {
    if k in m then m[k] else []
  }

  function Append<K>(m: map<K, seq<string>>, k: K, id: string): map<K, seq<string>> {
    m[k := Entries(m, k) + [id]]
  }

  function AclKey(identity: string, id: string): string {
    identity + "::" + id
  }

  function AclKeys(identities: seq<string>, id: string): set<string> {
    set identity | identity in identities && identity != "" :: AclKey(identity, id)
  }

  lemma AclKeysGrow(identities: seq<string>, n: nat, id: string)
    requires n < |identities|
    ensures AclKeys(identities[..n + 1], id)
         == AclKeys(identities[..n], id) + if identities[n] != "" then {AclKey(identities[n], id)} else {}
  {
  }

  function AddAddress(p: Platform, t: Tables, r: Resource): Tables {
    var addr := p.fold(r.address);
    match KindOf(p, r)
    case Internet => t.(internet := t.internet + [r.id])
    case Cidr =>
      (match p.parseNet(addr)
       case None => t
       case Some(net) => t.(nets := t.nets + [(net, r.id)]))
    case Host =>
      if addr == "" then t
      else
        var t := t.(byDns := Append(t.byDns, addr, r.id));
        match p.parseIp(addr)
        case None => t
        case Some(ip) => t.(byIp := Append(t.byIp, ip, r.id))
  }

  function AddResource(p: Platform, t: Tables, r: Resource): Tables {
    AddAddress(p, t.(byId := t.byId[r.id := r]), r).(acl := t.acl + AclKeys(r.identities, r.id))
  }

  function Build(p: Platform, rs: seq<Resource>): Tables {
    if rs == [] then EMPTY else AddResource(p, Build(p, rs[..|rs| - 1]), rs[|rs| - 1])
  }

  // ---------- The decision from the tables ----------

  function NetIds(p: Platform, nets: seq<(Net, string)>, ip: Ip): seq<string> {
    if nets == [] then []
    else
      var (net, id) := nets[|nets| - 1];
      NetIds(p, nets[..|nets| - 1], ip) + if p.contains(net, ip) then [id] else []
  }

  function AddressIds(p: Platform, t: Tables, key: string): seq<string> {
    match p.parseIp(key)
    case None => []
    case Some(ip) => Entries(t.byIp, ip) + NetIds(p, t.nets, ip)
  }

  function Candidates(p: Platform, t: Tables, dest: string): seq<string> {
    var key := p.fold(dest);
    var ids := AddressIds(p, t, key);
    var ids := if ids == [] && key != "" then Entries(t.byDns, key) else ids;
    if ids == [] then t.internet else ids
  }

  /** The port test is a parameter because the two connectors write it differently. */
  predicate Admits(p: Platform, ports: (Resource, int) -> bool, t: Tables, id: string, q: Request) {
    && id in t.byId
    && ProtocolOpen(p, t.byId[id], q.protocol)
    && ports(t.byId[id], q.port)
    && AclKey(q.identity, id) in t.acl
  }

  function FirstAdmitted(
    p: Platform, ports: (Resource, int) -> bool, t: Tables, ids: seq<string>, q: Request): Verdict
  {
    if ids == [] then Verdict(false, "", "not_allowed")
    else if Admits(p, ports, t, ids[0], q) then Verdict(true, ids[0], "allowed")
    else FirstAdmitted(p, ports, t, ids[1..], q)
  }

  function Decide(p: Platform, ports: (Resource, int) -> bool, t: Tables, q: Request): Verdict {
    var ids := Candidates(p, t, q.dest);
    if ids == [] then Verdict(false, "", "resource_not_found") else FirstAdmitted(p, ports, t, ids, q)
  }

  // ---------- Each table lists the ids of one selection, in snapshot order ----------

  lemma IdsConcat(a: seq<Resource>, b: seq<Resource>)
    ensures Ids(a + b) == Ids(a) + Ids(b)
  {
  }

  function Just(c: bool, id: string): seq<string> {
    if c then [id] else []
  }

  /** What one more resource adds to each table. */
  lemma AddParts(p: Platform, t: Tables, r: Resource)
    ensures var t' := AddResource(p, t, r);
            && t'.byId == t.byId[r.id := r]
            && t'.acl == t.acl + AclKeys(r.identities, r.id)
            && t'.internet == t.internet + Just(IsInternet(p, r), r.id)
  {
  }

  lemma AddName(p: Platform, t: Tables, r: Resource, key: string)
    requires key != ""
    ensures Entries(AddResource(p, t, r).byDns, key) == Entries(t.byDns, key) + Just(AtName(p, r, key), r.id)
  {
  }

  lemma AddIp(p: Platform, t: Tables, r: Resource, ip: Ip)
    ensures Entries(AddResource(p, t, r).byIp, ip) == Entries(t.byIp, ip) + Just(AtIp(p, r, ip), r.id)
  {
  }

  lemma AddNet(p: Platform, t: Tables, r: Resource, ip: Ip)
    ensures NetIds(p, AddResource(p, t, r).nets, ip) == NetIds(p, t.nets, ip) + Just(InNet(p, r, ip), r.id)
  {
  }

  lemma SelectIds(rs: seq<Resource>, f: Resource -> bool)
    requires rs != []
    ensures var n := |rs| - 1;
            Ids(Select(rs, f)) == Ids(Select(rs[..n], f)) + Just(f(rs[n]), rs[n].id)
  {
    var n := |rs| - 1;
    IdsConcat(Select(rs[..n], f), if f(rs[n]) then [rs[n]] else []);
  }

  lemma {:induction false} DnsTable(p: Platform, rs: seq<Resource>, key: string)
    requires key != ""
    ensures Entries(Build(p, rs).byDns, key) == Ids(NameTier(p, rs, key))
  {
    hide AddResource, Entries, Select;
    if rs == [] {
      NothingBuilt(p);
    } else {
      var n := |rs| - 1;
      DnsTable(p, rs[..n], key);
      AddName(p, Build(p, rs[..n]), rs[n], key);
      SelectIds(rs, r => AtName(p, r, key));
    }
  }

  lemma NothingBuilt(p: Platform)
    ensures forall f :: Ids(Select([], f)) == []
    ensures Build(p, []) == EMPTY
    ensures forall key :: Entries(EMPTY.byDns, key) == []
    ensures forall ip :: Entries(EMPTY.byIp, ip) == []
  {
  }

  lemma {:induction false} IpTable(p: Platform, rs: seq<Resource>, ip: Ip)
    ensures Entries(Build(p, rs).byIp, ip) == Ids(Select(rs, r => AtIp(p, r, ip)))
  {
    hide AddResource, Entries, Select;
    if rs == [] {
      NothingBuilt(p);
    } else {
      var n := |rs| - 1;
      IpTable(p, rs[..n], ip);
      AddIp(p, Build(p, rs[..n]), rs[n], ip);
      SelectIds(rs, r => AtIp(p, r, ip));
    }
  }

  lemma {:induction false} NetTable(p: Platform, rs: seq<Resource>, ip: Ip)
    ensures NetIds(p, Build(p, rs).nets, ip) == Ids(Select(rs, r => InNet(p, r, ip)))
  {
    hide AddResource, Select;
    if rs == [] {
      NothingBuilt(p);
    } else {
      var n := |rs| - 1;
      NetTable(p, rs[..n], ip);
      AddNet(p, Build(p, rs[..n]), rs[n], ip);
      SelectIds(rs, r => InNet(p, r, ip));
    }
  }

  lemma {:induction false} InternetTable(p: Platform, rs: seq<Resource>)
    ensures Build(p, rs).internet == Ids(InternetTier(p, rs))
  {
    hide AddResource, Select;
    if rs == [] {
      NothingBuilt(p);
    } else {
      var n := |rs| - 1;
      InternetTable(p, rs[..n]);
      AddParts(p, Build(p, rs[..n]), rs[n]);
      SelectIds(rs, r => IsInternet(p, r));
    }
  }

  lemma {:induction false} IdTable(p: Platform, rs: seq<Resource>)
    requires DistinctIds(rs)
    ensures forall r <- rs :: r.id in Build(p, rs).byId && Build(p, rs).byId[r.id] == r
  {
    hide AddResource;
    if rs != [] {
      var n := |rs| - 1;
      IdTable(p, rs[..n]);
      AddParts(p, Build(p, rs[..n]), rs[n]);
      assert rs == rs[..n] + [rs[n]];
    }
  }

  lemma {:induction false} AclTable(p: Platform, rs: seq<Resource>, key: string)
    ensures key in Build(p, rs).acl <==> exists r :: r in rs && key in AclKeys(r.identities, r.id)
  {
    hide AddResource, AclKeys;
    if rs != [] {
      var n := |rs| - 1;
      AclTable(p, rs[..n], key);
      AddParts(p, Build(p, rs[..n]), rs[n]);
      assert rs == rs[..n] + [rs[n]];
    }
  }

  /** The candidate list is the winning tier, whether or not the destination is an address. */
  lemma {:induction false} CandidatesAreTheTier(p: Platform, rs: seq<Resource>, dest: string)
    ensures Candidates(p, Build(p, rs), dest) == Ids(WinningTier(p, rs, dest))
  {
    var key := p.fold(dest);
    if p.parseIp(key).Some? {
      var ip := p.parseIp(key).value;
      IpTable(p, rs, ip);
      NetTable(p, rs, ip);
      IdsConcat(Select(rs, r => AtIp(p, r, ip)), Select(rs, r => InNet(p, r, ip)));
    }
    if key != "" {
      DnsTable(p, rs, key);
    } else {
      SelectEmpty(rs, r => AtName(p, r, key));
    }
    InternetTable(p, rs);
  }

  // ---------- The joined access keys ----------

  /** A key of resource a can be read as a key of resource b, the text of b swallowing the separator. */
  predicate Shadows(a: string, b: string) {
    b == ":" + a || (|a| + 2 <= |b| && b[|b| - |a| - 2..] == "::" + a)
  }

  predicate Unshadowed(rs: seq<Resource>) {
    forall r <- rs, s <- rs :: !Shadows(r.id, s.id)
  }

  lemma ShorterShadows(i: string, a: string, j: string, b: string)
    requires AclKey(i, a) == AclKey(j, b) && |a| < |b|
    ensures Shadows(a, b)
  {
    var k := AclKey(i, a);
    assert k[|k| - |a|..] == a && k[|k| - |a| - 2..] == "::" + a;
    assert k[|k| - |b|..] == b && k[|j|..|j| + 2] == "::";
    if |b| == |a| + 1 {
      assert b[0] == k[|k| - |a| - 1] == ':';
      assert b[1..] == a;
    } else {
      assert b[|b| - |a| - 2..] == k[|k| - |a| - 2..];
    }
  }

  lemma KeysSeparate(i: string, a: string, j: string, b: string)
    requires AclKey(i, a) == AclKey(j, b)
    ensures (i == j && a == b) || Shadows(a, b) || Shadows(b, a)
  {
    if |a| < |b| {
      ShorterShadows(i, a, j, b);
    } else if |b| < |a| {
      ShorterShadows(j, b, i, a);
    } else {
      var k := AclKey(i, a);
      assert k[..|i|] == i && k[|i| + 2..] == a;
      assert k[..|j|] == j && k[|j| + 2..] == b;
    }
  }

  lemma ShadowGivesClash(a: string, b: string) returns (i: string, j: string)
    requires Shadows(a, b)
    ensures i != "" && j != "" && i != j && AclKey(i, a) == AclKey(j, b)
  {
    j := "x";
    if b == ":" + a {
      i := "x:";
    } else {
      i := "x::" + b[..|b| - |a| - 2];
      assert b == b[..|b| - |a| - 2] + ("::" + a);
    }
  }

  /** Two resources can be confused by their keys exactly when one id shadows the other. */
  lemma KeysClash(a: string, b: string)
    requires a != b
    ensures (exists i, j :: i != "" && j != "" && AclKey(i, a) == AclKey(j, b)) <==> Shadows(a, b) || Shadows(b, a)
  {
    if i, j :| i != "" && j != "" && AclKey(i, a) == AclKey(j, b) {
      KeysSeparate(i, a, j, b);
    }
    if Shadows(a, b) {
      var i, j := ShadowGivesClash(a, b);
    } else if Shadows(b, a) {
      var j, i := ShadowGivesClash(b, a);
      assert AclKey(i, a) == AclKey(j, b);
    }
  }

  lemma ColonFreeIsUnshadowed(rs: seq<Resource>)
    requires forall r <- rs :: ':' !in r.id
    ensures Unshadowed(rs)
  {
    forall r <- rs, s <- rs ensures !Shadows(r.id, s.id) {
      if |r.id| + 2 <= |s.id| {
        assert s.id[|s.id| - |r.id| - 2] in s.id;
      }
      assert s.id != "" ==> s.id[0] in s.id;
    }
  }

  // ---------- The tables decide as the scan does ----------

  lemma AclMeaning(p: Platform, rs: seq<Resource>, r: Resource, identity: string)
    requires DistinctIds(rs) && Unshadowed(rs) && r in rs
    ensures AclKey(identity, r.id) in Build(p, rs).acl <==> Granted(r, identity)
  {
    hide Build, Shadows;
    var key := AclKey(identity, r.id);
    AclTable(p, rs, key);
    if Granted(r, identity) {
      assert key in AclKeys(r.identities, r.id);
    }
    if s :| s in rs && key in AclKeys(s.identities, s.id) {
      var i :| i in s.identities && i != "" && key == AclKey(i, s.id);
      KeysSeparate(i, s.id, identity, r.id);
      SameId(rs, r, s);
    }
  }

  lemma SameId(rs: seq<Resource>, r: Resource, s: Resource)
    requires DistinctIds(rs) && r in rs && s in rs && r.id == s.id
    ensures r == s
  {
  }

  lemma AdmitsIsPermits(p: Platform, ports: (Resource, int) -> bool, rs: seq<Resource>, r: Resource, q: Request)
    requires DistinctIds(rs) && Unshadowed(rs) && r in rs && ports(r, q.port) == PortOpen(r, q.port)
    ensures Admits(p, ports, Build(p, rs), r.id, q) <==> Permits(p, r, q)
  {
    IdTable(p, rs);
    AclMeaning(p, rs, r, q.identity);
  }

  lemma {:induction false} FirstAdmittedIsFirstPermitted(
    p: Platform, ports: (Resource, int) -> bool, rs: seq<Resource>, tier: seq<Resource>, q: Request)
    requires DistinctIds(rs) && Unshadowed(rs) && (forall r <- tier :: r in rs)
    requires forall r <- rs :: ports(r, q.port) == PortOpen(r, q.port)
    ensures FirstAdmitted(p, ports, Build(p, rs), Ids(tier), q) == FirstPermitted(p, tier, q)
  {
    if tier != [] {
      AdmitsIsPermits(p, ports, rs, tier[0], q);
      FirstAdmittedIsFirstPermitted(p, ports, rs, tier[1..], q);
      assert Ids(tier)[1..] == Ids(tier[1..]);
    }
  }

  lemma WinningTierWithin(p: Platform, rs: seq<Resource>, dest: string)
    ensures forall r <- WinningTier(p, rs, dest) :: r in rs
  {
    var key := p.fold(dest);
    forall r <- WinningTier(p, rs, dest) ensures r in rs {
      SelectMembers(rs, r => AtName(p, r, key), r);
      SelectMembers(rs, r => IsInternet(p, r), r);
      if p.parseIp(key).Some? {
        var ip := p.parseIp(key).value;
        SelectMembers(rs, r => AtIp(p, r, ip), r);
        SelectMembers(rs, r => InNet(p, r, ip), r);
      }
    }
  }

  /** Decision, reason and resource id from the six tables are those of the plain scan of the snapshot. */
  lemma {:induction false} RefinesScan(p: Platform, ports: (Resource, int) -> bool, rs: seq<Resource>, q: Request)
    requires DistinctIds(rs) && Unshadowed(rs)
    requires forall r <- rs :: ports(r, q.port) == PortOpen(r, q.port)
    ensures Decide(p, ports, Build(p, rs), q) == Scan(p, rs, q)
  {
    var tier := WinningTier(p, rs, q.dest);
    CandidatesAreTheTier(p, rs, q.dest);
    WinningTierWithin(p, rs, q.dest);
    FirstAdmittedIsFirstPermitted(p, ports, rs, tier, q);
    assert |Ids(tier)| == |tier|;
  }

  /** Without that condition on the ids the tables let in an identity that no resource lists. */
  lemma ShadowedIdsMisdecide(p: Platform, a: string, b: string) returns (rs: seq<Resource>, q: Request)
    requires Shadows(a, b) && p.fold("internet") == "internet"
    ensures Ids(rs) == [a, b] && (forall r <- rs :: !Granted(r, q.identity))
    ensures Decide(p, PortOpen, Build(p, rs), q) == Verdict(true, b, "allowed") && !Scan(p, rs, q).allowed
  {
    var i, j := ShadowGivesClash(a, b);
    var ra := Resource(a, "internet", "", 0, "", None, None, [i]);
    var rb := Resource(b, "internet", "", 0, "", None, None, []);
    rs := [ra, rb];
    q := Request(j, "", "", 0);
    assert a != b;
    var t := Build(p, rs);
    assert rs[..1] == [ra] && rs[..1][..0] == [];
    assert Build(p, [ra]) == AddResource(p, EMPTY, ra);
    assert t == AddResource(p, Build(p, [ra]), rb);
    assert t.internet == [a, b] && t.acl == {AclKey(i, a)} && t.byIp == map[] && t.byDns == map[];
    assert AclKey(j, a) != AclKey(i, a) by {
      assert AclKey(j, a)[..|j|] == j && AclKey(i, a)[..|i|] == i;
      assert |AclKey(j, a)| == |j| + 2 + |a| && |AclKey(i, a)| == |i| + 2 + |a|;
    }
    assert Candidates(p, t, "") == [a, b];
    assert FirstAdmitted(p, PortOpen, t, [a, b], q) == FirstAdmitted(p, PortOpen, t, [b], q);
    ScanAllows(p, rs, q);
    WinningTierWithin(p, rs, q.dest);
  }
}
