/**
 What a policy decision means: a plain scan of the snapshot's resources, independent of any index.
 Addresses are parsed and compared by the platform's libraries, which appear as parameters.
 */
module Policy {
  import opened Options
  import opened Snapshots

  /** Go keys its table by the canonical text of an address, Rust by the address itself. */
  datatype Ip = Ip(canonical: string)

  datatype Net = Net(canonical: string)

  datatype Platform = Platform(
    fold: string -> string,                  // trim and lower-case
    sameProtocol: (string, string) -> bool,  // equality up to letter case
    parseIp: string -> Option<Ip>,
    parseNet: string -> Option<Net>,
    contains: (Net, Ip) -> bool,
    parseTime: string -> Option<int>)        // RFC 3339 text to nanoseconds since the epoch

  datatype Request = Request(identity: string, dest: string, protocol: string, port: nat)

  datatype Verdict = Verdict(allowed: bool, resource: string, reason: string)

  datatype Kind = Internet | Cidr | Host

  function KindOf(p: Platform, r: Resource): Kind {
    var kind := p.fold(r.kind);
    if kind == "internet" then Internet else if kind == "cidr" then Cidr else Host
  }

  // ---------- The three tiers ----------

  /** The resource names this one address. */
  predicate AtIp(p: Platform, r: Resource, ip: Ip) {
    KindOf(p, r) == Host && p.fold(r.address) != "" && p.parseIp(p.fold(r.address)) == Some(ip)
  }

  predicate InNet(p: Platform, r: Resource, ip: Ip) {
    KindOf(p, r) == Cidr && p.parseNet(p.fold(r.address)).Some? && p.contains(p.parseNet(p.fold(r.address)).value, ip)
  }

  predicate AtName(p: Platform, r: Resource, key: string) {
    KindOf(p, r) == Host && p.fold(r.address) == key && key != ""
  }

  predicate IsInternet(p: Platform, r: Resource) {
    KindOf(p, r) == Internet
  }

  function Select(rs: seq<Resource>, f: Resource -> bool): seq<Resource> {
    if rs == [] then []
    else
      var last := rs[|rs| - 1];
      Select(rs[..|rs| - 1], f) + if f(last) then [last] else []
  }

  /** Addresses first, then networks, each in snapshot order; nothing when the destination is not an address. */
  function AddressTier(p: Platform, rs: seq<Resource>, key: string): seq<Resource> {
    match p.parseIp(key)
    case None => []
    case Some(ip) => Select(rs, r => AtIp(p, r, ip)) + Select(rs, r => InNet(p, r, ip))
  }

  function NameTier(p: Platform, rs: seq<Resource>, key: string): seq<Resource> {
    Select(rs, r => AtName(p, r, key))
  }

  function InternetTier(p: Platform, rs: seq<Resource>): seq<Resource> {
    Select(rs, r => IsInternet(p, r))
  }

  /** The first tier that is not empty decides; later tiers are never consulted. */
  function WinningTier(p: Platform, rs: seq<Resource>, dest: string): seq<Resource> {
    var key := p.fold(dest);
    if AddressTier(p, rs, key) != [] then AddressTier(p, rs, key)
    else if NameTier(p, rs, key) != [] then NameTier(p, rs, key)
    else InternetTier(p, rs)
  }

  // ---------- What one resource permits ----------

  predicate ProtocolOpen(p: Platform, r: Resource, protocol: string) {
    r.protocol == "" || protocol == "" || p.sameProtocol(r.protocol, protocol)
  }

  /**
   The ports a resource opens: without bounds its single port, or every port when that is 0; with bounds the
   closed range, where an absent bound counts as 0, an upper bound of 0 means the lower one, and two zeros
   mean every port.
   */
  predicate PortOpen(r: Resource, port: int) {
    var from := if r.portFrom.Some? then r.portFrom.value else 0;
    var to := if r.portTo.Some? then r.portTo.value else 0;
    if r.portFrom.None? && r.portTo.None? then r.port == 0 || port == r.port
    else (from == 0 && to == 0) || from <= port <= (if to == 0 then from else to)
  }

  /** An identity is granted on a resource by being listed there; the empty identity never is. */
  predicate Granted(r: Resource, identity: string) {
    identity != "" && identity in r.identities
  }

  predicate Permits(p: Platform, r: Resource, q: Request) {
    ProtocolOpen(p, r, q.protocol) && PortOpen(r, q.port) && Granted(r, q.identity)
  }

  function FirstPermitted(p: Platform, tier: seq<Resource>, q: Request): Verdict {
    if tier == [] then Verdict(false, "", "not_allowed")
    else if Permits(p, tier[0], q) then Verdict(true, tier[0].id, "allowed")
    else FirstPermitted(p, tier[1..], q)
  }

  function Scan(p: Platform, rs: seq<Resource>, q: Request): Verdict {
    var tier := WinningTier(p, rs, q.dest);
    if tier == [] then Verdict(false, "", "resource_not_found") else FirstPermitted(p, tier, q)
  }

  // ---------- Facts about the scan ----------

  /** A resource or a request that names no protocol leaves only port and identity to ask about. */
  lemma NoProtocolMatchesAll(p: Platform, r: Resource, q: Request)
    requires r.protocol == "" || q.protocol == ""
    ensures Permits(p, r, q) <==> PortOpen(r, q.port) && Granted(r, q.identity)
  {
  }

  /** The first resource of the tier to permit the request. */
  predicate IsFirstPermitted(p: Platform, tier: seq<Resource>, q: Request, k: nat) {
    k < |tier| && Permits(p, tier[k], q) && forall i :: 0 <= i < k ==> !Permits(p, tier[i], q)
  }

  lemma {:induction false} FirstPermittedIsFirst(p: Platform, tier: seq<Resource>, q: Request, k: nat)
    requires IsFirstPermitted(p, tier, q, k)
    ensures FirstPermitted(p, tier, q) == Verdict(true, tier[k].id, "allowed")
  {
    hide Permits;
    if k > 0 {
      assert !Permits(p, tier[0], q);
      assert forall i :: 0 <= i < k - 1 ==> tier[1..][i] == tier[i + 1];
      FirstPermittedIsFirst(p, tier[1..], q, k - 1);
    }
  }

  lemma {:induction false} NonePermitted(p: Platform, tier: seq<Resource>, q: Request)
    requires forall r <- tier :: !Permits(p, r, q)
    ensures FirstPermitted(p, tier, q) == Verdict(false, "", "not_allowed")
  {
    if tier != [] {
      NonePermitted(p, tier[1..], q);
    }
  }

  /** The whole verdict: the first resource to permit allows, and a denial has one of two reasons. */
  lemma ScanExplained(p: Platform, rs: seq<Resource>, q: Request, k: nat)
    ensures var tier, v := WinningTier(p, rs, q.dest), Scan(p, rs, q);
            && (IsFirstPermitted(p, tier, q, k) ==> v == Verdict(true, tier[k].id, "allowed"))
            && (tier == [] ==> v == Verdict(false, "", "resource_not_found"))
            && (tier != [] && (forall r <- tier :: !Permits(p, r, q)) ==> v == Verdict(false, "", "not_allowed"))
  {
    hide WinningTier, Permits;
    var tier := WinningTier(p, rs, q.dest);
    if IsFirstPermitted(p, tier, q, k) {
      FirstPermittedIsFirst(p, tier, q, k);
    } else if forall r <- tier :: !Permits(p, r, q) {
      NonePermitted(p, tier, q);
    }
  }

  lemma {:induction false} SelectMembers(rs: seq<Resource>, f: Resource -> bool, r: Resource)
    ensures r in Select(rs, f) <==> r in rs && f(r)
  {
    if rs != [] {
      var n := |rs| - 1;
      SelectMembers(rs[..n], f, r);
      assert rs == rs[..n] + [rs[n]];
    }
  }

  lemma {:induction false} SelectEmpty(rs: seq<Resource>, f: Resource -> bool)
    ensures Select(rs, f) == [] <==> forall r <- rs :: !f(r)
  {
    if rs != [] {
      var n := |rs| - 1;
      SelectEmpty(rs[..n], f);
      assert rs == rs[..n] + [rs[n]];
    }
  }

  lemma {:induction false} FirstPermittedAllows(p: Platform, tier: seq<Resource>, q: Request)
    ensures FirstPermitted(p, tier, q).allowed <==> exists r :: r in tier && Permits(p, r, q)
  {
    if tier != [] {
      FirstPermittedAllows(p, tier[1..], q);
      assert tier == [tier[0]] + tier[1..];
      assert tier[0] in tier;
    }
  }

  /** The scan allows exactly when some resource of the winning tier permits the request. */
  lemma ScanAllows(p: Platform, rs: seq<Resource>, q: Request)
    ensures Scan(p, rs, q).allowed <==> exists r :: r in WinningTier(p, rs, q.dest) && Permits(p, r, q)
  {
    FirstPermittedAllows(p, WinningTier(p, rs, q.dest), q);
  }

  /** A destination that is an address never gains anything from the name tier. */
  lemma AddressSkipsNames(p: Platform, rs: seq<Resource>, key: string)
    requires p.parseIp(key).Some? && AddressTier(p, rs, key) == []
    ensures NameTier(p, rs, key) == []
  {
    var ip := p.parseIp(key).value;
    SelectEmpty(rs, r => AtIp(p, r, ip));
    forall r <- rs ensures !AtName(p, r, key) {
      assert !AtIp(p, r, ip);
    }
    SelectEmpty(rs, r => AtName(p, r, key));
  }
}
