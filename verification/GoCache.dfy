/** The Go connector's policy cache: the twin of the Rust one, with a signing key that can change. */
module GoCache {
  import opened Options
  import opened Snapshots
  import opened Signature
  import opened Policy
  import opened Index
  import opened Caching
  import RustCache

  /** Without bounds the resource's port goes through a uint16 conversion before it is compared. */
  predicate PortMatches(r: Resource, port: int) {
    if r.portFrom.None? && r.portTo.None? then
      r.port == 0 || port == r.port % 0x1_0000
    else
      var start := if r.portFrom.Some? then r.portFrom.value else 0;
      var end := if r.portTo.Some? then r.portTo.value else 0;
      if start == 0 && end == 0 then true
      else
        var end := if end == 0 then start else end;
        port >= start && port <= end
  }

  predicate PortFits(r: Resource) {
    r.portFrom.Some? || r.portTo.Some? || 0 <= r.port < 0x1_0000
  }

  /** The conversion is harmless exactly for resources with a bound or with a port that fits 16 bits. */
  lemma PortMatchesExact(r: Resource)
    ensures (forall port: int | 0 <= port < 0x1_0000 :: PortMatches(r, port) == PortOpen(r, port)) <==> PortFits(r)
  {
    if !PortFits(r) {
      var port := r.port % 0x1_0000;
      assert PortMatches(r, port) && !PortOpen(r, port);
    }
  }

  class PolicyCache {
    const scheme: Scheme
    const platform: Platform
    const staleGrace: nat
    var signingKey: Bytes
    var byID: map<string, Resource>
    var byDNS: map<string, seq<string>>
    var byIP: map<Ip, seq<string>>
    var byCIDR: seq<(Net, string)>
    var internetIDs: seq<string>
    var aclTable: set<string>
    var meta: Meta
    var validUntil: Option<int>
    var hasSnapshot: bool

    constructor (scheme: Scheme, platform: Platform, signingKey: Bytes, staleGrace: nat)
      ensures this.scheme == scheme && this.platform == platform && this.staleGrace == staleGrace
      ensures this.signingKey == signingKey && Held() == CLEARED
    {
      this.scheme, this.platform, this.signingKey, this.staleGrace := scheme, platform, signingKey, staleGrace;
      byID, byDNS, byIP, byCIDR, internetIDs, aclTable := map[], map[], map[], [], [], {};
      meta, validUntil, hasSnapshot := NO_META, None, false;
    }

    ghost function Config(): Caching.Config {
      Caching.Config(scheme, platform, PortMatches, staleGrace)
    }

    ghost function Held(): Contents
      reads this
    {
      Contents(Tables(byID, byDNS, byIP, byCIDR, internetIDs, aclTable), validUntil, hasSnapshot)
    }

    /** The state of a run, as Caching.Step moves it. */
    ghost function State(): Caching.State
      reads this
    {
      Caching.State(signingKey, Held())
    }

    method SetSigningKey(key: Bytes)
      modifies this`signingKey
      ensures State() == Step(Config(), old(State()), SetKey(key))
    {
      signingKey := key;
    }

    method Clear()
      modifies this
      ensures Held() == CLEARED && meta == NO_META && signingKey == old(signingKey)
    {
      byID, byDNS, byIP, byCIDR, internetIDs, aclTable := map[], map[], map[], [], [], {};
      hasSnapshot, meta, validUntil := false, NO_META, None;
    }

    method ReplaceSnapshot(now: int, snap: Snapshot) returns (applied: bool)
      modifies this
      ensures State() == Step(Config(), old(State()), Arrive(now, snap))
      ensures applied <==> Accepted(Config(), signingKey, now, snap)
      ensures meta == if applied then snap.meta else NO_META
    {
      hide Verifies, AddResource;
      var verified := VerifySnapshot(scheme, signingKey, snap);
      if !verified {
        Clear();
        return false;
      }
      var expiry := platform.parseTime(snap.meta.validUntil);
      if expiry.None? {
        Clear();
        return false;
      }
      if now > expiry.value + staleGrace {
        Clear();
        return false;
      }
      byID, byDNS, byIP, byCIDR, internetIDs, aclTable := map[], map[], map[], [], [], {};
      for n := 0 to |snap.resources|
        invariant Held().tables == Build(platform, snap.resources[..n]) && signingKey == old(signingKey)
      {
        assert snap.resources[..n + 1][..n] == snap.resources[..n];
        AddRow(snap.resources[n]);
      }
      assert snap.resources[..|snap.resources|] == snap.resources;
      meta, validUntil, hasSnapshot := snap.meta, expiry, true;
      applied := true;
    }

    /** One turn of the filling loop. */
    method AddRow(r: Resource)
      modifies this
      ensures Held() == old(Held()).(tables := AddResource(platform, old(Held()).tables, r))
      ensures signingKey == old(signingKey)
    {
      byID := byID[r.id := r];
      var addr := platform.fold(r.address);
      var kind := platform.fold(r.kind);
      if kind == "internet" {
        internetIDs := internetIDs + [r.id];
      } else if kind == "cidr" {
        var net := platform.parseNet(addr);
        if net.Some? {
          byCIDR := byCIDR + [(net.value, r.id)];
        }
      } else if addr != "" {
        byDNS := Append(byDNS, addr, r.id);
        var ip := platform.parseIp(addr);
        if ip.Some? {
          byIP := Append(byIP, ip.value, r.id);
        }
      }
      AddIdentities(r);
    }

    method AddIdentities(r: Resource)
      modifies this`aclTable
      ensures aclTable == old(aclTable) + AclKeys(r.identities, r.id)
    {
      for i := 0 to |r.identities|
        invariant aclTable == old(aclTable) + AclKeys(r.identities[..i], r.id)
      {
        AclKeysGrow(r.identities, i, r.id);
        if r.identities[i] == "" {
          continue;
        }
        aclTable := aclTable + {AclKey(r.identities[i], r.id)};
      }
      assert r.identities[..|r.identities|] == r.identities;
    }

    method Allowed(now: int, q: Request) returns (v: Verdict)
      ensures v == Answer(Config(), Held(), now, q)
    {
      if !hasSnapshot {
        return Verdict(false, "", "no_snapshot");
      }
      if validUntil.Some? && now > validUntil.value + staleGrace {
        return Verdict(false, "", "snapshot_expired");
      }
      var ids := CandidateIDs(q.dest);
      if |ids| == 0 {
        return Verdict(false, "", "resource_not_found");
      }
      ghost var ports := PortMatches;
      ghost var t := Held().tables;
      var seen: set<string> := {};
      for i := 0 to |ids|
        invariant forall id <- seen :: !Admits(platform, ports, t, id, q)
        invariant FirstAdmitted(platform, ports, t, ids, q) == FirstAdmitted(platform, ports, t, ids[i..], q)
      {
        var id := ids[i];
        assert ids[i..][0] == id && ids[i..][1..] == ids[i + 1..];
        if id in seen {
          continue;
        }
        seen := seen + {id};
        if id !in byID {
          continue;
        }
        var res := byID[id];
        if res.protocol != "" && q.protocol != "" && !platform.sameProtocol(res.protocol, q.protocol) {
          continue;
        }
        if !PortMatches(res, q.port) {
          continue;
        }
        if AclKey(q.identity, id) in aclTable {
          return Verdict(true, id, "allowed");
        }
      }
      v := Verdict(false, "", "not_allowed");
    }

    method CandidateIDs(dest: string) returns (ids: seq<string>)
      ensures ids == Candidates(platform, Held().tables, dest)
    {
      var key := platform.fold(dest);
      ids := [];
      var ip := platform.parseIp(key);
      if ip.Some? {
        ids := Entries(byIP, ip.value);
        for i := 0 to |byCIDR|
          invariant ids == Entries(byIP, ip.value) + NetIds(platform, byCIDR[..i], ip.value)
        {
          assert byCIDR[..i + 1][..i] == byCIDR[..i];
          if platform.contains(byCIDR[i].0, ip.value) {
            ids := ids + [byCIDR[i].1];
          }
        }
        assert byCIDR[..|byCIDR|] == byCIDR;
      }
      if |ids| == 0 && key != "" {
        ids := Entries(byDNS, key);
      }
      if |ids| == 0 && |internetIDs| > 0 {
        ids := internetIDs;
      }
    }
  }

  const NO_META := Meta("", 0, "", "", "")

  // ---------- The two caches agree ----------

  /** The two languages' libraries treat every text and address alike. */
  ghost predicate Alike(p: Platform, p': Platform) {
    && (forall s :: p.fold(s) == p'.fold(s))
    && (forall a, b :: p.sameProtocol(a, b) == p'.sameProtocol(a, b))
    && (forall s :: p.parseIp(s) == p'.parseIp(s))
    && (forall s :: p.parseNet(s) == p'.parseNet(s))
    && (forall net, ip :: p.contains(net, ip) == p'.contains(net, ip))
  }

  lemma {:induction false} BuildAlike(p: Platform, p': Platform, rs: seq<Resource>)
    requires Alike(p, p')
    ensures Build(p, rs) == Build(p', rs)
  {
    if rs != [] {
      BuildAlike(p, p', rs[..|rs| - 1]);
      assert KindOf(p, rs[|rs| - 1]) == KindOf(p', rs[|rs| - 1]);
    }
  }

  lemma {:induction false} NetIdsAlike(p: Platform, p': Platform, nets: seq<(Net, string)>, ip: Ip)
    requires Alike(p, p')
    ensures NetIds(p, nets, ip) == NetIds(p', nets, ip)
  {
    if nets != [] {
      NetIdsAlike(p, p', nets[..|nets| - 1], ip);
      assert p.contains(nets[|nets| - 1].0, ip) == p'.contains(nets[|nets| - 1].0, ip);
    }
  }

  lemma {:induction false} IdTableWithin(p: Platform, rs: seq<Resource>)
    ensures forall id <- Build(p, rs).byId :: Build(p, rs).byId[id] in rs
  {
    if rs != [] {
      IdTableWithin(p, rs[..|rs| - 1]);
      assert rs == rs[..|rs| - 1] + [rs[|rs| - 1]];
    }
  }

  lemma {:induction false} FirstAdmittedAlike(
    p: Platform, p': Platform, f: (Resource, int) -> bool, g: (Resource, int) -> bool,
    t: Tables, ids: seq<string>, q: Request)
    requires Alike(p, p') && forall id <- t.byId :: f(t.byId[id], q.port) == g(t.byId[id], q.port)
    ensures FirstAdmitted(p, f, t, ids, q) == FirstAdmitted(p', g, t, ids, q)
  {
    if ids != [] {
      FirstAdmittedAlike(p, p', f, g, t, ids[1..], q);
    }
  }

  /** Given the same snapshot, whatever its ids, the Go and the Rust cache answer every 16-bit port alike. */
  lemma {:induction false} CachesAgree(p: Platform, p': Platform, rs: seq<Resource>, q: Request)
    requires Alike(p, p') && q.port < 0x1_0000 && forall r <- rs :: PortFits(r)
    ensures Decide(p, PortMatches, Build(p, rs), q) == Decide(p', RustCache.PortMatches, Build(p', rs), q)
  {
    BuildAlike(p, p', rs);
    var t := Build(p, rs);
    IdTableWithin(p, rs);
    forall id <- t.byId ensures PortMatches(t.byId[id], q.port) == RustCache.PortMatches(t.byId[id], q.port) {
      PortMatchesExact(t.byId[id]);
    }
    if p.parseIp(p.fold(q.dest)).Some? {
      NetIdsAlike(p, p', t.nets, p.parseIp(p.fold(q.dest)).value);
    }
    FirstAdmittedAlike(p, p', PortMatches, RustCache.PortMatches, t, Candidates(p, t, q.dest), q);
  }
}
