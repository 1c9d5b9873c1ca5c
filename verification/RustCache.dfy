/** The Rust connector's policy cache: tables overwritten in place, decisions read from them. */
module RustCache {
  import opened Options
  import opened Snapshots
  import opened Signature
  import opened Policy
  import opened Index
  import opened Caching

  predicate PortMatches(r: Resource, port: int)
    ensures PortMatches(r, port) == PortOpen(r, port)
  {
    if r.portFrom.None? && r.portTo.None? then r.port == 0 || port == r.port
    else
      var start := if r.portFrom.Some? then r.portFrom.value else 0;
      var end := if r.portTo.Some? then r.portTo.value else start;
      if start == 0 && end == 0 then true
      else
        var end := if end == 0 then start else end;
        port >= start && port <= end
  }

  /** The wire types: every port is a u16, so other numbers make the message unreadable. */
  predicate Decodes(snap: Snapshot) {
    forall r <- snap.resources ::
      IsU16(r.port) && (r.portFrom.Some? ==> IsU16(r.portFrom.value)) && (r.portTo.Some? ==> IsU16(r.portTo.value))
  }

  predicate IsU16(n: int) {
    0 <= n < 0x1_0000
  }

  /** The numbers that decode are those a conversion to sixteen bits leaves alone. */
  lemma U16Exactly(n: int)
    ensures IsU16(n) <==> n == n % 0x1_0000
  {
  }

  /** A snapshot message that does not decode is ignored; any other replaces what is held, or clears it. */
  function Received(c: Caching.Config, key: Bytes, now: int, held: Contents, snap: Snapshot): Contents {
    if Decodes(snap) then Replaced(c, key, now, snap) else held
  }

  // ---------- Runs with messages that do not decode in between ----------

  /** What a cache holds after messages received one after the other. */
  function AfterAll(c: Caching.Config, key: Bytes, messages: seq<(int, Snapshot)>): Contents {
    if messages == [] then CLEARED
    else
      var (now, snap) := messages[|messages| - 1];
      Received(c, key, now, AfterAll(c, key, messages[..|messages| - 1]), snap)
  }

  /** The messages that decode, as arrivals. */
  function Arrivals(messages: seq<(int, Snapshot)>): seq<Event> {
    if messages == [] then []
    else
      var (now, snap) := messages[|messages| - 1];
      var before := Arrivals(messages[..|messages| - 1]);
      if Decodes(snap) then before + [Arrive(now, snap)] else before
  }

  lemma {:induction false} RunsOnWhatDecodes(c: Caching.Config, key: Bytes, messages: seq<(int, Snapshot)>)
    ensures Run(c, key, Arrivals(messages)) == State(key, AfterAll(c, key, messages))
  {
    hide Decodes, Replaced;
    if messages != [] {
      RunsOnWhatDecodes(c, key, messages[..|messages| - 1]);
      var arrivals := Arrivals(messages);
      assert arrivals != [] ==> arrivals[..|arrivals| - 1] + [arrivals[|arrivals| - 1]] == arrivals;
    }
  }

  /** The last message that decodes, with its time. */
  function LastDecodable(messages: seq<(int, Snapshot)>): Option<(int, Snapshot)> {
    if messages == [] then None
    else
      var last := messages[|messages| - 1];
      if Decodes(last.1) then Some(last) else LastDecodable(messages[..|messages| - 1])
  }

  /**
   After any messages the cache is the index of the last one that decodes, if that was acceptable on arrival,
   and empty otherwise; what does not decode might as well not have come.
   */
  lemma {:induction false} HoldsTheLastDecodable(c: Caching.Config, key: Bytes, messages: seq<(int, Snapshot)>)
    ensures AfterAll(c, key, messages)
         == match LastDecodable(messages)
            case None => CLEARED
            case Some((now, snap)) => if Accepted(c, key, now, snap) then Holding(c, snap) else CLEARED
  {
    hide Decodes, Accepted;
    if messages != [] {
      HoldsTheLastDecodable(c, key, messages[..|messages| - 1]);
    }
  }

  class PolicyCache {
    const scheme: Scheme
    const platform: Platform
    const signingKey: Bytes
    const staleGrace: nat
    var byId: map<string, Resource>
    var byDns: map<string, seq<string>>
    var byIp: map<Ip, seq<string>>
    var cidrList: seq<(Net, string)>
    var internetIds: seq<string>
    var aclTable: set<string>
    var validUntil: Option<int>
    var hasSnapshot: bool

    constructor (scheme: Scheme, platform: Platform, signingKey: Bytes, staleGrace: nat)
      ensures this.scheme == scheme && this.platform == platform
      ensures this.signingKey == signingKey && this.staleGrace == staleGrace
      ensures Held() == CLEARED
    {
      this.scheme, this.platform, this.signingKey, this.staleGrace := scheme, platform, signingKey, staleGrace;
      byId, byDns, byIp, cidrList, internetIds, aclTable := map[], map[], map[], [], [], {};
      validUntil, hasSnapshot := None, false;
    }

    ghost function Config(): Caching.Config {
      Caching.Config(scheme, platform, PortMatches, staleGrace)
    }

    ghost function Held(): Contents
      reads this
    {
      Contents(Tables(byId, byDns, byIp, cidrList, internetIds, aclTable), validUntil, hasSnapshot)
    }

    method Clear()
      modifies this
      ensures Held() == CLEARED
    {
      byId, byDns, byIp, cidrList, internetIds, aclTable := map[], map[], map[], [], [], {};
      validUntil, hasSnapshot := None, false;
    }

    method HandleSnapshot(now: int, snap: Snapshot)
      modifies this
      ensures Held() == Received(Config(), signingKey, now, old(Held()), snap)
    {
      if Decodes(snap) {
        var applied := ReplaceSnapshot(now, snap);
      }
    }

    method ReplaceSnapshot(now: int, snap: Snapshot) returns (applied: bool)
      modifies this
      ensures Held() == Replaced(Config(), signingKey, now, snap)
      ensures applied <==> Accepted(Config(), signingKey, now, snap)
    {
      var verified := VerifySnapshot(scheme, signingKey, snap);
      if !verified {
        Clear();
        return false;
      }
      var expiry := platform.parseTime(snap.meta.validUntil);
      if expiry.None? {
        Clear();
        return false;
      }
      if now > expiry.value + staleGrace {
        Clear();
        return false;
      }
      Clear();
      validUntil, hasSnapshot := expiry, true;
      for n := 0 to |snap.resources|
        invariant Held() == Contents(Build(platform, snap.resources[..n]), expiry, true)
      {
        assert snap.resources[..n + 1][..n] == snap.resources[..n];
        AddRow(snap.resources[n]);
      }
      assert snap.resources[..|snap.resources|] == snap.resources;
      applied := true;
    }

    /** One turn of the filling loop. */
    method AddRow(r: Resource)
      modifies this
      ensures Held() == old(Held()).(tables := AddResource(platform, old(Held()).tables, r))
    {
      byId := byId[r.id := r];
      var addr := platform.fold(r.address);
      var kind := platform.fold(r.kind);
      if kind == "internet" {
        internetIds := internetIds + [r.id];
      } else if kind == "cidr" {
        var net := platform.parseNet(addr);
        if net.Some? {
          cidrList := cidrList + [(net.value, r.id)];
        }
      } else if addr != "" {
        byDns := Append(byDns, addr, r.id);
        var ip := platform.parseIp(addr);
        if ip.Some? {
          byIp := Append(byIp, ip.value, r.id);
        }
      }
      AddIdentities(r);
    }

    method AddIdentities(r: Resource)
      modifies this`aclTable
      ensures aclTable == old(aclTable) + AclKeys(r.identities, r.id)
    {
      for i := 0 to |r.identities|
        invariant aclTable == old(aclTable) + AclKeys(r.identities[..i], r.id)
      {
        AclKeysGrow(r.identities, i, r.id);
        if r.identities[i] != "" {
          aclTable := aclTable + {AclKey(r.identities[i], r.id)};
        }
      }
      assert r.identities[..|r.identities|] == r.identities;
    }

    method Allowed(now: int, q: Request) returns (v: Verdict)
      ensures v == Answer(Config(), Held(), now, q)
    {
      if !hasSnapshot {
        return Verdict(false, "", "no_snapshot");
      }
      if validUntil.Some? && now > validUntil.value + staleGrace {
        return Verdict(false, "", "snapshot_expired");
      }
      var ids := CandidateIds(q.dest);
      if |ids| == 0 {
        return Verdict(false, "", "resource_not_found");
      }
      ghost var ports := PortMatches;
      ghost var t := Held().tables;
      var seen: set<string> := {};
      for i := 0 to |ids|
        invariant forall id <- seen :: !Admits(platform, ports, t, id, q)
        invariant FirstAdmitted(platform, ports, t, ids, q) == FirstAdmitted(platform, ports, t, ids[i..], q)
      {
        var id := ids[i];
        assert ids[i..][0] == id && ids[i..][1..] == ids[i + 1..];
        if id in seen {
          continue;
        }
        seen := seen + {id};
        if id !in byId {
          continue;
        }
        var res := byId[id];
        if res.protocol != "" && q.protocol != "" && !platform.sameProtocol(res.protocol, q.protocol) {
          continue;
        }
        if !PortMatches(res, q.port) {
          continue;
        }
        if AclKey(q.identity, id) in aclTable {
          return Verdict(true, id, "allowed");
        }
      }
      v := Verdict(false, "", "not_allowed");
    }

    method CandidateIds(dest: string) returns (ids: seq<string>)
      ensures ids == Candidates(platform, Held().tables, dest)
    {
      var key := platform.fold(dest);
      ids := [];
      var ip := platform.parseIp(key);
      if ip.Some? {
        ids := Entries(byIp, ip.value);
        for i := 0 to |cidrList|
          invariant ids == Entries(byIp, ip.value) + NetIds(platform, cidrList[..i], ip.value)
        {
          assert cidrList[..i + 1][..i] == cidrList[..i];
          if platform.contains(cidrList[i].0, ip.value) {
            ids := ids + [cidrList[i].1];
          }
        }
        assert cidrList[..|cidrList|] == cidrList;
      }
      if |ids| == 0 && key != "" {
        ids := Entries(byDns, key);
      }
      if |ids| == 0 && |internetIds| > 0 {
        ids := internetIds;
      }
    }
  }
}
