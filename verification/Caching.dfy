/** What a connector's policy cache holds and answers, as values; both cache classes are proved against this. */
module Caching {
  import opened Options
  import opened Snapshots
  import opened Signature
  import opened Policy
  import opened Index

  /** The parts of a cache that never change. Times and durations are in nanoseconds. */
  datatype Config = Config(scheme: Scheme, platform: Platform, ports: (Resource, int) -> bool, staleGrace: nat)

  datatype Contents = Contents(tables: Tables, validUntil: Option<int>, hasSnapshot: bool)

  const CLEARED := Contents(EMPTY, None, false)

  /** A snapshot is taken over when it verifies, its expiry reads as a time, and that time plus grace is not past. */
  predicate Accepted(c: Config, key: Bytes, now: int, snap: Snapshot) {
    && Verifies(c.scheme, key, snap)
    && c.platform.parseTime(snap.meta.validUntil).Some?
    && now <= c.platform.parseTime(snap.meta.validUntil).value + c.staleGrace
  }

  function Holding(c: Config, snap: Snapshot): Contents {
    Contents(Build(c.platform, snap.resources), c.platform.parseTime(snap.meta.validUntil), true)
  }

  function Replaced(c: Config, key: Bytes, now: int, snap: Snapshot): Contents {
    if Accepted(c, key, now, snap) then Holding(c, snap) else CLEARED
  }

  function Answer(c: Config, held: Contents, now: int, q: Request): Verdict {
    if !held.hasSnapshot then Verdict(false, "", "no_snapshot")
    else if held.validUntil.Some? && now > held.validUntil.value + c.staleGrace then
      Verdict(false, "", "snapshot_expired")
    else Decide(c.platform, c.ports, held.tables, q)
  }

  // ---------- Runs: snapshots arriving and keys changing in any order ----------

  datatype Event =
    | Arrive(now: int, snap: Snapshot)
    | SetKey(key: Bytes)

  datatype State = State(key: Bytes, held: Contents)

  function Step(c: Config, s: State, e: Event): State {
    match e
    case Arrive(now, snap) => s.(held := Replaced(c, s.key, now, snap))
    case SetKey(key) => s.(key := key)
  }

  function Run(c: Config, key: Bytes, events: seq<Event>): State {
    if events == [] then State(key, CLEARED)
    else Step(c, Run(c, key, events[..|events| - 1]), events[|events| - 1])
  }

  /** The most recent arrival and the key that was set at that moment. */
  datatype Arrival = Arrival(key: Bytes, now: int, snap: Snapshot)

  function KeyAfter(key: Bytes, events: seq<Event>): Bytes {
    if events == [] then key
    else
      var last := events[|events| - 1];
      if last.SetKey? then last.key else KeyAfter(key, events[..|events| - 1])
  }

  function LastArrival(key: Bytes, events: seq<Event>): Option<Arrival> {
    if events == [] then None
    else
      var last, before := events[|events| - 1], events[..|events| - 1];
      if last.Arrive? then Some(Arrival(KeyAfter(key, before), last.now, last.snap)) else LastArrival(key, before)
  }

  predicate WasAccepted(c: Config, a: Option<Arrival>) {
    a.Some? && Accepted(c, a.value.key, a.value.now, a.value.snap)
  }

  /**
   After any run the cache is either wholly empty or exactly the index of the most recent snapshot, and the
   latter just when that snapshot verified and was within grace on arrival.
   */
  lemma {:induction false} HoldsTheLastArrival(c: Config, key: Bytes, events: seq<Event>)
    ensures var last := LastArrival(key, events);
            Run(c, key, events).held == if WasAccepted(c, last) then Holding(c, last.value.snap) else CLEARED
    ensures Run(c, key, events).key == KeyAfter(key, events)
  {
    if events != [] {
      HoldsTheLastArrival(c, key, events[..|events| - 1]);
    }
  }

  /**
   Why a cache denies without looking anything up: nothing acceptable was the last to arrive, or what was is past
   its expiry and grace.
   */
  lemma DenialsExplained(c: Config, key: Bytes, events: seq<Event>, t: int, q: Request)
    ensures var last, v := LastArrival(key, events), Answer(c, Run(c, key, events).held, t, q);
            if !WasAccepted(c, last) then v == Verdict(false, "", "no_snapshot")
            else if t > c.platform.parseTime(last.value.snap.meta.validUntil).value + c.staleGrace
            then v == Verdict(false, "", "snapshot_expired")
            else v == Decide(c.platform, c.ports, Build(c.platform, last.value.snap.resources), q)
  {
    HoldsTheLastArrival(c, key, events);
  }

  /** An allow at time t means the last snapshot to arrive was accepted, is within grace at t, and permits it. */
  lemma {:induction false} AllowsOnlyInDate(c: Config, key: Bytes, events: seq<Event>, t: int, q: Request)
    requires Answer(c, Run(c, key, events).held, t, q).allowed
    ensures var last := LastArrival(key, events);
            && WasAccepted(c, last)
            && t <= c.platform.parseTime(last.value.snap.meta.validUntil).value + c.staleGrace
            && (DistinctIds(last.value.snap.resources) && Unshadowed(last.value.snap.resources)
                && (forall r <- last.value.snap.resources :: c.ports(r, q.port) == PortOpen(r, q.port))
                ==> Scan(c.platform, last.value.snap.resources, q).allowed)
  {
    HoldsTheLastArrival(c, key, events);
    var snap := LastArrival(key, events).value.snap;
    if DistinctIds(snap.resources) && Unshadowed(snap.resources)
       && forall r <- snap.resources :: c.ports(r, q.port) == PortOpen(r, q.port) {
      RefinesScan(c.platform, c.ports, snap.resources, q);
    }
  }
}
