/**
 The allowlist protocol as a state machine. Enrolments, broadcasts, connections and deliveries interleave
 freely; a broadcast first registers, then collects the streams of the moment, then sends to one at a time.
 Streams are FIFO and lose nothing while they live, a connector has at most one live stream, and taking the
 listing and sending it is one step.
 */
module Replication {
  import opened Options
  import opened ControlPlane
  import Spiffe

  datatype Stream = Stream(connector: string, queue: seq<Message>, listed: bool, live: bool)

  /** The streams still to be served; none are known until the clients have been collected. */
  datatype Broadcast = Broadcast(item: Info, targets: Option<set<nat>>)

  datatype System = System(
    registry: RegistryValue,
    clients: map<string, nat>,
    streams: seq<Stream>,
    broadcasts: seq<Broadcast>,
    lists: map<string, set<string>>)

  datatype Event =
    | Enrol(id: string)
    | Collect(b: nat)
    | SendTo(b: nat, s: nat)
    | Connect(connector: string)
    | SendListing(s: nat)
    | SendOther(s: nat)
    | Deliver(s: nat)
    | Disconnect(connector: string)

  const START := System(RegistryValue(map[], []), map[], [], [], map[])

  function ListOf(sys: System, connector: string): set<string> {
    if connector in sys.lists then sys.lists[connector] else {}
  }

  function TunnelerInfo(trustDomain: string, id: string): Info {
    Info(id, Spiffe.Uri(trustDomain, "tunneler", id))
  }

  predicate Live(sys: System, s: nat) {
    s < |sys.streams| && sys.streams[s].live
  }

  predicate Enabled(sys: System, e: Event) {
    match e
    case Enrol(id) => Spiffe.ValidID(id)
    case Collect(b) => b < |sys.broadcasts| && sys.broadcasts[b].targets.None?
    case SendTo(b, s) => b < |sys.broadcasts| && sys.broadcasts[b].targets.Some? && s in sys.broadcasts[b].targets.value
    case Connect(connector) => connector !in sys.clients
    case SendListing(s) => Live(sys, s) && !sys.streams[s].listed
    case SendOther(s) => Live(sys, s)
    case Deliver(s) => Live(sys, s) && sys.streams[s].queue != []
    case Disconnect(connector) => connector in sys.clients && sys.clients[connector] < |sys.streams|
  }

  function Push(sys: System, s: nat, m: Message): System
    requires s < |sys.streams|
  {
    sys.(streams := sys.streams[s := sys.streams[s].(queue := sys.streams[s].queue + [m])])
  }

  function Step(trustDomain: string, sys: System, e: Event): System
    requires Enabled(sys, e)
  {
    match e
    case Enrol(id) =>
      var info := TunnelerInfo(trustDomain, id);
      sys.(registry := Added(sys.registry, id, info.spiffeId), broadcasts := sys.broadcasts + [Broadcast(info, None)])
    case Collect(b) =>
      sys.(broadcasts := sys.broadcasts[b := sys.broadcasts[b].(targets := Some(sys.clients.Values))])
    case SendTo(b, s) =>
      var bc := sys.broadcasts[b];
      var sys := sys.(broadcasts := sys.broadcasts[b := bc.(targets := Some(bc.targets.value - {s}))]);
      if Live(sys, s) then Push(sys, s, Allow(bc.item)) else sys
    case Connect(connector) =>
      sys.(clients := sys.clients[connector := |sys.streams|],
           streams := sys.streams + [Stream(connector, [], false, true)])
    case SendListing(s) =>
      var sys := sys.(streams := sys.streams[s := sys.streams[s].(listed := true)]);
      Push(sys, s, Allowlist(Listing(sys.registry)))
    case SendOther(s) => Push(sys, s, Other)
    case Deliver(s) =>
      var st := sys.streams[s];
      sys.(streams := sys.streams[s := st.(queue := st.queue[1..])],
           lists := sys.lists[st.connector := Apply(ListOf(sys, st.connector), st.queue[0])])
    case Disconnect(connector) =>
      var s := sys.clients[connector];
      sys.(clients := sys.clients - {connector},
           streams := sys.streams[s := sys.streams[s].(live := false, queue := [])])
  }

  predicate Waiting(b: Broadcast, s: nat) {
    b.targets.None? || s in b.targets.value
  }

  /** Enrolments whose broadcast has yet to reach stream s. */
  function PendingFor(sys: System, s: nat): set<string> {
    set b | 0 <= b < |sys.broadcasts| && Waiting(sys.broadcasts[b], s) :: sys.broadcasts[b].item.spiffeId
  }

  /** What the connector's allowlist will be once everything in flight on the stream has arrived. */
  function Eventually(sys: System, s: nat): set<string>
    requires s < |sys.streams|
  {
    ApplyAll(ListOf(sys, sys.streams[s].connector), sys.streams[s].queue)
  }

  // ---------- What every step keeps ----------

  predicate RegistryOk(trustDomain: string, r: RegistryValue) {
    WellOrdered(r) && forall id <- r.byId :: r.byId[id] == TunnelerInfo(trustDomain, id)
  }

  predicate StreamsOk(sys: System) {
    && (forall s :: 0 <= s < |sys.streams| && sys.streams[s].live ==>
          sys.streams[s].connector in sys.clients && sys.clients[sys.streams[s].connector] == s)
    && (forall c <- sys.clients ::
          sys.clients[c] < |sys.streams| && sys.streams[sys.clients[c]].connector == c
          && sys.streams[sys.clients[c]].live)
    && (forall s :: 0 <= s < |sys.streams| && !sys.streams[s].live ==> sys.streams[s].queue == [])
  }

  predicate BroadcastsOk(sys: System) {
    forall b <- sys.broadcasts :: b.item.spiffeId != "" && b.item.spiffeId in Registered(sys.registry)
  }

  /** A stream that has been sent its listing converges to exactly what is registered. */
  predicate Converging(sys: System, s: nat)
    requires s < |sys.streams|
  {
    Eventually(sys, s) + PendingFor(sys, s) == Registered(sys.registry)
  }

  predicate AllConverge(sys: System) {
    forall s :: 0 <= s < |sys.streams| && sys.streams[s].live && sys.streams[s].listed ==> Converging(sys, s)
  }

  predicate Invariant(trustDomain: string, sys: System) {
    RegistryOk(trustDomain, sys.registry) && StreamsOk(sys) && BroadcastsOk(sys) && AllConverge(sys)
  }

  lemma RegistryGrows(trustDomain: string, r: RegistryValue, id: string)
    requires RegistryOk(trustDomain, r) && Spiffe.ValidID(id)
    ensures var info := TunnelerInfo(trustDomain, id);
            var r' := Added(r, id, info.spiffeId);
            RegistryOk(trustDomain, r') && Registered(r') == Registered(r) + {info.spiffeId} && info.spiffeId != ""
  {
    var info := TunnelerInfo(trustDomain, id);
    assert info.spiffeId[0] == 's';
    var r' := Added(r, id, info.spiffeId);
    AddedKeepsOrder(r, id, info.spiffeId);
    assert r'.byId == r.byId[id := info];
    assert forall x <- r.byId :: r'.byId[x] == r.byId[x];
    forall x ensures x in Registered(r') <==> x in Registered(r) || x == info.spiffeId {
      if x in Registered(r) {
        var y :| y in r.byId && r.byId[y].spiffeId == x;
        assert r'.byId[y].spiffeId == x;
      }
      assert r'.byId[id].spiffeId == info.spiffeId;
    }
  }

  lemma {:induction false} EnrolKeeps(trustDomain: string, sys: System, id: string)
    requires Invariant(trustDomain, sys) && Spiffe.ValidID(id)
    ensures Invariant(trustDomain, Step(trustDomain, sys, Enrol(id)))
  {
    hide Added, RegistryOk, Registered, TunnelerInfo, Apply;
    var sys' := Step(trustDomain, sys, Enrol(id));
    var info := TunnelerInfo(trustDomain, id);
    RegistryGrows(trustDomain, sys.registry, id);
    var n := |sys.broadcasts|;
    forall s | 0 <= s < |sys.streams| && sys.streams[s].live && sys.streams[s].listed ensures Converging(sys', s) {
      assert Converging(sys, s);
      assert PendingFor(sys', s) == PendingFor(sys, s) + {info.spiffeId} by {
        assert Waiting(sys'.broadcasts[n], s);
        assert forall b :: 0 <= b < n ==> sys'.broadcasts[b] == sys.broadcasts[b];
      }
    }
  }

  /** A broadcast's targets do not matter to a stream that is waiting for it before and after, or neither time. */
  lemma SamePending(sys: System, sys': System, s: nat)
    requires |sys'.broadcasts| == |sys.broadcasts|
    requires forall b :: 0 <= b < |sys.broadcasts| ==>
      && sys'.broadcasts[b].item == sys.broadcasts[b].item
      && (Waiting(sys'.broadcasts[b], s) <==> Waiting(sys.broadcasts[b], s))
    ensures PendingFor(sys', s) == PendingFor(sys, s)
  {
  }

  lemma CollectKeeps(trustDomain: string, sys: System, b: nat)
    requires Invariant(trustDomain, sys) && Enabled(sys, Collect(b))
    ensures Invariant(trustDomain, Step(trustDomain, sys, Collect(b)))
  {
    var sys' := Step(trustDomain, sys, Collect(b));
    forall s | 0 <= s < |sys.streams| && sys.streams[s].live && sys.streams[s].listed ensures Converging(sys', s) {
      assert Converging(sys, s);
      assert sys.clients[sys.streams[s].connector] == s;
      SamePending(sys, sys', s);
    }
  }

  lemma SentLeavesPending(trustDomain: string, sys: System, b: nat, s: nat)
    requires Enabled(sys, SendTo(b, s)) && Waiting(sys.broadcasts[b], s)
    ensures var sys' := Step(trustDomain, sys, SendTo(b, s));
            PendingFor(sys, s) == PendingFor(sys', s) + {sys.broadcasts[b].item.spiffeId}
  {
    var sys' := Step(trustDomain, sys, SendTo(b, s));
    assert forall i :: 0 <= i < |sys.broadcasts| && i != b ==> sys'.broadcasts[i] == sys.broadcasts[i];
  }

  lemma SendToKeeps(trustDomain: string, sys: System, b: nat, s: nat)
    requires Invariant(trustDomain, sys) && Enabled(sys, SendTo(b, s))
    ensures Invariant(trustDomain, Step(trustDomain, sys, SendTo(b, s)))
  {
    hide RegistryOk, Registered;
    var sys' := Step(trustDomain, sys, SendTo(b, s));
    var item := sys.broadcasts[b].item;
    forall u | 0 <= u < |sys.streams| && sys.streams[u].live && sys.streams[u].listed ensures Converging(sys', u) {
      assert Converging(sys, u);
      if u == s {
        ApplyAllSnoc(ListOf(sys, sys.streams[s].connector), sys.streams[s].queue, Allow(item));
        assert Waiting(sys.broadcasts[b], s);
        SentLeavesPending(trustDomain, sys, b, s);
      } else {
        SamePending(sys, sys', u);
      }
    }
  }

  lemma ConnectKeeps(trustDomain: string, sys: System, connector: string)
    requires Invariant(trustDomain, sys) && Enabled(sys, Connect(connector))
    ensures Invariant(trustDomain, Step(trustDomain, sys, Connect(connector)))
  {
  }

  lemma SendListingKeeps(trustDomain: string, sys: System, s: nat)
    requires Invariant(trustDomain, sys) && Enabled(sys, SendListing(s))
    ensures Invariant(trustDomain, Step(trustDomain, sys, SendListing(s)))
  {
    var sys' := Step(trustDomain, sys, SendListing(s));
    var m := Allowlist(Listing(sys.registry));
    forall u | 0 <= u < |sys.streams| && sys'.streams[u].live && sys'.streams[u].listed ensures Converging(sys', u) {
      SamePending(sys, sys', u);
      if u == s {
        ApplyAllSnoc(ListOf(sys, sys.streams[s].connector), sys.streams[s].queue, m);
        assert NamesNonEmpty(sys.registry) by {
          assert forall id <- sys.registry.byId :: TunnelerInfo(trustDomain, id).spiffeId[0] == 's';
        }
        ListingIsRegistered(sys.registry);
        assert PendingFor(sys, s) <= Registered(sys.registry);
      } else {
        assert Converging(sys, u);
      }
    }
  }

  lemma SendOtherKeeps(trustDomain: string, sys: System, s: nat)
    requires Invariant(trustDomain, sys) && Enabled(sys, SendOther(s))
    ensures Invariant(trustDomain, Step(trustDomain, sys, SendOther(s)))
  {
    var sys' := Step(trustDomain, sys, SendOther(s));
    forall u | 0 <= u < |sys.streams| && sys.streams[u].live && sys.streams[u].listed ensures Converging(sys', u) {
      assert Converging(sys, u);
      SamePending(sys, sys', u);
      if u == s {
        ApplyAllSnoc(ListOf(sys, sys.streams[s].connector), sys.streams[s].queue, Other);
      }
    }
  }

  lemma DeliverKeeps(trustDomain: string, sys: System, s: nat)
    requires Invariant(trustDomain, sys) && Enabled(sys, Deliver(s))
    ensures Invariant(trustDomain, Step(trustDomain, sys, Deliver(s)))
  {
  }

  lemma DisconnectKeeps(trustDomain: string, sys: System, connector: string)
    requires Invariant(trustDomain, sys) && Enabled(sys, Disconnect(connector))
    ensures Invariant(trustDomain, Step(trustDomain, sys, Disconnect(connector)))
  {
  }

  /** Every step keeps the invariant. */
  lemma StepKeeps(trustDomain: string, sys: System, e: Event)
    requires Invariant(trustDomain, sys) && Enabled(sys, e)
    ensures Invariant(trustDomain, Step(trustDomain, sys, e))
  {
    match e
    case Enrol(id) => EnrolKeeps(trustDomain, sys, id);
    case Collect(b) => CollectKeeps(trustDomain, sys, b);
    case SendTo(b, s) => SendToKeeps(trustDomain, sys, b, s);
    case Connect(connector) => ConnectKeeps(trustDomain, sys, connector);
    case SendListing(s) => SendListingKeeps(trustDomain, sys, s);
    case SendOther(s) => SendOtherKeeps(trustDomain, sys, s);
    case Deliver(s) => DeliverKeeps(trustDomain, sys, s);
    case Disconnect(connector) => DisconnectKeeps(trustDomain, sys, connector);
  }

  // ---------- Every reachable state ----------

  /** The states a run passes through from a given one; None once an event was not possible. */
  function RunFrom(trustDomain: string, sys: System, events: seq<Event>): Option<System> {
    if events == [] then Some(sys)
    else
      var before :- RunFrom(trustDomain, sys, events[..|events| - 1]);
      if Enabled(before, events[|events| - 1]) then Some(Step(trustDomain, before, events[|events| - 1])) else None
  }

  function Run(trustDomain: string, events: seq<Event>): Option<System> {
    RunFrom(trustDomain, START, events)
  }

  lemma {:induction false} RunFromKeeps(trustDomain: string, sys: System, events: seq<Event>)
    requires Invariant(trustDomain, sys) && RunFrom(trustDomain, sys, events).Some?
    ensures Invariant(trustDomain, RunFrom(trustDomain, sys, events).value)
  {
    hide Invariant, Enabled, Step;
    if events != [] {
      RunFromKeeps(trustDomain, sys, events[..|events| - 1]);
      StepKeeps(trustDomain, RunFrom(trustDomain, sys, events[..|events| - 1]).value, events[|events| - 1]);
    }
  }

  lemma RunKeeps(trustDomain: string, events: seq<Event>)
    requires Run(trustDomain, events).Some?
    ensures Invariant(trustDomain, Run(trustDomain, events).value)
  {
    RunFromKeeps(trustDomain, START, events);
  }

  /**
   In every reachable state, for every live stream that has been sent its listing: the connector's allowlist
   with the in-flight messages applied, together with the enrolments still being broadcast to that stream, is
   exactly the set of registered SPIFFE IDs.
   */
  lemma AllowlistsConverge(trustDomain: string, events: seq<Event>, s: nat)
    requires Run(trustDomain, events).Some?
    requires Live(Run(trustDomain, events).value, s) && Run(trustDomain, events).value.streams[s].listed
    ensures var sys := Run(trustDomain, events).value;
            Eventually(sys, s) + PendingFor(sys, s) == Registered(sys.registry)
  {
    RunKeeps(trustDomain, events);
    assert Converging(Run(trustDomain, events).value, s);
  }

  /** Once nothing is in flight and nothing is being broadcast, the allowlist is the registry. */
  lemma QuietMeansEqual(trustDomain: string, events: seq<Event>, s: nat)
    requires Run(trustDomain, events).Some?
    requires var sys := Run(trustDomain, events).value;
             && Live(sys, s) && sys.streams[s].listed && sys.streams[s].queue == []
             && forall b <- sys.broadcasts :: !Waiting(b, s)
    ensures var sys := Run(trustDomain, events).value;
            ListOf(sys, sys.streams[s].connector) == Registered(sys.registry)
  {
    AllowlistsConverge(trustDomain, events, s);
    var sys := Run(trustDomain, events).value;
    assert PendingFor(sys, s) == {};
  }

  /** An allowlist changes by a delivery to its connector and by nothing else, connecting again included. */
  lemma OnlyDeliveriesChangeLists(trustDomain: string, sys: System, e: Event, connector: string)
    requires Enabled(sys, e)
    ensures ListOf(Step(trustDomain, sys, e), connector)
         == if e.Deliver? && sys.streams[e.s].connector == connector
            then Apply(ListOf(sys, connector), sys.streams[e.s].queue[0]) else ListOf(sys, connector)
  {
    hide Apply, Listing, Added;
  }

  // ---------- Streams are FIFO: what was sent is what was delivered, then what is queued ----------

  /** What a step sends on a stream. */
  function SentBy(sys: System, e: Event, s: nat): seq<Message> {
    match e
    case SendTo(b, to) =>
      if to == s && Live(sys, s) && b < |sys.broadcasts| then [Allow(sys.broadcasts[b].item)] else []
    case SendListing(to) => if to == s then [Allowlist(Listing(sys.registry))] else []
    case SendOther(to) => if to == s then [Other] else []
    case _ => []
  }

  function Sent(trustDomain: string, events: seq<Event>, s: nat): seq<Message> {
    if events == [] then []
    else
      var before, e := events[..|events| - 1], events[|events| - 1];
      Sent(trustDomain, before, s)
      + match Run(trustDomain, before) case None => [] case Some(sys) => SentBy(sys, e, s)
  }

  function Deliveries(events: seq<Event>, s: nat): nat {
    if events == [] then 0
    else Deliveries(events[..|events| - 1], s) + if events[|events| - 1] == Deliver(s) then 1 else 0
  }

  lemma StreamStep(trustDomain: string, sys: System, e: Event, s: nat)
    requires Enabled(sys, e) && Live(Step(trustDomain, sys, e), s)
    ensures var queue := Step(trustDomain, sys, e).streams[s].queue;
            if s >= |sys.streams| then queue == [] && SentBy(sys, e, s) == [] && e != Deliver(s)
            else if e != Deliver(s) then Live(sys, s) && queue == sys.streams[s].queue + SentBy(sys, e, s)
            else
              && Live(sys, s) && sys.streams[s].queue != [] && queue == sys.streams[s].queue[1..]
              && SentBy(sys, e, s) == []
  {
    hide Listing, Apply, Added;
  }

  lemma SentStep(trustDomain: string, events: seq<Event>, s: nat)
    requires events != [] && Run(trustDomain, events).Some?
    ensures var before, e := events[..|events| - 1], events[|events| - 1];
            && Run(trustDomain, before).Some? && Enabled(Run(trustDomain, before).value, e)
            && Run(trustDomain, events).value == Step(trustDomain, Run(trustDomain, before).value, e)
            && Sent(trustDomain, events, s)
               == Sent(trustDomain, before, s) + SentBy(Run(trustDomain, before).value, e, s)
            && Deliveries(events, s) == Deliveries(before, s) + if e == Deliver(s) then 1 else 0
  {
    hide Step, Enabled, SentBy;
  }

  /** In every run a live stream has delivered a beginning of what was sent on it, and queues the rest in order. */
  lemma {:induction false} StreamsConserve(trustDomain: string, events: seq<Event>, s: nat)
    requires Run(trustDomain, events).Some? && Live(Run(trustDomain, events).value, s)
    ensures var sent, n := Sent(trustDomain, events, s), Deliveries(events, s);
            n <= |sent| && sent[n..] == Run(trustDomain, events).value.streams[s].queue
  {
    hide Step, Enabled, SentBy, Sent, Deliveries, RunFrom;
    if events == [] {
      NoStreams(trustDomain);
    } else {
      var before, e := events[..|events| - 1], events[|events| - 1];
      SentStep(trustDomain, events, s);
      var sys := Run(trustDomain, before).value;
      StreamStep(trustDomain, sys, e, s);
      if s < |sys.streams| {
        StreamsConserve(trustDomain, before, s);
        var sent, n, more := Sent(trustDomain, before, s), Deliveries(before, s), SentBy(sys, e, s);
        assert (sent + more)[n..] == sent[n..] + more;
        assert e == Deliver(s) ==> (sent + more)[n + 1..] == sent[n..][1..];
      } else {
        NothingSentYet(trustDomain, before, s);
      }
    }
  }

  lemma NoStreams(trustDomain: string)
    ensures Run(trustDomain, []) == Some(START) && START.streams == []
  {
  }

  lemma NothingSent(trustDomain: string, sys: System, e: Event, s: nat)
    requires Enabled(sys, e) && s >= |Step(trustDomain, sys, e).streams|
    ensures s >= |sys.streams| && SentBy(sys, e, s) == [] && e != Deliver(s)
  {
  }

  lemma {:induction false} NothingSentYet(trustDomain: string, events: seq<Event>, s: nat)
    requires Run(trustDomain, events).Some? && s >= |Run(trustDomain, events).value.streams|
    ensures Sent(trustDomain, events, s) == [] && Deliveries(events, s) == 0
  {
    hide Step, Enabled, SentBy, RunFrom;
    if events != [] {
      SentStep(trustDomain, events, s);
      var before := events[..|events| - 1];
      NothingSent(trustDomain, Run(trustDomain, before).value, events[|events| - 1], s);
      NothingSentYet(trustDomain, before, s);
    }
  }

  // ---------- Progress: every allowlist can catch up ----------

  lemma {:induction false} RunOn(trustDomain: string, sys: System, a: seq<Event>, b: seq<Event>)
    requires RunFrom(trustDomain, sys, a).Some?
    ensures RunFrom(trustDomain, sys, a + b) == RunFrom(trustDomain, RunFrom(trustDomain, sys, a).value, b)
  {
    hide Enabled, Step;
    if b == [] {
      assert a + b == a;
    } else {
      RunOn(trustDomain, sys, a, b[..|b| - 1]);
      assert (a + b)[..|a + b| - 1] == a + b[..|b| - 1];
    }
  }

  lemma OneStep(trustDomain: string, sys: System, e: Event, more: seq<Event>)
    requires Enabled(sys, e)
    ensures RunFrom(trustDomain, sys, [e] + more) == RunFrom(trustDomain, Step(trustDomain, sys, e), more)
  {
    assert [e][..0] == [];
    RunOn(trustDomain, sys, [e], more);
  }

  /** The stream is the same live and listed one, and nobody was enrolled in between. */
  predicate SameStream(sys: System, sys': System, s: nat) {
    && Live(sys, s) && Live(sys', s) && sys'.streams[s].connector == sys.streams[s].connector
    && sys.streams[s].listed && sys'.streams[s].listed && sys'.registry == sys.registry && sys'.clients == sys.clients
  }

  /** The broadcasts from the b-th on can be sent to the stream, one after the other. */
  lemma {:induction false} BroadcastsCanBeSent(trustDomain: string, sys: System, s: nat, b: nat)
    returns (events: seq<Event>)
    requires Invariant(trustDomain, sys) && Live(sys, s) && sys.streams[s].listed && b <= |sys.broadcasts|
    requires forall i :: 0 <= i < b ==> !Waiting(sys.broadcasts[i], s)
    ensures RunFrom(trustDomain, sys, events).Some?
    ensures var sys' := RunFrom(trustDomain, sys, events).value;
            SameStream(sys, sys', s) && forall bc <- sys'.broadcasts :: !Waiting(bc, s)
    decreases |sys.broadcasts| - b, if b < |sys.broadcasts| && sys.broadcasts[b].targets.None? then 2 else 1
  {
    hide Invariant, Listing, Added;
    if b == |sys.broadcasts| {
      return [];
    }
    if !Waiting(sys.broadcasts[b], s) {
      events := BroadcastsCanBeSent(trustDomain, sys, s, b + 1);
      return;
    }
    var e := if sys.broadcasts[b].targets.None? then Collect(b) else SendTo(b, s);
    StepKeeps(trustDomain, sys, e);
    var next := Step(trustDomain, sys, e);
    assert forall i :: 0 <= i < |sys.broadcasts| && i != b ==> next.broadcasts[i] == sys.broadcasts[i];
    var more := BroadcastsCanBeSent(trustDomain, next, s, if e.SendTo? then b + 1 else b);
    OneStep(trustDomain, sys, e, more);
    events := [e] + more;
  }

  /** The queue of the stream can be delivered to its end. */
  lemma {:induction false} QueueCanBeDelivered(trustDomain: string, sys: System, s: nat) returns (events: seq<Event>)
    requires Live(sys, s) && sys.streams[s].listed && forall bc <- sys.broadcasts :: !Waiting(bc, s)
    ensures RunFrom(trustDomain, sys, events).Some?
    ensures var sys' := RunFrom(trustDomain, sys, events).value;
            && SameStream(sys, sys', s) && sys'.streams[s].queue == []
            && forall bc <- sys'.broadcasts :: !Waiting(bc, s)
    decreases |sys.streams[s].queue|
  {
    hide Apply;
    if sys.streams[s].queue == [] {
      return [];
    }
    var more := QueueCanBeDelivered(trustDomain, Step(trustDomain, sys, Deliver(s)), s);
    OneStep(trustDomain, sys, Deliver(s), more);
    events := [Deliver(s)] + more;
  }

  /** A live stream that has been sent its listing can be brought to the registry without any further enrolment. */
  lemma ListedCanCatchUp(trustDomain: string, sys: System, s: nat) returns (events: seq<Event>)
    requires Invariant(trustDomain, sys) && Live(sys, s) && sys.streams[s].listed
    ensures RunFrom(trustDomain, sys, events).Some?
    ensures var sys' := RunFrom(trustDomain, sys, events).value;
            SameStream(sys, sys', s) && ListOf(sys', sys.streams[s].connector) == Registered(sys.registry)
  {
    hide RunFrom;
    var sent := BroadcastsCanBeSent(trustDomain, sys, s, 0);
    var middle := RunFrom(trustDomain, sys, sent).value;
    var rest := QueueCanBeDelivered(trustDomain, middle, s);
    RunOn(trustDomain, sys, sent, rest);
    events := sent + rest;
    RunFromKeeps(trustDomain, sys, events);
    var sys' := RunFrom(trustDomain, sys, events).value;
    assert Converging(sys', s) && PendingFor(sys', s) == {};
  }

  /** From every reachable state any connector can be connected, listed and brought to the registry of that state. */
  lemma EveryoneCanCatchUp(trustDomain: string, events: seq<Event>, connector: string) returns (more: seq<Event>)
    requires Run(trustDomain, events).Some?
    ensures Run(trustDomain, events + more).Some?
    ensures var sys, sys' := Run(trustDomain, events).value, Run(trustDomain, events + more).value;
            && connector in sys'.clients && Live(sys', sys'.clients[connector])
            && ListOf(sys', connector) == Registered(sys.registry) == Registered(sys'.registry)
  {
    hide RunFrom, Registered, Listing;
    var sys := Run(trustDomain, events).value;
    RunKeeps(trustDomain, events);
    var joining := if connector in sys.clients then [] else [Connect(connector)];
    var joined := if connector in sys.clients then sys else Step(trustDomain, sys, Connect(connector));
    if connector !in sys.clients {
      StepKeeps(trustDomain, sys, Connect(connector));
    }
    var s := joined.clients[connector];
    var listing := if joined.streams[s].listed then [] else [SendListing(s)];
    var listed := if joined.streams[s].listed then joined else Step(trustDomain, joined, SendListing(s));
    if !joined.streams[s].listed {
      StepKeeps(trustDomain, joined, SendListing(s));
    }
    var rest := ListedCanCatchUp(trustDomain, listed, s);
    Prepend(trustDomain, joined, listing, listed, rest);
    Prepend(trustDomain, sys, joining, joined, listing + rest);
    more := joining + (listing + rest);
    RunOn(trustDomain, START, events, more);
  }

  lemma Prepend(trustDomain: string, sys: System, first: seq<Event>, next: System, rest: seq<Event>)
    requires if first == [] then next == sys
             else |first| == 1 && Enabled(sys, first[0]) && next == Step(trustDomain, sys, first[0])
    ensures RunFrom(trustDomain, sys, first + rest) == RunFrom(trustDomain, next, rest)
  {
    if first == [] {
      assert first + rest == rest;
    } else {
      assert first == [first[0]];
      OneStep(trustDomain, sys, first[0], rest);
    }
  }
}
