/** Feeding the connectors' allowlists: the registry, the messages, and both ends of the stream. */
module ControlPlane {
  import opened Options

  datatype Info = Info(id: string, spiffeId: string)

  // ---------- The controller's registry of tunnelers ----------

  datatype RegistryValue = RegistryValue(byId: map<string, Info>, order: seq<string>)

  function Added(r: RegistryValue, id: string, spiffeId: string): RegistryValue {
    if id == "" || spiffeId == "" then r
    else
      RegistryValue(r.byId[id := Info(id, spiffeId)], if id in r.byId then r.order else r.order + [id])
  }

  function Listing(r: RegistryValue): seq<Info> {
    ListingOf(r.byId, r.order)
  }

  function ListingOf(byId: map<string, Info>, order: seq<string>): seq<Info> {
    if order == [] then []
    else
      var before, last := ListingOf(byId, order[..|order| - 1]), order[|order| - 1];
      if last in byId then before + [byId[last]] else before
  }

  predicate WellOrdered(r: RegistryValue) {
    && (forall id <- r.byId :: id in r.order) && (forall id <- r.order :: id in r.byId)
    && forall i, j :: 0 <= i < j < |r.order| ==> r.order[i] != r.order[j]
  }

  class Registry {
    var byId: map<string, Info>
    var order: seq<string>

    constructor ()
      ensures Value() == RegistryValue(map[], [])
    {
      byId, order := map[], [];
    }

    ghost function Value(): RegistryValue
      reads this
    {
      RegistryValue(byId, order)
    }

    method Add(id: string, spiffeId: string)
      modifies this
      ensures Value() == Added(old(Value()), id, spiffeId)
    {
      if id == "" || spiffeId == "" {
        return;
      }
      if id !in byId {
        order := order + [id];
      }
      byId := byId[id := Info(id, spiffeId)];
    }

    method List() returns (out: seq<Info>)
      ensures out == Listing(Value())
    {
      out := [];
      for i := 0 to |order|
        invariant out == ListingOf(byId, order[..i])
      {
        assert order[..i + 1][..i] == order[..i];
        if order[i] in byId {
          out := out + [byId[order[i]]];
        }
      }
      assert order[..|order|] == order;
    }
  }

  /** The listing holds each registered tunneler, and nobody else, and each only once. */
  lemma {:induction false} ListingMembers(byId: map<string, Info>, order: seq<string>)
    ensures forall x :: x in ListingOf(byId, order) <==> exists id :: id in order && id in byId && byId[id] == x
    ensures |ListingOf(byId, order)| <= |order|
  {
    if order != [] {
      var n := |order| - 1;
      ListingMembers(byId, order[..n]);
      assert order == order[..n] + [order[n]];
    }
  }

  /** The order lists the registered ids, each once, in the order of their first registrations. */
  lemma AddedKeepsOrder(r: RegistryValue, id: string, spiffeId: string)
    requires WellOrdered(r)
    ensures WellOrdered(Added(r, id, spiffeId)) && r.order <= Added(r, id, spiffeId).order
  {
  }

  /** A registration takes effect for its own id alone, and only when it has an id and a name. */
  lemma AddedTells(r: RegistryValue, id: string, spiffeId: string, other: string)
    ensures var after, told := Added(r, id, spiffeId).byId, other == id && id != "" && spiffeId != "";
            && (other in after <==> other in r.byId || told)
            && (other in after ==> after[other] == if told then Info(id, spiffeId) else r.byId[other])
  {
  }

  /** The listing goes through the order once. */
  lemma ListingInOrder(r: RegistryValue)
    requires WellOrdered(r)
    ensures |Listing(r)| == |r.order| && forall i :: 0 <= i < |r.order| ==> Listing(r)[i] == r.byId[r.order[i]]
  {
    ListingOfOrder(r.byId, r.order);
  }

  lemma {:induction false} ListingOfOrder(byId: map<string, Info>, order: seq<string>)
    requires forall id <- order :: id in byId
    ensures |ListingOf(byId, order)| == |order|
    ensures forall i :: 0 <= i < |order| ==> ListingOf(byId, order)[i] == byId[order[i]]
  {
    if order != [] {
      ListingOfOrder(byId, order[..|order| - 1]);
    }
  }

  function SpiffeIds(items: seq<Info>): set<string> {
    set x <- items | x.spiffeId != "" :: x.spiffeId
  }

  function Registered(r: RegistryValue): set<string> {
    set id <- r.byId :: r.byId[id].spiffeId
  }

  predicate NamesNonEmpty(r: RegistryValue) {
    forall id <- r.byId :: r.byId[id].spiffeId != ""
  }

  /** What a connector gets from the listing is what is registered. */
  lemma ListingIsRegistered(r: RegistryValue)
    requires WellOrdered(r) && NamesNonEmpty(r)
    ensures SpiffeIds(Listing(r)) == Registered(r)
  {
    ListingMembers(r.byId, r.order);
    forall s ensures s in SpiffeIds(Listing(r)) <==> s in Registered(r) {
      if s in Registered(r) {
        var id :| id in r.byId && r.byId[id].spiffeId == s;
        assert r.byId[id] in Listing(r);
      }
    }
  }

  // ---------- The connector's allowlist ----------

  datatype Message =
    | Allowlist(items: seq<Info>)
    | Allow(item: Info)
    | Other

  /** The effect of one control message; anything else leaves the allowlist alone. */
  function Apply(list: set<string>, m: Message): set<string> {
    match m
    case Allowlist(items) => SpiffeIds(items)
    case Allow(item) => if item.spiffeId == "" then list else list + {item.spiffeId}
    case Other => list
  }

  /** No message puts the empty name on an allowlist. */
  lemma EmptyNeverAllowed(list: set<string>, m: Message)
    requires "" !in list
    ensures "" !in Apply(list, m)
  {
  }

  function ApplyAll(list: set<string>, queue: seq<Message>): set<string>
    decreases queue
  {
    if queue == [] then list else ApplyAll(Apply(list, queue[0]), queue[1..])
  }

  lemma {:induction false} ApplyAllSnoc(list: set<string>, queue: seq<Message>, m: Message)
    ensures ApplyAll(list, queue + [m]) == Apply(ApplyAll(list, queue), m)
    decreases queue
  {
    if queue == [] {
      assert [] + [m] == [m];
    } else {
      ApplyAllSnoc(Apply(list, queue[0]), queue[1..], m);
      assert (queue + [m])[1..] == queue[1..] + [m];
    }
  }

  class TunnelerAllowlist {
    var allowed: set<string>

    constructor ()
      ensures allowed == {}
    {
      allowed := {};
    }

    method Replace(items: seq<Info>)
      modifies this
      ensures allowed == Apply(old(allowed), Allowlist(items))
    {
      allowed := {};
      for i := 0 to |items|
        invariant allowed == SpiffeIds(items[..i])
      {
        assert items[..i + 1] == items[..i] + [items[i]];
        if items[i].spiffeId == "" {
          continue;
        }
        allowed := allowed + {items[i].spiffeId};
      }
      assert items[..|items|] == items;
    }

    method Add(spiffeId: string)
      modifies this
      ensures forall id :: allowed == Apply(old(allowed), Allow(Info(id, spiffeId)))
    {
      if spiffeId == "" {
        return;
      }
      allowed := allowed + {spiffeId};
    }

    /** The dispatch on one message; a payload that does not decode is passed as None and ignored. */
    method Handle(payload: Option<Message>)
      modifies this
      ensures allowed == if payload.Some? then Apply(old(allowed), payload.value) else old(allowed)
    {
      if payload.Some? {
        match payload.value {
          case Allowlist(items) => Replace(items);
          case Allow(item) => Add(item.spiffeId);
          case Other =>
        }
      }
    }
  }

  // ---------- The controller's end of the streams ----------

  class Client {
    var sent: seq<Message>

    constructor ()
      ensures sent == []
    {
      sent := [];
    }

    method Send(m: Message)
      modifies this
      ensures sent == old(sent) + [m]
    {
      sent := sent + [m];
    }
  }

  class Server {
    const registry: Registry
    var clients: map<string, Client>

    constructor (registry: Registry)
      ensures this.registry == registry && clients == map[]
    {
      this.registry, clients := registry, map[];
    }

    /** Each connector has its own stream. */
    ghost predicate Valid()
      reads this
    {
      forall a <- clients, b <- clients :: clients[a] == clients[b] ==> a == b
    }

    method AddClient(id: string, c: Client)
      requires Valid() && c !in clients.Values
      modifies this
      ensures Valid() && clients == old(clients)[id := c]
    {
      clients := clients[id := c];
    }

    method RemoveClient(id: string)
      requires Valid()
      modifies this
      ensures Valid() && clients == old(clients) - {id}
    {
      clients := clients - {id};
    }

    method Broadcast(m: Message)
      requires Valid()
      modifies clients.Values
      ensures forall id <- clients :: clients[id].sent == old(clients[id].sent) + [m]
    {
      var rest := clients.Keys;
      while rest != {}
        invariant rest <= clients.Keys
        invariant forall id <- clients ::
                    clients[id].sent == old(clients[id].sent) + if id in rest then [] else [m]
        decreases rest
      {
        var id :| id in rest;
        clients[id].Send(m);
        rest := rest - {id};
      }
    }

    method SendAllowlist(c: Client)
      modifies c
      ensures c.sent == old(c.sent) + [Allowlist(Listing(registry.Value()))]
    {
      var list := registry.List();
      c.Send(Allowlist(list));
    }

    /** Registered first, broadcast afterwards. */
    method NotifyTunnelerAllowed(id: string, spiffeId: string)
      requires Valid()
      modifies registry, clients.Values
      ensures registry.Value() == Added(old(registry.Value()), id, spiffeId)
      ensures forall c <- clients :: clients[c].sent == old(clients[c].sent) + [Allow(Info(id, spiffeId))]
    {
      registry.Add(id, spiffeId);
      Broadcast(Allow(Info(id, spiffeId)));
    }
  }
}
