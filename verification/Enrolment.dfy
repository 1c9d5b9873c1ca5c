/** Enrolling a tunneler, and what any run can put on a connector's allowlist. */
module Enrolment {
  import opened ControlPlane
  import opened Replication
  import TokenRuns
  import Tokens

  /** What an enrolment request carries, apart from the key itself. */
  datatype Request = Request(id: string, token: string, keyReadable: bool)

  predicate WellFormed(r: Request) {
    Spiffe.ValidID(r.id) && r.token != "" && r.keyReadable
  }

  class EnrollmentServer {
    const trustDomain: string
    const tokens: Tokens.TokenStore
    const notifier: Server

    constructor (trustDomain: string, tokens: Tokens.TokenStore, notifier: Server)
      ensures this.trustDomain == trustDomain && this.tokens == tokens && this.notifier == notifier
    {
      this.trustDomain, this.tokens, this.notifier := trustDomain, tokens, notifier;
    }

    /**
     Only a well-formed request reaches the token, and only a consumed token reaches the registry and the
     connectors. Issuing the certificate may still fail in between.
     */
    method EnrollTunneler(r: Request, now: int, saveOk: bool, issueOk: bool) returns (ok: bool)
      requires tokens.Valid() && notifier.Valid()
      modifies tokens, tokens.tokens.Values, notifier.registry, notifier.clients.Values
      ensures tokens.Valid()
      ensures r.id == "" || r.token == "" || !r.keyReadable ==> !ok && tokens.Contents() == old(tokens.Contents())
      ensures ok <==> WellFormed(r) && issueOk
                      && Tokens.ConsumeSucceeds(old(tokens.Contents()), now, tokens.hashOf(r.token), r.id, saveOk)
      ensures tokens.Contents()
           == if WellFormed(r)
              then Tokens.Consume(tokens.backing, old(tokens.Contents()), now, tokens.hashOf(r.token), r.id, saveOk)
              else old(tokens.Contents())
      ensures var info := TunnelerInfo(trustDomain, r.id);
              if ok then notifier.registry.Value() == Added(old(notifier.registry.Value()), r.id, info.spiffeId)
                         && forall c <- notifier.clients ::
                              notifier.clients[c].sent == old(notifier.clients[c].sent) + [Allow(info)]
              else notifier.registry.Value() == old(notifier.registry.Value())
                   && forall c <- notifier.clients :: notifier.clients[c].sent == old(notifier.clients[c].sent)
    {
      if !Spiffe.ValidID(r.id) || r.token == "" || !r.keyReadable {
        return false;
      }
      var consumed := tokens.ConsumeToken(r.token, r.id, now, saveOk);
      if !consumed || !issueOk {
        return false;
      }
      notifier.NotifyTunnelerAllowed(r.id, Spiffe.Uri(trustDomain, "tunneler", r.id));
      ok := true;
    }
  }

  // ---------- Runs in which messages may be reordered, repeated, misdelivered or lost ----------

  datatype Event =
    | TokenEvent(e: TokenRuns.Event)                                // created, deleted, used by a connector, restarted
    | Enroll(r: Request, now: int, saveOk: bool, issueOk: bool)
    | Listed                                                     // some listing of the registry is sent
    | Received(connector: string, m: Message)                    // any message ever sent, or one that carries no id
    | Forgotten                                                  // the registry is lost with its process

  /** Everything ever sent stays available for delivery, in any order, to anyone. */
  datatype World = World(
    tokens: Tokens.Store, registry: RegistryValue, sent: set<Message>, lists: map<string, set<string>>)

  const NEW_WORLD := World(TokenRuns.NEW_STORE, RegistryValue(map[], []), {}, map[])

  datatype Setting = Setting(trustDomain: string, backing: Tokens.Backing, hashOf: string -> string)

  predicate Enrols(c: Setting, w: World, e: Event) {
    && e.Enroll? && WellFormed(e.r) && e.issueOk
    && Tokens.ConsumeSucceeds(w.tokens, e.now, c.hashOf(e.r.token), e.r.id, e.saveOk)
  }

  function Step(c: Setting, w: World, e: Event): World {
    match e
    case TokenEvent(t) => w.(tokens := TokenRuns.Step(c.backing, w.tokens, t))
    case Enroll(r, now, saveOk, _) =>
      var info := TunnelerInfo(c.trustDomain, r.id);
      var tokens := if WellFormed(r) then Tokens.Consume(c.backing, w.tokens, now, c.hashOf(r.token), r.id, saveOk)
                    else w.tokens;
      if Enrols(c, w, e)
      then w.(tokens := tokens, registry := Added(w.registry, r.id, info.spiffeId), sent := w.sent + {Allow(info)})
      else w.(tokens := tokens)
    case Listed => w.(sent := w.sent + {Allowlist(Listing(w.registry))})
    case Received(connector, m) =>
      if m in w.sent || m.Other? then
        var list := if connector in w.lists then w.lists[connector] else {};
        w.(lists := w.lists[connector := Apply(list, m)])
      else w
    case Forgotten => w.(registry := RegistryValue(map[], []))
  }

  function Run(c: Setting, events: seq<Event>): World {
    if events == [] then NEW_WORLD else Step(c, Run(c, events[..|events| - 1]), events[|events| - 1])
  }

  /** The token store's own view of a run. */
  function TokenRun(c: Setting, events: seq<Event>): seq<TokenRuns.Event> {
    if events == [] then []
    else
      var before, last := TokenRun(c, events[..|events| - 1]), events[|events| - 1];
      if last.TokenEvent? then before + [last.e]
      else if last.Enroll? && WellFormed(last.r)
      then before + [TokenRuns.Consumed(last.now, c.hashOf(last.r.token), last.r.id, last.saveOk)]
      else before
  }

  /** The (token, id) pairs of the enrolments of a run. */
  function EnrolledBy(c: Setting, events: seq<Event>): set<(string, string)> {
    if events == [] then {}
    else
      var before, last := events[..|events| - 1], events[|events| - 1];
      EnrolledBy(c, before) + if Enrols(c, Run(c, before), last) then {(c.hashOf(last.r.token), last.r.id)} else {}
  }

  /** The k-th event enrols this id with this token. */
  predicate EnrolsAt(c: Setting, events: seq<Event>, k: nat, hash: string, id: string)
    requires k < |events|
  {
    Enrols(c, Run(c, events[..k]), events[k]) && hash == c.hashOf(events[k].r.token) && id == events[k].r.id
  }

  lemma {:induction false} EnrolledSomewhere(c: Setting, events: seq<Event>, hash: string, id: string)
    requires (hash, id) in EnrolledBy(c, events)
    ensures exists k :: 0 <= k < |events| && EnrolsAt(c, events, k, hash, id)
  {
    hide Run, Enrols;
    var n := |events| - 1;
    if (hash, id) in EnrolledBy(c, events[..n]) {
      EnrolledSomewhere(c, events[..n], hash, id);
      var k :| 0 <= k < n && EnrolsAt(c, events[..n], k, hash, id);
      assert events[..n][..k] == events[..k];
      assert EnrolsAt(c, events, k, hash, id);
    } else {
      assert EnrolsAt(c, events, n, hash, id);
    }
  }

  /** The SPIFFE ID of a tunneler with one of these ids. */
  ghost predicate Vouched(trustDomain: string, enrolled: set<(string, string)>, spiffeId: string) {
    exists p <- enrolled :: spiffeId == Spiffe.Uri(trustDomain, "tunneler", p.1)
  }

  ghost predicate AllVouched(trustDomain: string, enrolled: set<(string, string)>, ids: set<string>) {
    forall s <- ids :: Vouched(trustDomain, enrolled, s)
  }

  function Carried(m: Message): set<string> {
    match m
    case Allowlist(items) => SpiffeIds(items)
    case Allow(item) => {item.spiffeId}
    case Other => {}
  }

  ghost predicate NoStrangers(c: Setting, w: World, enrolled: set<(string, string)>) {
    && AllVouched(c.trustDomain, enrolled, Registered(w.registry))
    && (forall m <- w.sent :: AllVouched(c.trustDomain, enrolled, Carried(m)))
    && (forall k <- w.lists :: AllVouched(c.trustDomain, enrolled, w.lists[k]))
  }

  lemma VouchedGrows(trustDomain: string, enrolled: set<(string, string)>, more: set<(string, string)>)
    ensures forall s :: Vouched(trustDomain, enrolled, s) ==> Vouched(trustDomain, enrolled + more, s)
  {
  }

  lemma ListingCarriesRegistered(r: RegistryValue)
    ensures SpiffeIds(Listing(r)) <= Registered(r)
  {
    ListingMembers(r.byId, r.order);
  }

  lemma StrangersStep(c: Setting, w: World, enrolled: set<(string, string)>, more: set<(string, string)>, e: Event)
    requires NoStrangers(c, w, enrolled)
    requires Enrols(c, w, e) ==> (c.hashOf(e.r.token), e.r.id) in more
    ensures NoStrangers(c, Step(c, w, e), enrolled + more)
  {
    hide Vouched, Listing;
    VouchedGrows(c.trustDomain, enrolled, more);
    match e {
      case TokenEvent(_) =>
      case Enroll(r, _, _, _) =>
        if Enrols(c, w, e) {
          var info := TunnelerInfo(c.trustDomain, r.id);
          assert Vouched(c.trustDomain, enrolled + more, info.spiffeId) by {
            VouchedBy(c.trustDomain, enrolled + more, c.hashOf(r.token), r.id);
          }
          var after := Added(w.registry, r.id, info.spiffeId);
          forall s <- Registered(after) ensures s in Registered(w.registry) || s == info.spiffeId {
            var id :| id in after.byId && after.byId[id].spiffeId == s;
            assert id in w.registry.byId || id == r.id;
          }
        }
      case Listed => ListingCarriesRegistered(w.registry);
      case Received(_, m) =>
      case Forgotten =>
    }
  }

  lemma VouchedBy(trustDomain: string, enrolled: set<(string, string)>, hash: string, id: string)
    requires (hash, id) in enrolled
    ensures Vouched(trustDomain, enrolled, Spiffe.Uri(trustDomain, "tunneler", id))
  {
  }

  lemma StepTokens(c: Setting, w: World, e: Event)
    ensures Step(c, w, e).tokens
         == if e.TokenEvent? then TokenRuns.Step(c.backing, w.tokens, e.e)
            else if e.Enroll? && WellFormed(e.r)
            then Tokens.Consume(c.backing, w.tokens, e.now, c.hashOf(e.r.token), e.r.id, e.saveOk)
            else w.tokens
  {
  }

  lemma NothingRun(b: Tokens.Backing)
    ensures TokenRuns.Run(b, []) == TokenRuns.NEW_STORE
  {
  }

  /** The token store of a run is the one its own events lead to. */
  lemma {:induction false} TokensFollow(c: Setting, events: seq<Event>)
    ensures Run(c, events).tokens == TokenRuns.Run(c.backing, TokenRun(c, events))
  {
    hide TokenRuns.Run, Tokens.Consume, WellFormed, Step;
    if events == [] {
      assert TokenRuns.Run(c.backing, []) == TokenRuns.NEW_STORE by {
        NothingRun(c.backing);
      }
    } else {
      var before, e := events[..|events| - 1], events[|events| - 1];
      TokensFollow(c, before);
      StepTokens(c, Run(c, before), e);
      var t := TokenRun(c, before);
      if e.TokenEvent? {
        TokenRuns.RunSnoc(c.backing, t, e.e);
      } else if e.Enroll? && WellFormed(e.r) {
        TokenRuns.RunSnoc(c.backing, t, TokenRuns.Consumed(e.now, c.hashOf(e.r.token), e.r.id, e.saveOk));
      }
    }
  }

  lemma ServedGrows(c: Setting, events: seq<Event>)
    requires events != []
    ensures var before, e := events[..|events| - 1], events[|events| - 1];
            var served := TokenRuns.Served(c.backing, TokenRun(c, before));
            var served' := TokenRuns.Served(c.backing, TokenRun(c, events));
            && served <= served'
            && (Enrols(c, Run(c, before), e) ==> (c.hashOf(e.r.token), e.r.id) in served')
  {
    hide Tokens.ConsumeSucceeds, Run, TokenRuns.Run;
    var before := events[..|events| - 1];
    TokensFollow(c, before);
    var t, t' := TokenRun(c, before), TokenRun(c, events);
    if t' != t {
      assert t'[..|t'| - 1] == t;
    }
  }

  /** Every enrolment is a use of its token by the tunneler's id. */
  lemma {:induction false} EnrolledWereServed(c: Setting, events: seq<Event>)
    ensures EnrolledBy(c, events) <= TokenRuns.Served(c.backing, TokenRun(c, events))
  {
    hide TokenRuns.Served, TokenRun, Enrols, Run;
    if events != [] {
      EnrolledWereServed(c, events[..|events| - 1]);
      ServedGrows(c, events);
    }
  }

  lemma {:induction false} RunHasNoStrangers(c: Setting, events: seq<Event>)
    ensures NoStrangers(c, Run(c, events), EnrolledBy(c, events))
  {
    hide Enrols, Step;
    if events == [] {
      assert NoStrangers(c, NEW_WORLD, {});
    } else {
      var before, e := events[..|events| - 1], events[|events| - 1];
      RunHasNoStrangers(c, before);
      StrangersStep(c, Run(c, before), EnrolledBy(c, before), EnrolledBy(c, events), e);
      assert EnrolledBy(c, before) + EnrolledBy(c, events) == EnrolledBy(c, events);
    }
  }

  /**
   In every run, whatever happens to messages on the way, a SPIFFE ID on a connector's allowlist is that of a
   tunneler that an earlier event of the run enrolled.
   */
  lemma AllowedWereEnrolled(c: Setting, events: seq<Event>, connector: string, spiffeId: string)
    returns (hash: string, id: string)
    requires connector in Run(c, events).lists && spiffeId in Run(c, events).lists[connector]
    ensures spiffeId == Spiffe.Uri(c.trustDomain, "tunneler", id)
    ensures exists k :: 0 <= k < |events| && EnrolsAt(c, events, k, hash, id)
    ensures (hash, id) in TokenRuns.Served(c.backing, TokenRun(c, events))
  {
    hide Run;
    RunHasNoStrangers(c, events);
    EnrolledWereServed(c, events);
    assert Vouched(c.trustDomain, EnrolledBy(c, events), spiffeId);
    var p :| p in EnrolledBy(c, events) && spiffeId == Spiffe.Uri(c.trustDomain, "tunneler", p.1);
    hash, id := p.0, p.1;
    assert (hash, id) in EnrolledBy(c, events);
    EnrolledSomewhere(c, events, hash, id);
  }

  /** And with fresh tokens, restarted only when safe, that token has been accepted for this tunneler alone. */
  lemma AllowedHoldTheirToken(c: Setting, events: seq<Event>, connector: string, spiffeId: string)
    returns (hash: string, id: string)
    requires connector in Run(c, events).lists && spiffeId in Run(c, events).lists[connector]
    requires TokenRuns.FreshTokens(TokenRun(c, events)) && TokenRuns.SafeRestarts(c.backing, TokenRun(c, events))
    ensures spiffeId == Spiffe.Uri(c.trustDomain, "tunneler", id)
    ensures exists k :: 0 <= k < |events| && EnrolsAt(c, events, k, hash, id)
    ensures forall other :: (hash, other) in TokenRuns.Served(c.backing, TokenRun(c, events)) <==> other == id
  {
    hide Run;
    hash, id := AllowedWereEnrolled(c, events, connector, spiffeId);
    TokenRuns.OneIdWhileSafe(c.backing, TokenRun(c, events));
  }

  // ---------- What a run makes of its messages ----------

  /** A request without an id, a token or a readable key changes nothing, and uses no token up. */
  lemma MalformedIgnored(c: Setting, w: World, e: Event)
    requires e.Enroll? && (e.r.id == "" || e.r.token == "" || !e.r.keyReadable)
    ensures Step(c, w, e) == w
  {
  }

  lemma RunStep(c: Setting, events: seq<Event>, e: Event)
    ensures Run(c, events + [e]) == Step(c, Run(c, events), e)
  {
    assert (events + [e])[..|events|] == events;
  }

  /** An enrolment registers the tunneler, and once its message is received its name is on the allowlist. */
  lemma EnrolmentArrives(c: Setting, events: seq<Event>, e: Event, connector: string)
    requires Enrols(c, Run(c, events), e)
    ensures var name := Spiffe.Uri(c.trustDomain, "tunneler", e.r.id);
            var enrolled := Run(c, events + [e]);
            var after := Run(c, events + [e] + [Received(connector, Allow(Info(e.r.id, name)))]);
            && e.r.id in enrolled.registry.byId && enrolled.registry.byId[e.r.id] == Info(e.r.id, name)
            && connector in after.lists && name in after.lists[connector]
            && forall other <- Run(c, events).registry.byId :: other != e.r.id ==>
                 && other in enrolled.registry.byId
                 && enrolled.registry.byId[other] == Run(c, events).registry.byId[other]
  {
    hide Run;
    var name := Spiffe.Uri(c.trustDomain, "tunneler", e.r.id);
    assert name[0] == 's';
    RunStep(c, events, e);
    RunStep(c, events + [e], Received(connector, Allow(Info(e.r.id, name))));
  }

  /** A listing, once received, replaces the allowlist; after the registry is lost it empties it. */
  lemma ListingArrives(c: Setting, events: seq<Event>, connector: string)
    ensures var listing := Listing(Run(c, events).registry);
            var after := Run(c, events + [Listed] + [Received(connector, Allowlist(listing))]);
            connector in after.lists && after.lists[connector] == SpiffeIds(listing)
    ensures var after := Run(c, events + [Forgotten] + [Listed] + [Received(connector, Allowlist([]))]);
            connector in after.lists && after.lists[connector] == {}
  {
    hide Run;
    var listing := Listing(Run(c, events).registry);
    RunStep(c, events, Listed);
    RunStep(c, events + [Listed], Received(connector, Allowlist(listing)));
    RunStep(c, events, Forgotten);
    RunStep(c, events + [Forgotten], Listed);
    RunStep(c, events + [Forgotten] + [Listed], Received(connector, Allowlist([])));
    assert Listing(RegistryValue(map[], [])) == [];
  }

  /** A message that was never sent and carries an id changes nothing. */
  lemma UnsentIgnored(c: Setting, events: seq<Event>, connector: string, m: Message)
    requires m !in Run(c, events).sent && !m.Other?
    ensures Run(c, events + [Received(connector, m)]) == Run(c, events)
  {
    hide Run;
    RunStep(c, events, Received(connector, m));
  }
}
