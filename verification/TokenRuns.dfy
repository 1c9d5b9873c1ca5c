/** Runs of the token store: creations, uses, deletions and restarts, with saves that may fail. */
module TokenRuns {
  import opened Tokens

  datatype Event =
    | Created(hash: string, expiresAt: int, saveOk: bool)
    | Consumed(now: int, hash: string, id: string, saveOk: bool)
    | Deleted(id: string, saveOk: bool)
    | Restarted

  function Step(b: Backing, s: Store, e: Event): Store {
    match e
    case Created(hash, expiresAt, ok) => Create(b, s, hash, expiresAt, ok)
    case Consumed(now, hash, id, ok) => Consume(b, s, now, hash, id, ok)
    case Deleted(id, ok) => Delete(b, s, id, ok)
    case Restarted => Restart(s)
  }

  const NEW_STORE := Store(map[], map[])

  function Run(b: Backing, events: seq<Event>): Store {
    if events == [] then NEW_STORE else Step(b, Run(b, events[..|events| - 1]), events[|events| - 1])
  }

  lemma RunSnoc(b: Backing, events: seq<Event>, e: Event)
    ensures Run(b, events + [e]) == Step(b, Run(b, events), e)
    ensures Served(b, events + [e]) == Served(b, events) + ServedBy(Run(b, events), e)
  {
    assert (events + [e])[..|events|] == events;
  }

  /** The (token, id) pair for which a consumption reports success. */
  function ServedBy(s: Store, e: Event): set<(string, string)> {
    if e.Consumed? && ConsumeSucceeds(s, e.now, e.hash, e.id, e.saveOk) then {(e.hash, e.id)} else {}
  }

  function Served(b: Backing, events: seq<Event>): set<(string, string)> {
    if events == [] then {}
    else
      var last, before := events[|events| - 1], events[..|events| - 1];
      Served(b, before) + ServedBy(Run(b, before), last)
  }

  /** New tokens are new. */
  predicate FreshTokens(events: seq<Event>) {
    forall i, j :: 0 <= i < j < |events| && events[i].Created? && events[j].Created? ==>
      events[i].hash != events[j].hash
  }

  predicate SavesSucceed(events: seq<Event>) {
    forall e <- events :: !e.Restarted? ==> e.saveOk
  }

  predicate NoDeletes(events: seq<Event>) {
    forall e <- events :: !e.Deleted?
  }

  ghost predicate WasCreated(hash: string, events: seq<Event>) {
    exists e <- events :: e.Created? && e.hash == hash
  }

  lemma CreatedGrows(events: seq<Event>, e: Event)
    ensures forall h :: WasCreated(h, events + [e]) <==> WasCreated(h, events) || (e.Created? && e.hash == h)
  {
  }

  lemma FreshPrefix(events: seq<Event>, n: nat)
    requires n < |events| && FreshTokens(events)
    ensures FreshTokens(events[..n])
    ensures events[n].Created? ==> !WasCreated(events[n].hash, events[..n])
  {
  }

  // ---------- A step is a change in memory, then perhaps a save ----------

  function Change(s: Store, e: Event): Store {
    match e
    case Created(hash, expiresAt, _) => s.(memory := s.memory[hash := Record(expiresAt, false, "")])
    case Consumed(now, hash, id, _) =>
      if Consumable(s, now, hash, id) && !s.memory[hash].used
      then s.(memory := s.memory[hash := Record(s.memory[hash].expiresAt, true, id)]) else s
    case Deleted(id, _) =>
      if id == "" then s
      else s.(memory := map h <- s.memory | s.memory[h].boundTo != id :: s.memory[h])
    case Restarted => Restart(s)
  }

  /** The step ends in a save that succeeds. */
  predicate Saves(s: Store, e: Event) {
    match e
    case Created(_, _, ok) => ok
    case Consumed(now, hash, id, ok) => Consumable(s, now, hash, id) && !s.memory[hash].used && ok
    case Deleted(id, ok) => id != "" && ok
    case Restarted => false
  }

  lemma StepSplits(b: Backing, s: Store, e: Event)
    ensures Step(b, s, e) == SaveIf(b, Change(s, e), Saves(s, e))
  {
  }

  // ---------- The saved copy lags behind memory, but never contradicts it ----------

  predicate UsedIsBound(m: map<string, Record>) {
    forall h <- m :: m[h].used <==> m[h].boundTo != ""
  }

  /** A use that has been saved is still in memory, by the same id. */
  predicate Lags(s: Store) {
    && UsedIsBound(s.memory) && UsedIsBound(s.saved)
    && forall h <- s.memory :: h in s.saved && s.saved[h].used ==>
         s.memory[h].used && s.memory[h].boundTo == s.saved[h].boundTo
  }

  ghost predicate Known(s: Store, events: seq<Event>) {
    (forall h <- s.memory :: WasCreated(h, events)) && forall h <- s.saved :: WasCreated(h, events)
  }

  lemma LagsStep(b: Backing, s: Store, e: Event)
    requires Lags(s) && (e.Created? ==> e.hash !in s.saved)
    ensures Lags(Change(s, e)) && Lags(Step(b, s, e))
  {
    hide Save;
    StepSplits(b, s, e);
    SaveCatchesUp(b, Change(s, e));
  }

  /** A save leaves each record as it was or as memory has it; cutting an expiry does not touch the binding. */
  lemma SaveCatchesUp(b: Backing, s: Store)
    ensures var s' := Save(b, s);
            && s'.memory == s.memory && (b == Nowhere ==> s' == s)
            && (forall h <- s'.saved :: h in s.memory || h in s.saved)
            && (forall h <- s'.saved ::
                  if h in s.memory && b != Nowhere
                  then s'.saved[h].used == s.memory[h].used && s'.saved[h].boundTo == s.memory[h].boundTo
                  else h in s.saved && s'.saved[h] == s.saved[h])
  {
  }

  lemma NewStoreLags()
    ensures Lags(NEW_STORE)
  {
  }

  lemma KnownStep(b: Backing, s: Store, events: seq<Event>, e: Event)
    requires Known(s, events)
    ensures Known(Step(b, s, e), events + [e])
  {
    hide Save, WasCreated;
    CreatedGrows(events, e);
    StepSplits(b, s, e);
    SaveCatchesUp(b, Change(s, e));
  }

  lemma {:induction false} RunLags(b: Backing, events: seq<Event>)
    requires FreshTokens(events)
    ensures Lags(Run(b, events)) && Known(Run(b, events), events)
  {
    hide Step, Lags, WasCreated, FreshTokens;
    if events == [] {
      NewStoreLags();
    } else {
      var n := |events| - 1;
      FreshPrefix(events, n);
      RunLags(b, events[..n]);
      LagsStep(b, Run(b, events[..n]), events[n]);
      KnownStep(b, Run(b, events[..n]), events[..n], events[n]);
      assert events == events[..n] + [events[n]];
    }
  }

  // ---------- Whose use has been saved ----------

  /** A save has succeeded while memory held the token as used. */
  ghost predicate UseSaved(b: Backing, events: seq<Event>, h: string) {
    if events == [] then false
    else
      var before, s := events[..|events| - 1], Run(b, events);
      UseSaved(b, before, h)
      || (Saves(Run(b, before), events[|events| - 1]) && h in s.memory && s.memory[h].used)
  }

  /** The saved copy has a token as used exactly when its use has been saved; memory never forgets such a use. */
  ghost predicate CopyTellsUses(b: Backing, events: seq<Event>) {
    var s := Run(b, events);
    && (forall h <- s.saved :: s.saved[h].used <==> UseSaved(b, events, h))
    && (forall h <- s.memory :: UseSaved(b, events, h) ==> s.memory[h].used)
    && (forall h :: UseSaved(b, events, h) ==> WasCreated(h, events))
    && (b == Nowhere ==> s.saved == map[])
  }

  lemma UseSavedSnoc(b: Backing, events: seq<Event>, e: Event, h: string)
    ensures var s := Run(b, events);
            var m := Change(s, e).memory;
            UseSaved(b, events + [e], h) <==> UseSaved(b, events, h) || (Saves(s, e) && h in m && m[h].used)
  {
    hide Save;
    RunSnoc(b, events, e);
    assert (events + [e])[..|events|] == events;
    StepSplits(b, Run(b, events), e);
    SaveCatchesUp(b, Change(Run(b, events), e));
  }

  /** A change takes back no saved use: of a token in memory whose use has been saved it leaves the use. */
  lemma ChangeKeepsUse(s: Store, e: Event, h: string)
    requires Lags(s) && h in Change(s, e).memory
    requires e.Created? ==> e.hash != h
    requires h in s.saved ==> s.saved[h].used
    requires h in s.memory ==> s.memory[h].used
    ensures Change(s, e).memory[h].used
  {
  }

  lemma CopyTellsOneUse(b: Backing, events: seq<Event>, e: Event, h: string)
    requires CopyTellsUses(b, events) && Lags(Run(b, events)) && Known(Run(b, events), events)
    requires e.Created? ==> !WasCreated(e.hash, events)
    ensures var all, s' := events + [e], Run(b, events + [e]);
            && (h in s'.saved ==> (s'.saved[h].used <==> UseSaved(b, all, h)))
            && (h in s'.memory && UseSaved(b, all, h) ==> s'.memory[h].used)
            && (UseSaved(b, all, h) ==> WasCreated(h, all))
  {
    hide Save, UseSaved, WasCreated, Run, Lags, Change, Saves;
    var s := Run(b, events);
    var s1 := Change(s, e);
    RunSnoc(b, events, e);
    StepSplits(b, s, e);
    LagsStep(b, s, e);
    SaveCatchesUp(b, s1);
    CreatedGrows(events, e);
    ChangedIsKnown(s, e, events, h);
    UseSavedSnoc(b, events, e, h);
    if h in s1.memory && UseSaved(b, events, h) {
      ChangeKeepsUse(s, e, h);
    }
  }

  lemma ChangedIsKnown(s: Store, e: Event, events: seq<Event>, h: string)
    requires Known(s, events)
    ensures Change(s, e).saved == s.saved
    ensures h in Change(s, e).memory ==> WasCreated(h, events) || (e.Created? && e.hash == h)
  {
    hide WasCreated;
  }

  lemma CopyTellsUsesStep(b: Backing, events: seq<Event>, e: Event)
    requires CopyTellsUses(b, events) && Lags(Run(b, events)) && Known(Run(b, events), events)
    requires e.Created? ==> !WasCreated(e.hash, events)
    ensures CopyTellsUses(b, events + [e])
  {
    hide Save, UseSaved, WasCreated, Run, Lags, Change;
    forall h
      ensures var all, s' := events + [e], Run(b, events + [e]);
              && (h in s'.saved ==> (s'.saved[h].used <==> UseSaved(b, all, h)))
              && (h in s'.memory && UseSaved(b, all, h) ==> s'.memory[h].used)
              && (UseSaved(b, all, h) ==> WasCreated(h, all))
    {
      CopyTellsOneUse(b, events, e, h);
    }
    var s := Run(b, events);
    RunSnoc(b, events, e);
    StepSplits(b, s, e);
    SaveCatchesUp(b, Change(s, e));
    assert Change(s, e).saved == s.saved by {
      ChangedIsKnown(s, e, events, "");
    }
  }

  lemma {:induction false} RunTellsUses(b: Backing, events: seq<Event>)
    requires FreshTokens(events)
    ensures CopyTellsUses(b, events)
  {
    if events != [] {
      var n := |events| - 1;
      FreshPrefix(events, n);
      RunTellsUses(b, events[..n]);
      RunLags(b, events[..n]);
      CopyTellsUsesStep(b, events[..n], events[n]);
      assert events == events[..n] + [events[n]];
    }
  }

  // ---------- One id per token ----------

  predicate OneIdEach(served: set<(string, string)>) {
    (forall p <- served :: p.1 != "") && forall p <- served, q <- served :: p.0 == q.0 ==> p.1 == q.1
  }

  /** A token that was served is bound to the id it served. */
  predicate BoundAsServed(hash: string, r: Record, served: set<(string, string)>) {
    forall p <- served :: p.0 == hash ==> r.boundTo == p.1
  }

  /** The saved copy has a token as unused that has been served: it is what a restart would forget. */
  predicate Exposed(s: Store, served: set<(string, string)>) {
    exists p <- served :: p.0 in s.saved && !s.saved[p.0].used
  }

  /** Holds after every run of fresh tokens that was never restarted while exposed. */
  ghost predicate Consistent(s: Store, served: set<(string, string)>, events: seq<Event>) {
    && Lags(s) && Known(s, events) && OneIdEach(served)
    && (forall h <- s.memory :: BoundAsServed(h, s.memory[h], served))
    && (forall h <- s.saved :: s.saved[h].used ==> BoundAsServed(h, s.saved[h], served))
    && (forall p <- served :: WasCreated(p.0, events))
  }

  lemma ChangeConsistent(s: Store, served: set<(string, string)>, e: Event)
    requires Lags(s) && OneIdEach(served)
    requires forall h <- s.memory :: BoundAsServed(h, s.memory[h], served)
    requires forall h <- s.saved :: s.saved[h].used ==> BoundAsServed(h, s.saved[h], served)
    requires e.Created? ==> forall p <- served :: p.0 != e.hash
    requires e.Restarted? ==> !Exposed(s, served)
    ensures var served', s' := served + ServedBy(s, e), Change(s, e);
            && OneIdEach(served')
            && (forall h <- s'.memory :: BoundAsServed(h, s'.memory[h], served'))
            && (forall h <- s'.saved :: s'.saved[h].used ==> BoundAsServed(h, s'.saved[h], served'))
  {
    var served' := served + ServedBy(s, e);
    if e.Consumed? && Consumable(s, e.now, e.hash, e.id) {
      assert BoundAsServed(e.hash, s.memory[e.hash], served);
      assert forall p <- served' :: p in served || p == (e.hash, e.id);
    } else {
      assert served' == served;
    }
  }

  /** Whatever becomes of its save, every step but a restart while exposed keeps tokens with the ids they served. */
  lemma StepConsistent(b: Backing, s: Store, served: set<(string, string)>, events: seq<Event>, e: Event)
    requires Consistent(s, served, events)
    requires e.Created? ==> !WasCreated(e.hash, events)
    requires e.Restarted? ==> !Exposed(s, served)
    ensures Consistent(Step(b, s, e), served + ServedBy(s, e), events + [e])
  {
    hide Save, WasCreated, Lags, Exposed;
    CreatedGrows(events, e);
    StepSplits(b, s, e);
    LagsStep(b, s, e);
    ChangeConsistent(s, served, e);
    SaveCatchesUp(b, Change(s, e));
  }

  /** The condition to check before each restart: every served token still in the saved copy has had its use saved. */
  ghost predicate UsesSaved(b: Backing, events: seq<Event>) {
    forall p <- Served(b, events) :: p.0 in Run(b, events).saved ==> UseSaved(b, events, p.0)
  }

  lemma ExposedByHistory(b: Backing, events: seq<Event>)
    requires FreshTokens(events)
    ensures Exposed(Run(b, events), Served(b, events)) <==> !UsesSaved(b, events)
  {
    hide UseSaved;
    RunTellsUses(b, events);
  }

  ghost predicate SafeRestarts(b: Backing, events: seq<Event>) {
    forall k :: 0 <= k < |events| && events[k].Restarted? ==> UsesSaved(b, events[..k])
  }

  lemma {:induction false} SafeRunConsistent(b: Backing, events: seq<Event>)
    requires FreshTokens(events) && SafeRestarts(b, events)
    ensures Consistent(Run(b, events), Served(b, events), events)
  {
    hide Consistent, UsesSaved, Exposed;
    if events == [] {
      NewStoreConsistent();
    } else {
      var n := |events| - 1;
      FreshPrefix(events, n);
      assert forall k :: 0 <= k < n ==> events[..n][..k] == events[..k];
      SafeRunConsistent(b, events[..n]);
      assert events == events[..n] + [events[n]];
      ExposedByHistory(b, events[..n]);
      StepConsistent(b, Run(b, events[..n]), Served(b, events[..n]), events[..n], events[n]);
    }
  }

  lemma NewStoreConsistent()
    ensures Consistent(NEW_STORE, {}, [])
  {
  }

  /** In a consistent state a restart and one more consumption can serve a second id exactly when it is exposed. */
  lemma RestartRisk(s: Store, served: set<(string, string)>, events: seq<Event>)
    requires Consistent(s, served, events)
    ensures (exists now, h, j :: !OneIdEach(served + ServedBy(Restart(s), Consumed(now, h, j, true))))
       <==> Exposed(s, served)
  {
    if Exposed(s, served) {
      var p :| p in served && p.0 in s.saved && !s.saved[p.0].used;
      var now, j := s.saved[p.0].expiresAt, p.1 + "x";
      assert ServedBy(Restart(s), Consumed(now, p.0, j, true)) == {(p.0, j)};
      assert (p.0, j) in served + {(p.0, j)};
      assert !OneIdEach(served + {(p.0, j)});
    } else {
      forall now, h, j ensures OneIdEach(served + ServedBy(Restart(s), Consumed(now, h, j, true))) {
        ChangeConsistent(s, served, Restarted);
        assert served + ServedBy(s, Restarted) == served;
        assert Lags(Restart(s));
        ChangeConsistent(Restart(s), served, Consumed(now, h, j, true));
      }
    }
  }

  /** With fresh tokens and whatever saves, no token serves two ids as long as each restart finds its uses saved. */
  lemma OneIdWhileSafe(b: Backing, events: seq<Event>)
    requires FreshTokens(events) && SafeRestarts(b, events)
    ensures OneIdEach(Served(b, events))
  {
    SafeRunConsistent(b, events);
  }

  /** No restart of the run, followed by any one consumption, serves a token to a second id. */
  ghost predicate NoSecondId(b: Backing, events: seq<Event>) {
    forall k, now, h, j :: 0 <= k < |events| && events[k].Restarted? ==>
      OneIdEach(Served(b, AfterRestart(events, k, now, h, j)))
  }

  /** The run up to its k-th event, a restart, and then one consumption. */
  function AfterRestart(events: seq<Event>, k: nat, now: int, h: string, j: string): seq<Event>
    requires k < |events|
  {
    events[..k + 1] + [Consumed(now, h, j, true)]
  }

  lemma ServedAfterRestart(b: Backing, events: seq<Event>, k: nat, now: int, h: string, j: string)
    requires k < |events| && events[k].Restarted?
    ensures Served(b, AfterRestart(events, k, now, h, j))
         == Served(b, events[..k]) + ServedBy(Restart(Run(b, events[..k])), Consumed(now, h, j, true))
  {
    assert events[..k + 1] == events[..k] + [events[k]];
    RunSnoc(b, events[..k], events[k]);
    RunSnoc(b, events[..k + 1], Consumed(now, h, j, true));
  }

  lemma {:induction false} UnsafeRestart(b: Backing, events: seq<Event>, n: nat)
    requires FreshTokens(events) && n <= |events| && NoSecondId(b, events)
    ensures SafeRestarts(b, events[..n])
  {
    hide UsesSaved, Consistent, OneIdEach, Exposed;
    if n > 0 {
      var k := n - 1;
      UnsafeRestart(b, events, k);
      assert forall i :: 0 <= i < n ==> events[..n][..i] == events[..i];
      assert forall i :: 0 <= i < k ==> events[..k][..i] == events[..i];
      if events[k].Restarted? {
        FreshPrefix(events, k);
        SafeRunConsistent(b, events[..k]);
        RestartRisk(Run(b, events[..k]), Served(b, events[..k]), events[..k]);
        forall now, h, j
          ensures OneIdEach(Served(b, events[..k]) + ServedBy(Restart(Run(b, events[..k])), Consumed(now, h, j, true)))
        {
          ServedAfterRestart(b, events, k, now, h, j);
          assert OneIdEach(Served(b, AfterRestart(events, k, now, h, j)));
        }
        ExposedByHistory(b, events[..k]);
      }
    }
  }

  /**
   Exactly when failed saves matter: no restart of a run can be followed by a use that serves a second id if and
   only if, for every served token in the saved copy, a save has succeeded before it while memory held the use.
   */
  lemma FailedSavesMatterExactly(b: Backing, events: seq<Event>)
    requires FreshTokens(events)
    ensures NoSecondId(b, events) <==> SafeRestarts(b, events)
  {
    hide UsesSaved, Consistent, OneIdEach, Exposed;
    if SafeRestarts(b, events) {
      forall k, now, h, j | 0 <= k < |events| && events[k].Restarted?
        ensures OneIdEach(Served(b, AfterRestart(events, k, now, h, j)))
      {
        SafeExtension(b, events, k, now, h, j);
        OneIdWhileSafe(b, AfterRestart(events, k, now, h, j));
      }
    }
    if NoSecondId(b, events) {
      UnsafeRestart(b, events, |events|);
      assert events[..|events|] == events;
    }
  }

  lemma SafeExtension(b: Backing, events: seq<Event>, k: nat, now: int, h: string, j: string)
    requires k < |events| && FreshTokens(events) && SafeRestarts(b, events)
    ensures var longer := AfterRestart(events, k, now, h, j);
            FreshTokens(longer) && SafeRestarts(b, longer)
  {
    hide UsesSaved;
    var longer := AfterRestart(events, k, now, h, j);
    assert forall i :: 0 <= i <= k ==> longer[i] == events[i] && longer[..i] == events[..i];
  }

  /** Saves that all succeed make every restart safe. */
  lemma {:induction false} SavedAtOnce(b: Backing, events: seq<Event>)
    requires FreshTokens(events) && SavesSucceed(events)
    ensures forall h <- Run(b, events).memory :: Run(b, events).memory[h].used ==> UseSaved(b, events, h)
    ensures forall p <- Served(b, events) :: UseSaved(b, events, p.0)
  {
    hide UseSaved, Save;
    if events != [] {
      var n := |events| - 1;
      var before, e, s := events[..n], events[n], Run(b, events[..n]);
      FreshPrefix(events, n);
      SavedAtOnce(b, before);
      RunTellsUses(b, before);
      assert events == before + [e];
      assert e in events;
      forall h
        ensures UseSaved(b, events, h)
           <==> UseSaved(b, before, h) || (Saves(s, e) && h in Change(s, e).memory && Change(s, e).memory[h].used)
      {
        UseSavedSnoc(b, before, e, h);
      }
      StepSplits(b, s, e);
      SaveCatchesUp(b, Change(s, e));
    }
  }

  lemma SavesMakeSafe(b: Backing, events: seq<Event>)
    requires FreshTokens(events) && SavesSucceed(events)
    ensures SafeRestarts(b, events)
  {
    hide UseSaved;
    forall k | 0 <= k < |events| && events[k].Restarted? ensures UsesSaved(b, events[..k]) {
      FreshPrefix(events, k);
      SavedAtOnce(b, events[..k]);
    }
  }

  /** While saves succeed and tokens are fresh, no token is ever accepted for two ids. */
  lemma OneIdPerToken(b: Backing, events: seq<Event>, hash: string, i: string, j: string)
    requires SavesSucceed(events) && FreshTokens(events)
    requires (hash, i) in Served(b, events) && (hash, j) in Served(b, events)
    ensures i == j
  {
    SavesMakeSafe(b, events);
    OneIdWhileSafe(b, events);
  }

  /** One failed save and a restart are enough to serve two ids. */
  lemma FailedSaveServesTwo(b: Backing) returns (events: seq<Event>)
    requires b != Nowhere
    ensures FreshTokens(events) && !SavesSucceed(events)
    ensures ("t", "a") in Served(b, events) && ("t", "b") in Served(b, events)
  {
    hide Run, Served, Save;
    var first := [Created("t", NO_EXPIRY, true), Consumed(0, "t", "a", false)];
    var again, other := Consumed(0, "t", "a", true), Consumed(0, "t", "b", true);
    var unused, used := Record(NO_EXPIRY, false, ""), Record(NO_EXPIRY, true, "a");
    assert Run(b, first) == Store(map["t" := used], map["t" := unused]) by {
      UnsavedUse(b);
    }
    var s := Store(map["t" := used], map["t" := unused]);
    RunSnoc(b, first, again);
    assert Run(b, first + [again]) == s && ("t", "a") in Served(b, first + [again]);
    RunSnoc(b, first + [again], Restarted);
    assert Run(b, first + [again] + [Restarted]) == Restart(s);
    RunSnoc(b, first + [again] + [Restarted], other);
    assert ServedBy(Restart(s), other) == {("t", "b")};
    events := first + [again] + [Restarted] + [other];
    assert FreshTokens(events) && events[1] == first[1];
  }

  lemma UnsavedUse(b: Backing)
    requires b != Nowhere
    ensures Run(b, [Created("t", NO_EXPIRY, true), Consumed(0, "t", "a", false)])
         == Store(map["t" := Record(NO_EXPIRY, true, "a")], map["t" := Record(NO_EXPIRY, false, "")])
  {
    var r := Record(NO_EXPIRY, false, "");
    assert NO_EXPIRY / SECOND * SECOND == NO_EXPIRY;
    RunSnoc(b, [], Created("t", NO_EXPIRY, true));
    assert [] + [Created("t", NO_EXPIRY, true)] == [Created("t", NO_EXPIRY, true)];
    assert Run(b, [Created("t", NO_EXPIRY, true)]) == Store(map["t" := r], map["t" := r]);
    RunSnoc(b, [Created("t", NO_EXPIRY, true)], Consumed(0, "t", "a", false));
    assert [Created("t", NO_EXPIRY, true)] + [Consumed(0, "t", "a", false)]
        == [Created("t", NO_EXPIRY, true), Consumed(0, "t", "a", false)];
  }
}
