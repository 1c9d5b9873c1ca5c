/** What a new process reads back: over all runs, how the saved copy relates to memory, and what a restart changes. */
module TokenReloads {
  import opened Tokens
  import opened TokenRuns

  // ---------- Over all runs, whatever the saves ----------

  lemma {:induction false} RecordsWellBound(b: Backing, events: seq<Event>)
    ensures UsedIsBound(Run(b, events).memory) && UsedIsBound(Run(b, events).saved)
  {
    hide Save, UsedIsBound, Change;
    if events == [] {
      NothingBound();
    } else {
      var n := |events| - 1;
      var s := Run(b, events[..n]);
      RecordsWellBound(b, events[..n]);
      StepSplits(b, s, events[n]);
      ChangeStaysBound(s, events[n]);
      SavingStaysBound(b, Change(s, events[n]));
    }
  }

  lemma NothingBound()
    ensures UsedIsBound(map[])
  {
  }

  lemma ChangeStaysBound(s: Store, e: Event)
    requires UsedIsBound(s.memory) && UsedIsBound(s.saved)
    ensures UsedIsBound(Change(s, e).memory) && UsedIsBound(Change(s, e).saved)
  {
  }

  lemma SavingStaysBound(b: Backing, s: Store)
    requires UsedIsBound(s.memory) && UsedIsBound(s.saved)
    ensures UsedIsBound(Save(b, s).memory) && UsedIsBound(Save(b, s).saved)
  {
    hide Save;
    SaveCatchesUp(b, s);
  }

  // ---------- Over runs whose saves succeed ----------

  /** The table has every record of memory, cut, and possibly others; the file is memory. */
  predicate Agrees(b: Backing, s: Store) {
    match b
    case Table =>
      && (forall h <- s.memory :: h in s.saved && s.saved[h] == Cut(s.memory[h]))
      && (forall h <- s.saved :: Cut(s.saved[h]) == s.saved[h])
    case File => s.saved == s.memory
    case Nowhere => s.saved == map[]
  }

  lemma CutTwice(r: Record)
    ensures Cut(Cut(r)) == Cut(r)
  {
  }

  lemma SavingAgrees(b: Backing, s: Store)
    requires b == Table ==> forall h <- s.saved :: Cut(s.saved[h]) == s.saved[h]
    requires b == Nowhere ==> s.saved == map[]
    ensures Agrees(b, Save(b, s))
  {
    hide Cut;
    forall h | h in s.memory ensures Cut(Cut(s.memory[h])) == Cut(s.memory[h]) {
      CutTwice(s.memory[h]);
    }
  }

  lemma {:induction false} SaveAgrees(b: Backing, events: seq<Event>)
    requires SavesSucceed(events)
    ensures Agrees(b, Run(b, events))
  {
    hide Save, Cut;
    if events != [] {
      var n := |events| - 1;
      var s, e := Run(b, events[..n]), events[n];
      SaveAgrees(b, events[..n]);
      assert e in events;
      StepSplits(b, s, e);
      if Saves(s, e) {
        SavingAgrees(b, Change(s, e));
      }
    }
  }

  /** The records in memory have been saved with their bindings. */
  lemma AgreesIsSynced(b: Backing, s: Store)
    requires Agrees(b, s)
    ensures Synced(b, s)
  {
  }

  /** A restart gives back memory, cut for the table, exactly when the table holds no record that memory has dropped. */
  lemma ReloadExact(b: Backing, events: seq<Event>)
    requires SavesSucceed(events) && b != Nowhere
    ensures var s := Run(b, events);
            Restart(s).memory == (if b == Table then map h <- s.memory :: Cut(s.memory[h]) else s.memory)
            <==> s.saved.Keys <= s.memory.Keys
  {
    hide Cut;
    var s := Run(b, events);
    SaveAgrees(b, events);
    if b == Table {
      var cut := map h <- s.memory :: Cut(s.memory[h]);
      assert cut.Keys == s.memory.Keys;
      if s.saved.Keys <= s.memory.Keys {
        assert s.saved == cut;
      }
    }
  }

  lemma {:induction false} NoDeletesNothingStale(b: Backing, events: seq<Event>)
    requires NoDeletes(events)
    ensures Run(b, events).saved.Keys <= Run(b, events).memory.Keys
  {
    hide Save;
    if events != [] {
      var n := |events| - 1;
      var s := Run(b, events[..n]);
      NoDeletesNothingStale(b, events[..n]);
      assert events[n] in events;
      StepSplits(b, s, events[n]);
      SaveCatchesUp(b, Change(s, events[n]));
    }
  }

  // ---------- What a restart makes acceptable ----------

  /** A restart lets nobody use a token at a time when it would have been refused. */
  ghost predicate ReloadNeverExtends(s: Store) {
    forall now, hash, id :: ConsumeSucceeds(Restart(s), now, hash, id, true) ==> ConsumeSucceeds(s, now, hash, id, true)
  }

  /** No table record is one that memory has dropped, and no expiry is one that the cut turns into none. */
  predicate ReloadSafe(b: Backing, s: Store) {
    b == Table ==> s.saved.Keys <= s.memory.Keys && forall h <- s.memory :: !OddExpiry(s.memory[h])
  }

  /** Restarting extends no token's life exactly in the reload-safe states, after any run whose saves succeed. */
  lemma NeverExtendsExactly(b: Backing, events: seq<Event>)
    requires SavesSucceed(events)
    ensures ReloadNeverExtends(Run(b, events)) <==> ReloadSafe(b, Run(b, events))
  {
    hide Run, SavesSucceed;
    var s := Run(b, events);
    SaveAgrees(b, events);
    RecordsWellBound(b, events);
    if ReloadSafe(b, s) {
      SafeNeverExtends(b, s);
    }
    if ReloadNeverExtends(s) {
      NeverExtendsIsSafe(b, s);
    }
  }

  lemma SafeNeverExtends(b: Backing, s: Store)
    requires Agrees(b, s) && ReloadSafe(b, s)
    ensures ReloadNeverExtends(s)
  {
    hide OddExpiry, Expired;
    forall now, hash, id | ConsumeSucceeds(Restart(s), now, hash, id, true)
      ensures ConsumeSucceeds(s, now, hash, id, true)
    {
      if b == Table {
        CutNeverExtends(s.memory[hash]);
        assert !Expired(Cut(s.memory[hash]), now);
      }
    }
  }

  lemma NeverExtendsIsSafe(b: Backing, s: Store)
    requires Agrees(b, s) && UsedIsBound(s.saved) && ReloadNeverExtends(s)
    ensures ReloadSafe(b, s)
  {
    if b == Table {
      forall h | h in s.saved
        ensures h in s.memory && forall now :: !Expired(Cut(s.memory[h]), now) ==> !Expired(s.memory[h], now)
      {
        var r := s.saved[h];
        var id := if r.used then r.boundTo else "x";
        assert ConsumeSucceeds(Restart(s), r.expiresAt, h, id, true);
        assert ConsumeSucceeds(s, r.expiresAt, h, id, true);
        forall now | !Expired(r, now) ensures !Expired(s.memory[h], now) {
          assert ConsumeSucceeds(Restart(s), now, h, id, true);
          assert ConsumeSucceeds(s, now, h, id, true);
        }
      }
      forall h | h in s.memory ensures !OddExpiry(s.memory[h]) {
        CutNeverExtends(s.memory[h]);
      }
    }
  }

  predicate NoOddExpiry(m: map<string, Record>) {
    forall h <- m :: !OddExpiry(m[h])
  }

  lemma CutIsNotOdd(r: Record)
    ensures !OddExpiry(Cut(r))
  {
    assert NO_EXPIRY == -62135596800 * SECOND;
    assert Cut(r).expiresAt == r.expiresAt / SECOND * SECOND;
  }

  lemma {:induction false} ExpiriesStayEven(b: Backing, events: seq<Event>)
    requires forall e <- events :: e.Created? ==> !OddExpiry(Record(e.expiresAt, false, ""))
    ensures NoOddExpiry(Run(b, events).memory) && NoOddExpiry(Run(b, events).saved)
  {
    hide Save, Cut;
    if events != [] {
      var n := |events| - 1;
      var s := Run(b, events[..n]);
      ExpiriesStayEven(b, events[..n]);
      assert events[n] in events;
      StepSplits(b, s, events[n]);
      SavingStaysEven(b, Change(s, events[n]));
    }
  }

  lemma SavingStaysEven(b: Backing, s: Store)
    requires NoOddExpiry(s.memory) && NoOddExpiry(s.saved)
    ensures NoOddExpiry(Save(b, s).memory) && NoOddExpiry(Save(b, s).saved)
  {
    hide Cut, OddExpiry;
    forall h | h in s.memory ensures !OddExpiry(Cut(s.memory[h])) {
      CutIsNotOdd(s.memory[h]);
    }
  }

  /** Without deletions and odd expiries, no run whose saves succeed can be restarted into accepting more. */
  lemma OrdinaryRunsNeverExtend(b: Backing, events: seq<Event>)
    requires SavesSucceed(events) && NoDeletes(events)
    requires forall e <- events :: e.Created? ==> !OddExpiry(Record(e.expiresAt, false, ""))
    ensures ReloadNeverExtends(Run(b, events))
  {
    hide Run, OddExpiry;
    NoDeletesNothingStale(b, events);
    ExpiriesStayEven(b, events);
    NeverExtendsExactly(b, events);
  }

  /** After any run whose saves succeed, a deletion survives a restart unless the table holds a record of the id. */
  lemma RunDeletionSurvives(b: Backing, events: seq<Event>, id: string)
    requires SavesSucceed(events) && id != ""
    ensures var s := Run(b, events + [Deleted(id, true), Restarted]);
            (forall h <- s.memory :: s.memory[h].boundTo != id)
            <==> b != Table || forall h <- Run(b, events).saved :: Run(b, events).saved[h].boundTo != id
  {
    hide Save, Run;
    var s := Run(b, events);
    SaveAgrees(b, events);
    AgreesIsSynced(b, s);
    DeletionSurvivesRestart(b, s, id);
    assert events + [Deleted(id, true), Restarted] == events + [Deleted(id, true)] + [Restarted];
    RunSnoc(b, events, Deleted(id, true));
    RunSnoc(b, events + [Deleted(id, true)], Restarted);
  }
}
