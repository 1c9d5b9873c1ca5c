/** Enrolment tokens: created once, bound by their first use to one id, saved after every change. */
module Tokens {
  import Calendar

  const SECOND: int := 1_000_000_000

  /** Go's zero time.Time, which stands for "no expiry", in nanoseconds since the epoch. */
  const NO_EXPIRY: int := -62135596800 * SECOND

  datatype Record = Record(expiresAt: int, used: bool, boundTo: string)

  /** Where a store saves: a database table, a JSON file, or nowhere. */
  datatype Backing = Table | File | Nowhere

  datatype Store = Store(memory: map<string, Record>, saved: map<string, Record>)

  /** The table keeps whole seconds, rounded down as Unix() does. */
  function Cut(r: Record): Record {
    r.(expiresAt := r.expiresAt / SECOND * SECOND)
  }

  predicate Expired(r: Record, now: int) {
    r.expiresAt != NO_EXPIRY && now > r.expiresAt
  }

  // ---------- The operations on values ----------

  /** The table is only ever inserted into and updated; the file is written whole. */
  function Save(b: Backing, s: Store): Store {
    match b
    case Table => s.(saved := s.saved + map h <- s.memory :: Cut(s.memory[h]))
    case File => s.(saved := s.memory)
    case Nowhere => s
  }

  function SaveIf(b: Backing, s: Store, ok: bool): Store {
    if ok then Save(b, s) else s
  }

  function Restart(s: Store): Store {
    s.(memory := s.saved)
  }

  /** The expiry of a token drawn now from a store with this time to live. */
  function Lifetime(ttl: int, now: int): int {
    if ttl > 0 then now + ttl else NO_EXPIRY
  }

  function Create(b: Backing, s: Store, hash: string, expiresAt: int, saveOk: bool): Store {
    SaveIf(b, s.(memory := s.memory[hash := Record(expiresAt, false, "")]), saveOk)
  }

  /** The token exists, has not expired, and is unused or already this id's. */
  predicate Consumable(s: Store, now: int, hash: string, id: string) {
    && id != "" && hash in s.memory && !Expired(s.memory[hash], now)
    && (s.memory[hash].used ==> s.memory[hash].boundTo == id)
  }

  predicate ConsumeSucceeds(s: Store, now: int, hash: string, id: string, saveOk: bool) {
    Consumable(s, now, hash, id) && (s.memory[hash].used || saveOk)
  }

  function Consume(b: Backing, s: Store, now: int, hash: string, id: string, saveOk: bool): Store {
    if !Consumable(s, now, hash, id) || s.memory[hash].used then s
    else SaveIf(b, s.(memory := s.memory[hash := Record(s.memory[hash].expiresAt, true, id)]), saveOk)
  }

  function Delete(b: Backing, s: Store, id: string, saveOk: bool): Store {
    if id == "" then s
    else SaveIf(b, s.(memory := map h <- s.memory | s.memory[h].boundTo != id :: s.memory[h]), saveOk)
  }

  // ---------- The store ----------

  class TokenRecord {
    const hash: string
    const expiresAt: int
    var used: bool
    var connectorId: string

    constructor (hash: string, expiresAt: int, used: bool, connectorId: string)
      ensures this.hash == hash && this.expiresAt == expiresAt
      ensures this.used == used && this.connectorId == connectorId
    {
      this.hash, this.expiresAt, this.used, this.connectorId := hash, expiresAt, used, connectorId;
    }

    function Value(): Record
      reads this
    {
      Record(expiresAt, used, connectorId)
    }
  }

  class TokenStore {
    const hashOf: string -> string
    const ttl: int
    const backing: Backing
    var tokens: map<string, TokenRecord>
    var saved: map<string, Record>

    ghost predicate Valid()
      reads this
    {
      forall h <- tokens :: tokens[h].hash == h
    }

    ghost function Memory(): map<string, Record>
      reads this, tokens.Values
    {
      map h <- tokens :: tokens[h].Value()
    }

    ghost function Contents(): Store
      reads this, tokens.Values
    {
      Store(Memory(), saved)
    }

    /** A new process over what an earlier one saved. */
    constructor (hashOf: string -> string, ttl: int, backing: Backing, saved: map<string, Record>)
      ensures Valid() && this.hashOf == hashOf && this.ttl == ttl && this.backing == backing
      ensures Contents() == Restart(Store(map[], saved))
      ensures forall r <- tokens.Values :: fresh(r)
    {
      this.hashOf, this.ttl, this.backing, this.saved := hashOf, ttl, backing, saved;
      tokens := map[];
      new;
      Load();
    }

    method Load()
      modifies this`tokens
      ensures Valid() && Contents() == Restart(old(Contents()))
      ensures forall r <- tokens.Values :: fresh(r)
    {
      var records: map<string, TokenRecord> := map[];
      var rest := saved.Keys;
      while rest != {}
        invariant rest <= saved.Keys && records.Keys == saved.Keys - rest
        invariant forall h <- records :: fresh(records[h]) && records[h].hash == h && records[h].Value() == saved[h]
        decreases rest
      {
        var h :| h in rest;
        var rec := new TokenRecord(h, saved[h].expiresAt, saved[h].used, saved[h].boundTo);
        records, rest := records[h := rec], rest - {h};
      }
      tokens := records;
    }

    /** One upsert per record in memory, or the whole file at once. */
    method SaveLocked(saveOk: bool) returns (ok: bool)
      requires Valid()
      modifies this`saved
      ensures Valid() && ok == saveOk && Contents() == SaveIf(backing, old(Contents()), saveOk)
    {
      if !saveOk {
        return false;
      }
      ok := true;
      var values := map h <- tokens :: tokens[h].Value();
      match backing {
        case Table => UpsertAll(values);
        case File => saved := values;
        case Nowhere =>
      }
    }

    method UpsertAll(values: map<string, Record>)
      modifies this`saved
      ensures saved == old(saved) + map h <- values :: Cut(values[h])
    {
      var rest := values.Keys;
      while rest != {}
        invariant rest <= values.Keys && saved.Keys == old(saved).Keys + (values.Keys - rest)
        invariant forall h <- saved ::
                    saved[h] == if h in values && h !in rest then Cut(values[h]) else old(saved)[h]
        decreases rest
      {
        var h :| h in rest;
        saved, rest := saved[h := Cut(values[h])], rest - {h};
      }
    }

    /**
     The raw token is drawn at random; the clock and the outcome of the save are parameters. After a failed save
     the caller is told no expiry, but the record stays in memory.
     */
    method CreateToken(token: string, now: int, saveOk: bool) returns (ok: bool, expiresAt: int)
      requires Valid()
      modifies this
      ensures Valid() && ok == saveOk && expiresAt == if saveOk then Lifetime(ttl, now) else NO_EXPIRY
      ensures Contents() == Create(backing, old(Contents()), hashOf(token), Lifetime(ttl, now), saveOk)
      ensures forall t, id, saved :: id != "" && saved ==>
        (ConsumeSucceeds(Contents(), t, hashOf(token), id, saved)
         <==> ttl <= 0 || t <= now + ttl || now + ttl == NO_EXPIRY)
      ensures forall r <- tokens.Values :: r in old(tokens.Values) || fresh(r)
    {
      expiresAt := Lifetime(ttl, now);
      var rec := new TokenRecord(hashOf(token), expiresAt, false, "");
      tokens := tokens[hashOf(token) := rec];
      assert Memory() == old(Memory())[hashOf(token) := Record(expiresAt, false, "")];
      ok := SaveLocked(saveOk);
      if !ok {
        expiresAt := NO_EXPIRY;
      }
      forall t, id, saved | id != "" && saved
        ensures ConsumeSucceeds(Contents(), t, hashOf(token), id, saved)
           <==> ttl <= 0 || t <= now + ttl || now + ttl == NO_EXPIRY
      {
        FreshTokenLives(backing, old(Contents()), hashOf(token), ttl, now, saveOk, t, id, saved);
      }
    }

    method ConsumeToken(token: string, connectorId: string, now: int, saveOk: bool) returns (ok: bool)
      requires Valid()
      modifies this`saved, tokens.Values
      ensures Valid() && tokens == old(tokens)
      ensures ok <==> token != "" && ConsumeSucceeds(old(Contents()), now, hashOf(token), connectorId, saveOk)
      ensures Contents()
           == if token == "" then old(Contents())
              else Consume(backing, old(Contents()), now, hashOf(token), connectorId, saveOk)
    {
      if token == "" || connectorId == "" {
        return false;
      }
      var hash := hashOf(token);
      if hash !in tokens {
        return false;
      }
      var rec := tokens[hash];
      if rec.expiresAt != NO_EXPIRY && now > rec.expiresAt {
        return false;
      }
      if rec.used {
        return rec.connectorId == connectorId;
      }
      rec.used := true;
      rec.connectorId := connectorId;
      assert Memory() == old(Memory())[hash := Record(rec.expiresAt, true, connectorId)];
      ok := SaveLocked(saveOk);
    }

    method DeleteByConnectorID(connectorId: string, saveOk: bool) returns (ok: bool)
      requires Valid()
      modifies this
      ensures Valid() && ok == (connectorId == "" || saveOk)
      ensures Contents() == Delete(backing, old(Contents()), connectorId, saveOk)
      ensures forall r <- tokens.Values :: r in old(tokens.Values)
    {
      if connectorId == "" {
        return true;
      }
      var rest := tokens.Keys;
      while rest != {}
        invariant rest <= tokens.Keys && saved == old(saved)
        invariant forall h :: h in tokens
                    <==> h in old(tokens) && (h in rest || old(tokens)[h].connectorId != connectorId)
        invariant forall h <- tokens :: tokens[h] == old(tokens)[h]
        decreases rest
      {
        var h :| h in rest;
        if tokens[h].connectorId == connectorId {
          tokens := tokens - {h};
        }
        rest := rest - {h};
      }
      assert Contents() == old(Contents()).(memory :=
        map h <- old(Memory()) | old(Memory())[h].boundTo != connectorId :: old(Memory())[h]);
      ok := SaveLocked(saveOk);
    }
  }

  // ---------- One token, one store ----------

  /** The constant is the beginning of the year 1. */
  lemma NoExpiryIsYearOne()
    ensures NO_EXPIRY == Calendar.DaysFromCivil(1, 1, 1) * 86400 * SECOND
  {
  }

  /**
   A token just drawn is good for any id and at every time when the store has no time to live; otherwise up to and
   including the end of that time, unless that happens to be the instant that stands for none. Its first use has
   to be saved, its later uses need no saving.
   */
  lemma FreshTokenLives(b: Backing, s: Store, hash: string, ttl: int, now: int, saveOk: bool,
                        t: int, id: string, saved: bool)
    ensures var created := Create(b, s, hash, Lifetime(ttl, now), saveOk);
            var lives := ttl <= 0 || t <= now + ttl || now + ttl == NO_EXPIRY;
            && (ConsumeSucceeds(created, t, hash, id, saved) <==> id != "" && lives && saved)
            && (id != "" && lives ==>
                 forall again :: ConsumeSucceeds(Consume(b, created, t, hash, id, saved), t, hash, id, again))
  {
    var record := s.(memory := s.memory[hash := Record(Lifetime(ttl, now), false, "")]);
    SaveKeepsMemory(b, record);
    if id != "" && Consumable(record, t, hash, id) {
      SaveKeepsMemory(b, Create(b, s, hash, Lifetime(ttl, now), saveOk).(
        memory := record.memory[hash := Record(Lifetime(ttl, now), true, id)]));
    }
  }

  /** Creating and using a token leaves all others as they are; a deletion leaves those of other ids. */
  lemma OthersUntouched(b: Backing, s: Store, hash: string, expiresAt: int, now: int, id: string, saveOk: bool,
                        other: string)
    requires other != hash && id != ""
    ensures var created := Create(b, s, hash, expiresAt, saveOk).memory;
            var used := Consume(b, s, now, hash, id, saveOk).memory;
            && (other in created <==> other in s.memory) && (other in used <==> other in s.memory)
            && (other in s.memory ==> created[other] == s.memory[other] == used[other])
    ensures var left := Delete(b, s, id, saveOk).memory;
            && (other in left <==> other in s.memory && s.memory[other].boundTo != id)
            && (other in left ==> left[other] == s.memory[other])
  {
    SaveKeepsMemory(b, s.(memory := s.memory[hash := Record(expiresAt, false, "")]));
    SaveKeepsMemory(b, s.(memory := map h <- s.memory | s.memory[h].boundTo != id :: s.memory[h]));
    if hash in s.memory {
      SaveKeepsMemory(b, s.(memory := s.memory[hash := Record(s.memory[hash].expiresAt, true, id)]));
    }
  }

  /**
   A life of a token: fresh, anyone may use it in time; once used by an id, that id alone may, in time; once the
   id's tokens are deleted, nobody may.
   */
  lemma TokenLife(b: Backing, s: Store, hash: string, expiresAt: int, now: int, id: string, later: int, other: string)
    requires id != "" && other != "" && !Expired(Record(expiresAt, false, ""), now)
    ensures var s1 := Create(b, s, hash, expiresAt, true);
            var s2 := Consume(b, s1, now, hash, id, true);
            var s3 := Delete(b, s2, id, true);
            && ConsumeSucceeds(s1, now, hash, id, true)
            && (ConsumeSucceeds(s2, later, hash, other, true)
                <==> other == id && !Expired(Record(expiresAt, true, id), later))
            && !ConsumeSucceeds(s3, later, hash, other, true)
  {
    SaveKeepsMemory(b, s.(memory := s.memory[hash := Record(expiresAt, false, "")]));
  }

  lemma SaveKeepsMemory(b: Backing, s: Store)
    ensures Save(b, s).memory == s.memory
  {
  }

  /** What is in memory has been saved with the same binding, unless nothing is ever saved. */
  predicate Synced(b: Backing, s: Store) {
    if b == Nowhere then s.saved == map[]
    else forall h <- s.memory :: h in s.saved && s.saved[h].boundTo == s.memory[h].boundTo
  }

  /** A deletion survives a restart unless the store saves to the table, which is never deleted from. */
  lemma DeletionSurvivesRestart(b: Backing, s: Store, id: string)
    requires Synced(b, s) && id != ""
    ensures var after := Restart(Delete(b, s, id, true)).memory;
            (forall h <- after :: after[h].boundTo != id)
            <==> b != Table || forall h <- s.saved :: s.saved[h].boundTo != id
  {
    var kept := map h <- s.memory | s.memory[h].boundTo != id :: s.memory[h];
    var after := Restart(Delete(b, s, id, true)).memory;
    assert Delete(b, s, id, true) == Save(b, s.(memory := kept));
    match b {
      case Table =>
        assert after == s.saved + map h <- kept :: Cut(kept[h]);
        forall h | h in s.saved && s.saved[h].boundTo == id ensures h in after && after[h].boundTo == id {
          assert h in s.memory ==> s.memory[h].boundTo == id;
          assert h !in kept;
        }
      case File => assert after == kept;
      case Nowhere => assert after == map[];
    }
  }

  /** An expiry strictly inside the first second of year 1, which the cut turns into no expiry. */
  predicate OddExpiry(r: Record) {
    NO_EXPIRY < r.expiresAt < NO_EXPIRY + SECOND
  }

  /** Cutting an expiry keeps the no-expiry value, and never lengthens a token's life but for that odd one. */
  lemma CutNeverExtends(r: Record)
    ensures Cut(r.(expiresAt := NO_EXPIRY)).expiresAt == NO_EXPIRY
    ensures (forall now :: !Expired(Cut(r), now) ==> !Expired(r, now))
       <==> !OddExpiry(r)
  {
    var cut := Cut(r).expiresAt;
    assert cut <= r.expiresAt < cut + SECOND;
    assert NO_EXPIRY / SECOND == -62135596800;
    if OddExpiry(r) {
      assert cut == NO_EXPIRY;
      assert !Expired(Cut(r), r.expiresAt + 1) && Expired(r, r.expiresAt + 1);
    } else {
      assert cut == NO_EXPIRY ==> r.expiresAt == NO_EXPIRY;
    }
  }
}
