/** When a connector renews its certificate, and how many failures in a row it survives. Times in nanoseconds. */
module Renewal {
  const SECOND: int := 1_000_000_000
  const RETRY: int := 10 * SECOND
  const MINUTE: int := 60 * SECOND
  const HOUR: int := 3600 * SECOND

  datatype Cert = Cert(notAfter: int, ttl: nat)

  function Max(a: int, b: int): int {
    if a < b then b else a
  }

  // ---------- The two delay functions ----------

  /** The Rust loop's sleep; durations are never negative there. */
  function NextRenewalDelay(now: int, c: Cert): nat {
    var remaining := Max(c.notAfter - now, 0);
    if remaining == 0 then RETRY
    else
      var ttl := if c.ttl == 0 then remaining else c.ttl;
      var renewAt := c.notAfter - ttl * 30 / 100;
      var delay := Max(renewAt - now, 0);
      if delay < RETRY then RETRY else delay
  }

  /** The Go loop's wake-up time, with one reading of the clock; a lifetime that is not positive is ignored. */
  function NextRenewal(now: int, notAfter: int, totalTTL: int): int {
    var remaining := notAfter - now;
    if remaining <= 0 then now + RETRY
    else
      var ttl := if totalTTL <= 0 then remaining else totalTTL;
      var next := notAfter - ttl * 30 / 100;
      if next < now + RETRY then now + RETRY else next
  }

  lemma TwinsAgree(now: int, c: Cert)
    ensures NextRenewal(now, c.notAfter, c.ttl) == now + NextRenewalDelay(now, c)
  {
  }

  /** Where the last 30 % of the certificate's life begins. */
  function Window(now: int, c: Cert): int {
    c.notAfter - (if c.ttl == 0 then Max(c.notAfter - now, 0) else c.ttl) * 30 / 100
  }

  /** A sleep is never under ten seconds, never past expiry if that leaves ten, and ten exactly inside the window. */
  lemma DelayBounds(now: int, c: Cert)
    ensures NextRenewalDelay(now, c) >= RETRY
    ensures c.notAfter - now >= RETRY ==> now + NextRenewalDelay(now, c) <= c.notAfter
    ensures now >= Window(now, c) ==> NextRenewalDelay(now, c) == RETRY
    ensures Window(now, c) - now >= RETRY ==> now + NextRenewalDelay(now, c) == Window(now, c)
  {
  }

  /**
   Far enough from expiry a sleep ends when, to the nanosecond, 30 % of the lifetime are left; where the lifetime
   is not known, 30 % of what remains.
   */
  lemma SleepsToThirtyPercent(now: int, c: Cert)
    ensures var lifetime := if c.ttl == 0 then c.notAfter - now else c.ttl;
            var left := c.notAfter - (now + NextRenewalDelay(now, c));
            c.notAfter > now && c.notAfter - lifetime * 30 / 100 - now >= RETRY ==>
              30 * lifetime - 100 < 100 * left <= 30 * lifetime
  {
  }

  // ---------- The loop ----------

  /** The outcome of one attempt: a new certificate, one whose validity cannot be read, or an error. */
  datatype Outcome =
    | Renewed(notBefore: int, notAfter: int)
    | Unreadable
    | Failed

  function Installed(now: int, c: Cert, o: Outcome): Cert {
    match o
    case Renewed(notBefore, notAfter) => Cert(notAfter, if notAfter >= notBefore then notAfter - notBefore else HOUR)
    case Unreadable => Cert(now + HOUR, HOUR)
    case Failed => c
  }

  datatype LoopState = LoopState(now: int, held: Cert)

  /** Sleep, then try: the attempt happens at the new time, while the old certificate is still held. */
  function Round(s: LoopState, o: Outcome): LoopState {
    var attempt := s.now + NextRenewalDelay(s.now, s.held);
    LoopState(attempt, Installed(attempt, s.held, o))
  }

  function Rounds(s: LoopState, outcomes: seq<Outcome>): LoopState {
    if outcomes == [] then s else Round(Rounds(s, outcomes[..|outcomes| - 1]), outcomes[|outcomes| - 1])
  }

  // ---------- The certificate held, read off the outcomes ----------

  /** How many outcomes there are up to the last success; no success, none. */
  function LastSuccess(outcomes: seq<Outcome>): (n: nat)
    ensures n <= |outcomes| && (n > 0 ==> !outcomes[n - 1].Failed?)
    ensures forall k :: n <= k < |outcomes| ==> outcomes[k].Failed?
  {
    if outcomes == [] then 0
    else if !outcomes[|outcomes| - 1].Failed? then |outcomes|
    else LastSuccess(outcomes[..|outcomes| - 1])
  }

  /** When the certificate held expires: as the last success said, or as at the start. */
  function ExpiryHeld(s: LoopState, outcomes: seq<Outcome>): int {
    var n := LastSuccess(outcomes);
    if n == 0 then s.held.notAfter
    else
      match outcomes[n - 1]
      case Renewed(_, notAfter) => notAfter
      case Unreadable => Rounds(s, outcomes[..n]).now + 60 * MINUTE
  }

  /** Its lifetime; an hour where it cannot be told. */
  function LifetimeHeld(s: LoopState, outcomes: seq<Outcome>): int {
    var n := LastSuccess(outcomes);
    if n == 0 then s.held.ttl
    else
      match outcomes[n - 1]
      case Renewed(notBefore, notAfter) => if notBefore <= notAfter then notAfter - notBefore else 60 * MINUTE
      case Unreadable => 60 * MINUTE
  }

  /** A success puts its own certificate in place and failures leave it there. */
  lemma {:induction false} HeldIsLastSuccess(s: LoopState, outcomes: seq<Outcome>)
    ensures Rounds(s, outcomes).held.notAfter == ExpiryHeld(s, outcomes)
    ensures Rounds(s, outcomes).held.ttl == LifetimeHeld(s, outcomes)
  {
    hide NextRenewalDelay;
    if outcomes != [] {
      var n := |outcomes| - 1;
      HeldIsLastSuccess(s, outcomes[..n]);
      if outcomes[n].Failed? {
        var m := LastSuccess(outcomes);
        assert outcomes[..n][..m] == outcomes[..m];
      } else {
        assert outcomes[..n + 1] == outcomes;
      }
    }
  }

  class CertStore {
    var notAfter: int
    var totalTtl: nat

    constructor (notAfter: int, totalTtl: nat)
      ensures Held() == Cert(notAfter, totalTtl)
    {
      this.notAfter, this.totalTtl := notAfter, totalTtl;
    }

    ghost function Held(): Cert
      reads this
    {
      Cert(notAfter, totalTtl)
    }

    method Update(notAfter: int, totalTtl: nat)
      modifies this
      ensures Held() == Cert(notAfter, totalTtl)
    {
      this.notAfter, this.totalTtl := notAfter, totalTtl;
    }
  }

  /** The endless loop, cut after the given outcomes; calls take no time. Returns the time of each attempt. */
  method RenewalLoop(store: CertStore, start: int, outcomes: seq<Outcome>) returns (attempts: seq<int>)
    modifies store
    ensures |attempts| == |outcomes|
    ensures forall k :: 0 <= k < |outcomes| ==>
      attempts[k] == Rounds(LoopState(start, old(store.Held())), outcomes[..k + 1]).now
    ensures store.notAfter == ExpiryHeld(LoopState(start, old(store.Held())), outcomes)
    ensures store.totalTtl == LifetimeHeld(LoopState(start, old(store.Held())), outcomes)
  {
    hide NextRenewalDelay, ExpiryHeld, LifetimeHeld;
    attempts := [];
    var now := start;
    ghost var first := LoopState(start, store.Held());
    for n := 0 to |outcomes|
      invariant |attempts| == n && LoopState(now, store.Held()) == Rounds(first, outcomes[..n])
      invariant forall k :: 0 <= k < n ==> attempts[k] == Rounds(first, outcomes[..k + 1]).now
    {
      now := now + NextRenewalDelay(now, Cert(store.notAfter, store.totalTtl));
      assert outcomes[..n + 1][..n] == outcomes[..n];
      match outcomes[n] {
        case Renewed(notBefore, notAfter) =>
          store.Update(notAfter, if notAfter >= notBefore then notAfter - notBefore else HOUR);
        case Unreadable =>
          store.Update(now + HOUR, HOUR);
        case Failed =>
      }
      attempts := attempts + [now];
    }
    assert outcomes[..|outcomes|] == outcomes;
    HeldIsLastSuccess(first, outcomes);
  }

  // ---------- No lapse ----------

  /** The first attempt after a certificate was installed. */
  function FirstAttempt(installed: int, c: Cert): int {
    installed + NextRenewalDelay(installed, c)
  }

  /** How many attempts in a row fit before it expires. */
  function AttemptsThatFit(installed: int, c: Cert): nat
    decreases Max(c.notAfter - installed, 0)
  {
    var first := FirstAttempt(installed, c);
    if first > c.notAfter then 0 else 1 + AttemptsThatFit(first, c)
  }

  function Fails(k: nat): seq<Outcome> {
    seq(k, _ => Failed)
  }

  /** The first of several failures is a round like any other. */
  lemma {:induction false} FirstFailure(installed: int, c: Cert, k: nat)
    requires k > 0
    ensures Rounds(LoopState(installed, c), Fails(k)) == Rounds(LoopState(FirstAttempt(installed, c), c), Fails(k - 1))
  {
    hide NextRenewalDelay;
    assert Fails(k)[..k - 1] == Fails(k - 1);
    if k > 1 {
      assert Fails(k - 1)[..k - 2] == Fails(k - 2);
      FirstFailure(installed, c, k - 1);
    } else {
      assert Fails(0) == [];
    }
  }

  /** With only failures since the installation, the k-th attempt finds the certificate unexpired exactly when k
      attempts fit. */
  lemma {:induction false} UnexpiredExactly(installed: int, c: Cert, k: nat)
    requires k > 0
    ensures Rounds(LoopState(installed, c), Fails(k)).now <= c.notAfter <==> k <= AttemptsThatFit(installed, c)
    decreases k
  {
    hide NextRenewalDelay, Rounds;
    FirstFailure(installed, c, k);
    if k > 1 {
      UnexpiredExactly(FirstAttempt(installed, c), c, k - 1);
    } else {
      NoFailures(LoopState(FirstAttempt(installed, c), c));
    }
  }

  lemma NoFailures(s: LoopState)
    ensures Rounds(s, Fails(0)) == s
  {
  }

  /** No attempt fits exactly when the certificate is installed with less than ten seconds to go. */
  lemma NoneFits(installed: int, c: Cert)
    ensures AttemptsThatFit(installed, c) == 0 <==> c.notAfter - installed < RETRY
  {
    DelayBounds(installed, c);
  }

  /** The lifetime is known, as it is for every certificate but one that is valid for no time at all. */
  predicate Dated(c: Cert) {
    c.ttl > 0
  }

  /** The first attempt falls inside the window or after expiry, and from either on sleeps are ten seconds. */
  lemma AfterFirst(installed: int, c: Cert, now: int)
    requires Dated(c) && now >= FirstAttempt(installed, c)
    ensures NextRenewalDelay(now, c) == RETRY
  {
  }

  lemma {:induction false} RetriesThatFit(installed: int, c: Cert, now: int)
    requires Dated(c) && now >= FirstAttempt(installed, c)
    ensures AttemptsThatFit(now, c) == if now > c.notAfter then 0 else (c.notAfter - now) / RETRY
    decreases Max(c.notAfter - now, 0)
  {
    hide NextRenewalDelay;
    AfterFirst(installed, c, now);
    if now + RETRY <= c.notAfter {
      RetriesThatFit(installed, c, now + RETRY);
      assert (c.notAfter - now) / RETRY == 1 + (c.notAfter - (now + RETRY)) / RETRY;
    }
  }

  /** When the lifetime is known: the first attempt, and one more for every ten seconds from there to expiry. */
  lemma FittingCount(installed: int, c: Cert)
    requires Dated(c)
    ensures AttemptsThatFit(installed, c)
         == if c.notAfter - installed < RETRY then 0 else 1 + (c.notAfter - FirstAttempt(installed, c)) / RETRY
  {
    NoneFits(installed, c);
    RetriesThatFit(installed, c, FirstAttempt(installed, c));
  }

  // ---------- Whole runs ----------

  /** Failures since the last certificate was installed, and when that was. */
  datatype Tenure = Tenure(installed: int, failures: nat)

  function TenureAfter(s: LoopState, outcomes: seq<Outcome>): Tenure {
    if outcomes == [] then Tenure(s.now, 0)
    else
      var before := TenureAfter(s, outcomes[..|outcomes| - 1]);
      if outcomes[|outcomes| - 1].Failed? then before.(failures := before.failures + 1)
      else Tenure(Rounds(s, outcomes).now, 0)
  }

  function CertHeld(s: LoopState, outcomes: seq<Outcome>): Cert {
    HeldIsLastSuccess(s, outcomes);
    Cert(ExpiryHeld(s, outcomes), LifetimeHeld(s, outcomes))
  }

  /** Before each attempt, fewer failures in a row than attempts fit the certificate held. */
  predicate FewFailures(s: LoopState, outcomes: seq<Outcome>) {
    forall k :: 0 <= k < |outcomes| ==> CanSpare(s, outcomes[..k])
  }

  predicate CanSpare(s: LoopState, before: seq<Outcome>) {
    var t := TenureAfter(s, before);
    t.failures < AttemptsThatFit(t.installed, CertHeld(s, before))
  }

  /** The k-th attempt comes before the certificate of the last success expires. */
  predicate Unexpired(s: LoopState, outcomes: seq<Outcome>, k: nat)
    requires k < |outcomes|
  {
    Rounds(s, outcomes[..k + 1]).now <= ExpiryHeld(s, outcomes[..k])
  }

  lemma {:induction false} TenureExplains(s: LoopState, outcomes: seq<Outcome>)
    ensures var t := TenureAfter(s, outcomes);
            var held := Rounds(s, outcomes).held;
            Rounds(s, outcomes) == Rounds(LoopState(t.installed, held), Fails(t.failures))
  {
    if outcomes != [] {
      var n := |outcomes| - 1;
      var before := outcomes[..n];
      TenureExplains(s, before);
      var t := TenureAfter(s, before);
      assert outcomes[..n + 1] == outcomes;
      if outcomes[n].Failed? {
        assert Fails(t.failures + 1)[..t.failures] == Fails(t.failures);
      } else {
        assert Fails(0) == [];
      }
    }
  }

  lemma AttemptExactly(s: LoopState, outcomes: seq<Outcome>, k: nat)
    requires k < |outcomes|
    ensures Unexpired(s, outcomes, k) <==> CanSpare(s, outcomes[..k])
  {
    var before := outcomes[..k];
    TenureExplains(s, before);
    var t, held := TenureAfter(s, before), Rounds(s, before).held;
    HeldIsLastSuccess(s, before);
    UnexpiredExactly(t.installed, held, t.failures + 1);
    assert Fails(t.failures + 1)[..t.failures] == Fails(t.failures);
    assert outcomes[..k + 1][..k] == before;
  }

  /**
   In any run, however late its certificates arrive, every attempt finds the held certificate unexpired exactly
   when the failures in a row always stay below the attempts that fit it.
   */
  lemma NeverLapses(s: LoopState, outcomes: seq<Outcome>)
    ensures (forall k :: 0 <= k < |outcomes| ==> Unexpired(s, outcomes, k)) <==> FewFailures(s, outcomes)
  {
    forall k | 0 <= k < |outcomes| ensures Unexpired(s, outcomes, k) <==> CanSpare(s, outcomes[..k]) {
      AttemptExactly(s, outcomes, k);
    }
  }

  // ---------- The same, counted out, where lifetimes are known ----------

  /** The certificate held at the start and every one received along the way is valid for some time. */
  predicate AllDated(s: LoopState, outcomes: seq<Outcome>) {
    Dated(s.held) && forall o <- outcomes :: o.Renewed? ==> o.notBefore != o.notAfter
  }

  lemma HeldIsDated(s: LoopState, outcomes: seq<Outcome>, n: nat)
    requires n <= |outcomes| && AllDated(s, outcomes)
    ensures Dated(CertHeld(s, outcomes[..n]))
  {
    HeldIsLastSuccess(s, outcomes[..n]);
    var m := LastSuccess(outcomes[..n]);
    assert m > 0 ==> outcomes[..n][m - 1] in outcomes;
  }

  /** Ten seconds are left at the installation, and the failures fit between the first attempt and expiry. */
  predicate FailuresFit(t: Tenure, c: Cert) {
    && c.notAfter - t.installed >= RETRY
    && t.failures < 1 + (c.notAfter - FirstAttempt(t.installed, c)) / RETRY
  }

  /** In such a run no attempt comes late exactly when, before each, the failures in a row fit. */
  lemma DatedNeverLapses(s: LoopState, outcomes: seq<Outcome>)
    requires AllDated(s, outcomes)
    ensures (forall k :: 0 <= k < |outcomes| ==> Unexpired(s, outcomes, k))
       <==> forall k :: 0 <= k < |outcomes| ==>
              FailuresFit(TenureAfter(s, outcomes[..k]), CertHeld(s, outcomes[..k]))
  {
    hide NextRenewalDelay, AttemptsThatFit, FirstAttempt, Unexpired, Rounds, Dated, AllDated;
    NeverLapses(s, outcomes);
    forall k | 0 <= k < |outcomes|
      ensures CanSpare(s, outcomes[..k]) <==> FailuresFit(TenureAfter(s, outcomes[..k]), CertHeld(s, outcomes[..k]))
    {
      HeldIsDated(s, outcomes, k);
      HeldIsLastSuccess(s, outcomes[..k]);
      FittingCount(TenureAfter(s, outcomes[..k]).installed, CertHeld(s, outcomes[..k]));
    }
  }

  // ---------- The certificates the controller issues ----------

  /** Backdated by a minute, valid for the role's lifetime from now on. */
  function IssuedAt(now: int, role: string): Cert {
    var ttl := if role == "connector" then 5 * MINUTE else 30 * MINUTE;
    Cert(now + ttl, ttl + MINUTE)
  }

  /** A connector survives ten failed renewals in a row and a tunneler fifty-five, and not one more. */
  lemma IssuedMargins(now: int, role: string)
    ensures Dated(IssuedAt(now, role)) && IssuedAt(now, role).notAfter - now >= RETRY
    ensures AttemptsThatFit(now, IssuedAt(now, role)) == if role == "connector" then 11 else 56
  {
    FittingCount(now, IssuedAt(now, role));
  }
}
