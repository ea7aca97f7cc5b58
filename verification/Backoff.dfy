/** How long the agent waits before it tries to connect again, in exact arithmetic. */
module Backoff {
  import opened Arithmetic

  const SECOND: nat := 1_000_000_000  // a Duration counts nanoseconds
  const BASE_DELAY: nat := SECOND
  const MAX_DELAY: nat := 60 * SECOND
  const MILLISECOND: nat := 1_000_000

  function Min(a: nat, b: nat): nat {
    if a < b then a else b
  }

  /** `time.Duration(x)` for a non-negative x: truncation to whole nanoseconds. */
  function Truncate(x: real): int
    requires x >= 0.0
  {
    x.Floor
  }

  /** The symmetric jitter around 1, from a random number in [0, 1). */
  function Jitter(u: real): real {
    1.0 + 0.3 * (2.0 * u - 1.0)
  }

  /** `backoffDuration`; `u` is the result of `rand.Float64`. */
  method BackoffDuration(attempt: int, u: real) returns (delay: int)
    requires 0.0 <= u < 1.0
    ensures delay == Delay(attempt, u)
  {
    hide Jitter, Pow2;
    var n: nat := if attempt < 0 then 0 else attempt;
    NominalCap(n);
    var base := BASE_DELAY * Pow2(Min(n, 20));
    if base > MAX_DELAY { base := MAX_DELAY; }
    assert base == Nominal(attempt) by { FirstDelay(); }
    JitterBounds(attempt, u);
    delay := Truncate(base as real * Jitter(u));
    if delay < MILLISECOND { delay := MILLISECOND; }
    var ceiling := MAX_DELAY + Truncate(MAX_DELAY as real * 0.3);
    if delay > ceiling { delay := ceiling; }
  }

  lemma FirstDelay()
    ensures BASE_DELAY * Pow2(0) == BASE_DELAY < MAX_DELAY
  {
  }

  // ---------- What it computes ----------

  /** min(2^attempt, 60) seconds, in nanoseconds; a negative attempt counts as 0. */
  function Nominal(attempt: int): nat {
    if attempt < 0 then BASE_DELAY else Min(BASE_DELAY * Pow2(attempt), MAX_DELAY)
  }

  function Jittered(attempt: int, u: real): real {
    Nominal(attempt) as real * Jitter(u)
  }

  /** The nominal delay with its jitter, and neither clamp. */
  function Delay(attempt: int, u: real): int
    requires 0.0 <= u < 1.0
  {
    Jittered(attempt, u).Floor
  }

  lemma {:induction false} PowGrows(n: nat)
    ensures Pow2(n) >= 1
    ensures n >= 6 ==> Pow2(n) >= 64
  {
    if n == 6 {
      assert Pow2(6) == 2 * Pow2(5) && Pow2(5) == 2 * Pow2(4) && Pow2(4) == 2 * Pow2(3);
      assert Pow2(3) == 8;
    } else if n > 0 {
      PowGrows(n - 1);
    }
  }

  /** One second, doubled with each attempt, up to a minute. */
  lemma NominalValues(attempt: int)
    ensures attempt <= 0 ==> Nominal(attempt) == 1_000_000_000
    ensures 0 < attempt < 6 ==> Nominal(attempt) == 2 * Nominal(attempt - 1)
    ensures attempt >= 6 ==> Nominal(attempt) == 60_000_000_000
  {
    SmallPowers();
    if attempt >= 6 { PowGrows(attempt); }
  }

  /** Capping the exponent at 20 changes nothing: the delay is capped long before. */
  lemma NominalCap(n: nat)
    ensures Min(BASE_DELAY * Pow2(Min(n, 20)), MAX_DELAY) == Nominal(n)
  {
    PowGrows(n);
    PowGrows(20);
  }

  lemma NominalRange(attempt: int)
    ensures BASE_DELAY <= Nominal(attempt) <= MAX_DELAY
  {
    if attempt >= 0 { PowGrows(attempt); }
  }

  lemma JitterRange(u: real)
    requires 0.0 <= u < 1.0
    ensures 0.7 <= Jitter(u) < 1.3
  {
  }

  lemma ScaleBetween(x: real, low: real, y: real, high: real, product: real)
    requires x >= 0.0 && low <= y <= high && product == x * y
    ensures x * low <= product <= x * high
  {
    NotNegative(x, y - low);
    NotNegative(x, high - y);
  }

  lemma NotNegative(x: real, y: real)
    requires x >= 0.0 && y >= 0.0
    ensures x * y >= 0.0
  {
  }

  lemma FloorBetween(lo: int, x: real, hi: int)
    requires lo as real <= x <= hi as real
    ensures lo <= x.Floor <= hi
  {
  }

  /** The jittered delay stays within 30% of the nominal one, and within both clamps. */
  lemma JitterBounds(attempt: int, u: real)
    requires 0.0 <= u < 1.0
    ensures Nominal(attempt) as real * 0.7 <= Jittered(attempt, u) <= Nominal(attempt) as real * 1.3
    ensures Jittered(attempt, u) == Nominal(attempt) as real * (0.7 + 0.6 * u)
    ensures MILLISECOND <= Delay(attempt, u) <= MAX_DELAY + (MAX_DELAY as real * 0.3).Floor
  {
    assert Jitter(u) == 0.7 + 0.6 * u;
    NominalRange(attempt);
    JitterRange(u);
    JitteredIsProduct(attempt, u);
    hide Jitter, Nominal, Jittered;
    ProductBounds(Nominal(attempt), Jitter(u), Jittered(attempt, u));
  }

  lemma JitteredIsProduct(attempt: int, u: real)
    ensures Jittered(attempt, u) == Nominal(attempt) as real * Jitter(u)
  {
    hide Nominal, Jitter;
  }

  lemma ProductBounds(n: nat, jitter: real, jittered: real)
    requires BASE_DELAY <= n <= MAX_DELAY && 0.7 <= jitter <= 1.3 && jittered == n as real * jitter
    ensures n as real * 0.7 <= jittered <= n as real * 1.3
    ensures MILLISECOND <= jittered.Floor <= MAX_DELAY + (MAX_DELAY as real * 0.3).Floor
  {
    var x := n as real;
    ScaleBetween(x, 0.7, jitter, 1.3, jittered);
    assert 1_000_000_000.0 <= x <= 60_000_000_000.0;
    assert 1_000_000.0 <= jittered <= 78_000_000_000.0;
    FloorBetween(1_000_000, jittered, 78_000_000_000);
    assert (MAX_DELAY as real * 0.3).Floor == 18_000_000_000 by {
      FloorBetween(18_000_000_000, MAX_DELAY as real * 0.3, 18_000_000_000);
    }
  }

  /** Each delay is within 30% of the nominal one, up to truncation to a nanosecond. */
  lemma DelayBounds(attempt: int, u: real)
    requires 0.0 <= u < 1.0
    ensures 7 * Nominal(attempt) - 10 < 10 * Delay(attempt, u) <= 13 * Nominal(attempt)
  {
    hide Jittered, Nominal;
    JitterBounds(attempt, u);
    FloorBounds(Nominal(attempt), Jittered(attempt, u));
  }

  lemma FloorBounds(n: nat, x: real)
    requires n as real * 0.7 <= x <= n as real * 1.3
    ensures 7 * n - 10 < 10 * x.Floor <= 13 * n
  {
    var tenfold := 10 * x.Floor;
    assert tenfold as real <= 10.0 * x < (tenfold + 10) as real;
    assert (7 * n) as real <= 10.0 * x <= (13 * n) as real;
  }

  // ---------- A sequence of failures ----------

  /**
   What each attempt meets: success, the context cancelled before it, failure and a wait with that
   jitter, or failure and the context cancelled during the wait.
   */
  datatype Attempt = Succeeds | Cancelled | Fails(u: real) | CancelledWaiting(u: real)

  datatype Outcome = Connected | Stopped | StillTrying

  ghost predicate Possible(attempts: seq<Attempt>) {
    forall i :: 0 <= i < |attempts| && (attempts[i].Fails? || attempts[i].CancelledWaiting?) ==>
      0.0 <= attempts[i].u < 1.0
  }

  /** Attempts until the first that does not fail. */
  function Failures(attempts: seq<Attempt>): nat {
    if attempts == [] || !attempts[0].Fails? then 0 else 1 + Failures(attempts[1..])
  }

  /** The total delay of the first `n` failures. */
  function Waited(attempts: seq<Attempt>, n: nat): int
    requires Possible(attempts) && n <= |attempts|
    requires forall i :: 0 <= i < n ==> attempts[i].Fails?
  {
    if n == 0 then 0 else Waited(attempts, n - 1) + Delay(n - 1, attempts[n - 1].u)
  }

  function TotalNominal(n: nat): nat {
    if n == 0 then 0 else TotalNominal(n - 1) + Nominal(n - 1)
  }

  lemma {:induction false} FailuresFail(attempts: seq<Attempt>)
    ensures Failures(attempts) <= |attempts|
    ensures forall i :: 0 <= i < Failures(attempts) ==> attempts[i].Fails?
    ensures Failures(attempts) < |attempts| ==> !attempts[Failures(attempts)].Fails?
  {
    if attempts != [] && attempts[0].Fails? {
      FailuresFail(attempts[1..]);
      forall i | 0 <= i < Failures(attempts) ensures attempts[i].Fails? {
        if i > 0 { assert attempts[i] == attempts[1..][i - 1]; }
      }
    }
  }

  /**
   `ConnectWithRetry` through the given attempts: it stops at the first that does not fail, and is
   still trying when all of them fail. `waited` counts the waits that were completed.
   */
  method ConnectWithRetry(attempts: seq<Attempt>) returns (outcome: Outcome, waited: int)
    requires Possible(attempts)
    ensures Failures(attempts) <= |attempts| && forall i :: 0 <= i < Failures(attempts) ==> attempts[i].Fails?
    ensures Failures(attempts) < |attempts| ==> !attempts[Failures(attempts)].Fails?
    ensures outcome == if Failures(attempts) == |attempts| then StillTrying
                       else if attempts[Failures(attempts)].Succeeds? then Connected else Stopped
    ensures waited == Waited(attempts, Failures(attempts))
  {
    FailuresFail(attempts);
    var attempt := 0;
    waited := 0;
    while attempt < |attempts|
      invariant 0 <= attempt <= Failures(attempts)
      invariant waited == Waited(attempts, attempt)
    {
      match attempts[attempt] {
        case Succeeds => return Connected, waited;
        case Cancelled => return Stopped, waited;
        case Fails(u) =>
          var delay := BackoffDuration(attempt, u);
          waited := waited + delay;
        case CancelledWaiting(u) =>
          var _ := BackoffDuration(attempt, u);
          return Stopped, waited;
      }
      attempt := attempt + 1;
    }
    outcome := StillTrying;
  }

  /** In closed form: 2^n - 1 seconds for up to six failures, then a minute for each further one. */
  lemma {:induction false} TotalNominalClosed(n: nat)
    ensures TotalNominal(n) == if n <= 6 then (Pow2(n) - 1) * SECOND else (63 + 60 * (n - 6)) * SECOND
  {
    if n > 0 {
      TotalNominalClosed(n - 1);
      if n <= 6 {
        assert Pow2(n - 1) <= 32 by { SmallPowers(); }
      } else {
        PowGrows(n - 1);
        SmallPowers();
      }
    }
  }

  lemma SmallPowers()
    ensures Pow2(0) == 1 && Pow2(1) == 2 && Pow2(2) == 4 && Pow2(3) == 8
    ensures Pow2(4) == 16 && Pow2(5) == 32 && Pow2(6) == 64
  {
    assert Pow2(1) == 2 * Pow2(0);
    assert Pow2(2) == 2 * Pow2(1);
    assert Pow2(3) == 2 * Pow2(2);
    assert Pow2(4) == 2 * Pow2(3);
    assert Pow2(5) == 2 * Pow2(4);
    assert Pow2(6) == 2 * Pow2(5);
  }

  /** After n failures the total wait is within 30% of that, less at most a nanosecond for each. */
  lemma {:induction false} WaitedBounds(attempts: seq<Attempt>, n: nat)
    requires Possible(attempts) && n <= |attempts| && forall i :: 0 <= i < n ==> attempts[i].Fails?
    ensures 7 * TotalNominal(n) - 10 * n <= 10 * Waited(attempts, n) <= 13 * TotalNominal(n)
  {
    if n > 0 {
      WaitedBounds(attempts, n - 1);
      DelayBounds(n - 1, attempts[n - 1].u);
    }
  }
}
