/** Retries of one notification and their cost in an outage (internal/webhook/webhook.go:278-311). */
module Delivery {
  import opened Common
  import opened Breaker

  const SECOND := 1_000_000_000

  function Pow2(n: nat): (p: nat)
    ensures p >= 1
  {
    if n == 0 then 1 else 2 * Pow2(n - 1)
  }

  /** The pause after failed attempt number `attempt`: a shift and a product of 64-bit durations, capped at 10 s. */
  function Backoff(attempt: nat): int {
    var pause := Wrap64(Wrap64(2 * Pow2(attempt)) * SECOND);
    if pause > 10 * SECOND then 10 * SECOND else pause
  }

  /** `responses(i)` says whether attempt number i would be answered with a 2xx status. */
  predicate Undelivered(maxRetries: nat, responses: nat -> bool) {
    forall i: nat :: i <= maxRetries ==> !responses(i)
  }

  /** The number of posts, when `done` of them have failed. */
  function Attempts(maxRetries: nat, responses: nat -> bool, done: nat): (n: nat)
    requires done <= maxRetries
    ensures done < n <= maxRetries + 1
    decreases maxRetries - done
  {
    if responses(done) || done == maxRetries then done + 1 else Attempts(maxRetries, responses, done + 1)
  }

  /** The function sendWithRetries passes to the breaker: its end, its posts and the pauses between them. */
  method SendWithRetries(maxRetries: nat, responses: nat -> bool)
    returns (failed: bool, attempts: nat, pauses: seq<int>)
    ensures failed <==> Undelivered(maxRetries, responses)
    ensures attempts == Attempts(maxRetries, responses, 0)
    ensures !failed ==> responses(attempts - 1)
    ensures forall i: nat :: i < attempts - 1 ==> !responses(i)
    ensures failed ==> attempts == maxRetries + 1
    ensures |pauses| == attempts - 1 && forall i :: 0 <= i < |pauses| ==> pauses[i] == Backoff(i)
  {
    attempts, pauses := 0, [];
    while attempts <= maxRetries
      invariant attempts <= maxRetries ==>
        Attempts(maxRetries, responses, 0) == Attempts(maxRetries, responses, attempts)
      invariant attempts == maxRetries + 1 ==> attempts == Attempts(maxRetries, responses, 0)
      invariant attempts <= maxRetries + 1
      invariant forall i: nat :: i < attempts ==> !responses(i)
      invariant |pauses| == if attempts <= maxRetries then attempts else maxRetries
      invariant forall i :: 0 <= i < |pauses| ==> pauses[i] == Backoff(i)
    {
      attempts := attempts + 1;
      if responses(attempts - 1) {
        return false, attempts, pauses;
      }
      if attempts - 1 < maxRetries {
        pauses := pauses + [Backoff(attempts - 1)];
      }
    }
    failed := true;
  }

  lemma {:induction false} Pow2Adds(m: nat, n: nat)
    ensures Pow2(m + n) == Pow2(m) * Pow2(n)
  {
    if n == 0 {
      assert Pow2(0) == 1;
    } else {
      Pow2Adds(m, n - 1);
      assert Pow2(m + n) == 2 * Pow2(m + (n - 1));
      DoubledProduct(Pow2(m), Pow2(n - 1));
    }
  }

  lemma {:induction false} DoubledProduct(a: int, b: int)
    ensures 2 * (a * b) == a * (2 * b)
  {
  }

  lemma {:induction false} Pow2Values()
    ensures Pow2(2) == 4 && Pow2(3) == 8 && Pow2(10) == 1024 && Pow2(32) == 0x1_0000_0000
    ensures Pow2(33) == 0x2_0000_0000 && Pow2(54) == 0x40_0000_0000_0000
  {
    assert Pow2(2) == 4 && Pow2(3) == 8 by {
      assert Pow2(1) == 2;
    }
    Pow2Adds(3, 2);
    assert Pow2(5) == 32;
    Pow2Adds(5, 5);
    assert Pow2(10) == 1024;
    Pow2Adds(10, 10);
    assert Pow2(20) == 0x10_0000;
    Pow2Adds(20, 10);
    assert Pow2(30) == 0x4000_0000;
    Pow2Adds(30, 2);
    Pow2Adds(30, 3);
    Pow2Adds(20, 2);
    assert Pow2(22) == 0x40_0000;
    Pow2Adds(22, 32);
  }

  lemma {:induction false} Pow2Grows(m: nat, n: nat)
    requires m <= n
    ensures Pow2(m) <= Pow2(n)
    decreases n
  {
    if m < n {
      Pow2Grows(m, n - 1);
    }
  }

  lemma {:induction false} BackoffUnwrapped(attempt: nat, p: int)
    requires p == Pow2(attempt) && p <= 0x1_0000_0000
    ensures Backoff(attempt) == if 2 * p * SECOND > 10 * SECOND then 10 * SECOND else 2 * p * SECOND
  {
    WrapSmall(2 * p);
    WrapSmall(2 * p * SECOND);
  }

  lemma {:induction false} WrapSmall(x: int)
    ensures 0 <= x < 0x8000_0000_0000_0000 ==> Wrap64(x) == x
  {
  }

  /** Up to attempt 32 the pause is 2, 4, 8 and then 10 seconds. */
  lemma {:induction false} BackoffIsCappedDoubling(attempt: nat)
    ensures attempt <= 2 ==> Backoff(attempt) == 2 * Pow2(attempt) * SECOND
    ensures 3 <= attempt <= 32 ==> Backoff(attempt) == 10 * SECOND
  {
    Pow2Values();
    if attempt <= 32 {
      Pow2Grows(attempt, 32);
      BackoffUnwrapped(attempt, Pow2(attempt));
      if attempt <= 2 {
        Pow2Grows(attempt, 2);
      } else {
        Pow2Grows(3, attempt);
      }
    }
  }

  lemma {:induction false} WrapOfMultiple(k: int)
    ensures Wrap64(k * 0x1_0000_0000_0000_0000) == 0
  {
    var m := 0x1_0000_0000_0000_0000;
    var r := Wrap64(k * m);
    assert (k * m - r) % m == 0;
    var q := (k * m - r) / m;
    assert r == (k - q) * m;
  }

  /** From attempt 54 on the pause is exactly zero: a long retry budget ends in a busy loop. */
  lemma {:induction false} BackoffVanishes(attempt: nat)
    requires attempt >= 54
    ensures Backoff(attempt) == 0
  {
    Pow2Values();
    Pow2Adds(54, attempt - 54);
    var k := Pow2(attempt - 54);
    var shifted := 2 * Pow2(attempt);
    var w := Wrap64(shifted);
    var q := (shifted - w) / 0x1_0000_0000_0000_0000;
    assert w == shifted - q * 0x1_0000_0000_0000_0000;
    assert shifted == k * 0x80_0000_0000_0000;
    assert SECOND == 0x200 * 1953125;
    assert w * SECOND == (k * 1953125 - q * SECOND) * 0x1_0000_0000_0000_0000;
    WrapOfMultiple(k * 1953125 - q * SECOND);
  }

  /** One second is 2^9 times this many nanoseconds. */
  const ODD_PART := 1_953_125

  predicate Bit(n: nat, b: nat) {
    n / Pow2(b) % 2 == 1
  }

  lemma {:induction false} WrapHalves(h: int, v: int)
    requires 0 <= v < 0x8000_0000_0000_0000
    ensures Wrap64(h * 0x1_0000_0000_0000_0000 + v) == v
    ensures Wrap64(h * 0x1_0000_0000_0000_0000 + 0x8000_0000_0000_0000 + v) == v - 0x8000_0000_0000_0000
  {
  }

  /** `p * n`, where `p` is 2^63 divided by `b`: the sign is decided by the lowest bit of the quotient. */
  lemma {:induction false} WrapOfShifted(n: nat, p: nat, b: nat)
    requires p >= 1 && b >= 1 && p * b == 0x8000_0000_0000_0000
    ensures n / b % 2 == 0 ==> Wrap64(p * n) == p * (n % b) && (n % b == 0 || Wrap64(p * n) >= p)
    ensures n / b % 2 == 1 ==> Wrap64(p * n) < 0
  {
    var q, r := n / b, n % b;
    var h := q / 2;
    assert p * n == q * 0x8000_0000_0000_0000 + p * r by {
      assert n == q * b + r;
      Distribute(p, q, b, r);
    }
    assert 0 <= p * r < 0x8000_0000_0000_0000 && (r == 0 || p * r >= p) by {
      Ordered(p, r, b);
    }
    WrapHalves(h, p * r);
  }

  lemma {:induction false} Distribute(p: int, q: int, b: int, r: int)
    ensures p * (q * b + r) == q * (p * b) + p * r
  {
  }

  lemma {:induction false} Ordered(p: int, r: int, b: int)
    requires p >= 1 && 0 <= r < b
    ensures 0 <= p * r < p * b && (r == 0 || p * r >= p)
  {
  }

  /** From attempt 33 to 53 a bit of 1953125 decides between ten seconds and a negative duration, that is none. */
  lemma {:induction false} BackoffSignIff(attempt: nat)
    requires 33 <= attempt <= 53
    ensures Backoff(attempt) < 0 <==> Bit(ODD_PART, 53 - attempt)
    ensures Backoff(attempt) < 0 || Backoff(attempt) == 10 * SECOND
  {
    Pow2Values();
    var p, b := Pow2(attempt) * 1024, Pow2(53 - attempt);
    Pow2Adds(attempt, 53 - attempt);
    assert Pow2(54) == 2 * Pow2(53);
    assert p * b == 0x8000_0000_0000_0000 by {
      Regrouped(Pow2(attempt), b, 1024);
    }
    Pow2Grows(attempt, 53);
    WrapSmall(2 * Pow2(attempt));
    assert Wrap64(2 * Pow2(attempt)) * SECOND == p * ODD_PART;
    WrapOfShifted(ODD_PART, p, b);
    Pow2Grows(33, attempt);
    if attempt < 53 {
      OddRemainder(Pow2(53 - attempt - 1));
    }
  }

  lemma {:induction false} Regrouped(a: int, b: int, c: int)
    ensures a * c * b == a * b * c
  {
  }

  lemma {:induction false} OddRemainder(half: nat)
    requires half >= 1
    ensures ODD_PART % (2 * half) != 0
  {
    var q := ODD_PART / (2 * half);
    assert ODD_PART == q * (2 * half) + ODD_PART % (2 * half);
    assert q * (2 * half) == 2 * (q * half);
  }

  /** The pause the loop is meant to make: doubling from two seconds, capped at ten. */
  function CappedDoubling(attempt: nat): int {
    if attempt <= 2 then 2 * Pow2(attempt) * SECOND else 10 * SECOND
  }

  /** The pause is as meant exactly for these attempts; after any other there is no pause at all. */
  lemma {:induction false} BackoffAsMeantIff(attempt: nat)
    ensures Backoff(attempt) == CappedDoubling(attempt) <==>
      attempt <= 32 || (attempt <= 53 && !Bit(ODD_PART, 53 - attempt))
    ensures Backoff(attempt) != CappedDoubling(attempt) ==> Backoff(attempt) <= 0
    ensures Backoff(33) < 0 && Backoff(36) == 10 * SECOND
  {
    FirstWraps();
    if attempt <= 32 {
      BackoffIsCappedDoubling(attempt);
    } else if attempt <= 53 {
      BackoffSignIff(attempt);
    } else {
      BackoffVanishes(attempt);
    }
  }

  lemma {:induction false} FirstWraps()
    ensures Backoff(33) < 0 && Backoff(36) == 10 * SECOND
  {
    TwoPowers();
    TwoBits(Pow2(20), Pow2(17));
    BackoffSignIff(33);
    BackoffSignIff(36);
  }

  lemma {:induction false} TwoBits(p: nat, q: nat)
    requires p == 0x10_0000 && q == 0x2_0000
    ensures ODD_PART / p % 2 == 1 && ODD_PART / q % 2 == 0
  {
  }

  lemma {:induction false} TwoPowers()
    ensures Pow2(20) == 0x10_0000 && Pow2(17) == 0x2_0000
  {
    Pow2Values();
    Pow2Adds(10, 10);
    Pow2Adds(3, 7);
    Pow2Adds(10, 7);
  }

  // ---- HTTP attempts in an outage ----

  /** One call of sendWithRetries: when the breaker looks at the clock, the answers it would get, when it is over. */
  datatype Notification = Notification(checkTime: int, responses: nat -> bool, endTime: int)

  ghost function AsCall(maxRetries: nat, n: Notification): Call {
    Call(n.checkTime, Undelivered(maxRetries, n.responses), n.endTime)
  }

  ghost function AsCalls(maxRetries: nat, ns: seq<Notification>): (calls: seq<Call>)
    ensures |calls| == |ns| && forall i :: 0 <= i < |ns| ==> calls[i] == AsCall(maxRetries, ns[i])
  {
    seq(|ns|, i requires 0 <= i < |ns| => AsCall(maxRetries, ns[i]))
  }

  ghost function TotalAttempts(maxRetries: nat, ns: seq<Notification>, verdicts: seq<Verdict>): nat
    requires |ns| == |verdicts|
  {
    if ns == [] then 0
    else
      var k := |ns| - 1;
      TotalAttempts(maxRetries, ns[..k], verdicts[..k])
      + if verdicts[k].Rejected? then 0 else Attempts(maxRetries, ns[k].responses, 0)
  }

  /** An execution posts at most maxRetries + 1 times, and exactly so often if nothing is answered with 2xx. */
  lemma {:induction false} AttemptsPerExecution(maxRetries: nat, ns: seq<Notification>, verdicts: seq<Verdict>)
    requires |ns| == |verdicts|
    ensures TotalAttempts(maxRetries, ns, verdicts) <= Executions(verdicts) * (maxRetries + 1)
    ensures (forall i :: 0 <= i < |ns| ==> Undelivered(maxRetries, ns[i].responses)) ==>
      TotalAttempts(maxRetries, ns, verdicts) == Executions(verdicts) * (maxRetries + 1)
    decreases |ns|
  {
    if ns != [] {
      var k := |ns| - 1;
      AttemptsPerExecution(maxRetries, ns[..k], verdicts[..k]);
      if Undelivered(maxRetries, ns[k].responses) {
        AllAttempts(maxRetries, ns[k].responses, 0);
      }
      var rest := Executions(verdicts[..k]);
      assert (rest + 1) * (maxRetries + 1) == rest * (maxRetries + 1) + (maxRetries + 1);
    }
  }

  lemma {:induction false} AllAttempts(maxRetries: nat, responses: nat -> bool, done: nat)
    requires Undelivered(maxRetries, responses) && done <= maxRetries
    ensures Attempts(maxRetries, responses, done) == maxRetries + 1
    decreases maxRetries - done
  {
    if done < maxRetries {
      AllAttempts(maxRetries, responses, done + 1);
    }
  }

  /**
   While the endpoint answers nothing with 2xx, the first D nanoseconds see at most
   (maxRetries + 1) * (failureThreshold + floor(D / recoveryTimeout)) posts.
   */
  lemma {:induction false} OutagePostBound(l: Limits, maxRetries: nat, ns: seq<Notification>, start: int, window: nat)
    requires l.failureThreshold >= 1 && l.recoveryTimeout > 0
    requires Monotone(AsCalls(maxRetries, ns))
    requires forall i :: 0 <= i < |ns| ==>
      Undelivered(maxRetries, ns[i].responses) && start <= ns[i].checkTime <= start + window
    ensures |AfterAll(l, AsCalls(maxRetries, ns)).1| == |ns|
    ensures TotalAttempts(maxRetries, ns, AfterAll(l, AsCalls(maxRetries, ns)).1)
      == Executions(AfterAll(l, AsCalls(maxRetries, ns)).1) * (maxRetries + 1)
      <= (l.failureThreshold + window / l.recoveryTimeout) * (maxRetries + 1)
  {
    var calls := AsCalls(maxRetries, ns);
    FieldsTellTheHistory(l, calls);
    OutageRateBound(l, calls, start, window);
    var verdicts := AfterAll(l, calls).1;
    AttemptsPerExecution(maxRetries, ns, verdicts);
    ProductsOrdered(Executions(verdicts), l.failureThreshold + window / l.recoveryTimeout, maxRetries + 1);
  }
}
