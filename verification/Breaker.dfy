/** The webhook circuit breaker, one caller at a time (internal/webhook/webhook.go:32-110). Times are nanoseconds. */
module Breaker {

  datatype Circuit = Closed | Open | HalfOpen

  datatype Limits = Limits(failureThreshold: int, recoveryTimeout: int)

  /** The fields that `cb.mu` guards. */
  datatype Fields = Fields(state: Circuit, failureCount: int, lastFailureTime: int)

  datatype Admission = Refused | Probe | Normal

  datatype Verdict = Rejected | Succeeded | Failed

  const FRESH := Fields(Closed, 0, 0)

  /** The critical section before `fn`, for a caller that read `snapshot` under the read lock. */
  function Admit(l: Limits, f: Fields, snapshot: Circuit, now: int): (Fields, Admission) {
    match snapshot
    case Open =>
      if now - f.lastFailureTime >= l.recoveryTimeout then (f.(state := HalfOpen), Probe) else (f, Refused)
    case HalfOpen => (f, Probe)
    case Closed => (f, Normal)
  }

  /** The critical section after `fn`. */
  function Finish(l: Limits, f: Fields, mode: Admission, failed: bool, now: int): Fields
    requires !mode.Refused?
  {
    var counted := Fields(f.state, f.failureCount + 1, now);
    if mode.Probe? then
      if failed then counted.(state := Open) else f.(state := Closed, failureCount := 0)
    else if failed then
      if f.failureCount + 1 >= l.failureThreshold then counted.(state := Open) else counted
    else f.(failureCount := 0)
  }

  /** One call that nobody overlaps: when it looks at the clock, how `fn` ends and when. */
  datatype Call = Call(checkTime: int, failed: bool, endTime: int)

  function After(l: Limits, f: Fields, c: Call): (Fields, Verdict) {
    var (g, a) := Admit(l, f, f.state, c.checkTime);
    if a.Refused? then (g, Rejected)
    else (Finish(l, g, a, c.failed, c.endTime), if c.failed then Failed else Succeeded)
  }

  function AfterAll(l: Limits, calls: seq<Call>): (Fields, seq<Verdict>) {
    if calls == [] then (FRESH, [])
    else
      var (f, vs) := AfterAll(l, calls[..|calls| - 1]);
      var (g, v) := After(l, f, calls[|calls| - 1]);
      (g, vs + [v])
  }

  class CircuitBreaker {
    const limits: Limits
    var state: Circuit
    var failureCount: int
    var lastFailureTime: int

    function View(): Fields
      reads this
    {
      Fields(state, failureCount, lastFailureTime)
    }

    constructor (failureThreshold: int, recoveryTimeout: int)
      ensures limits == Limits(failureThreshold, recoveryTimeout) && View() == FRESH
    {
      limits := Limits(failureThreshold, recoveryTimeout);
      state, failureCount, lastFailureTime := Closed, 0, 0;
    }

    method Call(c: Call) returns (v: Verdict)
      modifies this
      ensures (View(), v) == After(limits, old(View()), c)
    {
      var probe := state == HalfOpen;
      if state == Open {
        if c.checkTime - lastFailureTime >= limits.recoveryTimeout {
          state := HalfOpen;
          probe := true;
        } else {
          return Rejected;
        }
      }
      if probe {
        if c.failed {
          failureCount := failureCount + 1;
          lastFailureTime := c.endTime;
          state := Open;
          return Failed;
        }
        state := Closed;
        failureCount := 0;
        return Succeeded;
      }
      if c.failed {
        failureCount := failureCount + 1;
        lastFailureTime := c.endTime;
        if failureCount >= limits.failureThreshold {
          state := Open;
        }
        return Failed;
      }
      failureCount := 0;
      return Succeeded;
    }

    /** A sequence of calls, none overlapping another. */
    method CallAll(calls: seq<Call>) returns (verdicts: seq<Verdict>)
      requires View() == FRESH
      modifies this
      ensures View() == AfterAll(limits, calls).0 && verdicts == AfterAll(limits, calls).1
    {
      verdicts := [];
      for i := 0 to |calls|
        invariant (View(), verdicts) == AfterAll(limits, calls[..i])
      {
        var v := Call(calls[i]);
        verdicts := verdicts + [v];
        assert calls[..i + 1][..i] == calls[..i];
      }
      assert calls[..|calls|] == calls;
    }
  }

  // ---- what the fields mean in terms of the past ----

  /** Executions that failed since the last one that succeeded; a rejected call executes nothing. */
  function Streak(verdicts: seq<Verdict>): nat {
    if verdicts == [] then 0
    else match verdicts[|verdicts| - 1]
      case Rejected => Streak(verdicts[..|verdicts| - 1])
      case Succeeded => 0
      case Failed => Streak(verdicts[..|verdicts| - 1]) + 1
  }

  /** When the most recent failed execution ended. */
  function LastFailureEnd(calls: seq<Call>, verdicts: seq<Verdict>): int
    requires |calls| == |verdicts|
    decreases |calls|
  {
    if calls == [] then 0
    else if verdicts[|calls| - 1].Failed? then calls[|calls| - 1].endTime
    else LastFailureEnd(calls[..|calls| - 1], verdicts[..|calls| - 1])
  }

  /** The smallest streak that opens the circuit: a threshold below one behaves like one. */
  function Limit(l: Limits): (n: int)
    ensures n >= 1
  {
    if l.failureThreshold < 1 then 1 else l.failureThreshold
  }

  /**
   After any sequence of calls the count is the current streak of failures, the circuit is
   open exactly if the streak has reached the threshold and closed otherwise, and half-open
   is never left behind.
   */
  lemma {:induction false} FieldsTellTheHistory(l: Limits, calls: seq<Call>)
    ensures var (f, vs) := AfterAll(l, calls);
      && |vs| == |calls|
      && f.failureCount == Streak(vs)
      && f.state == (if Streak(vs) >= Limit(l) then Open else Closed)
      && f.lastFailureTime == LastFailureEnd(calls, vs)
  {
    if calls != [] {
      FieldsTellTheHistory(l, calls[..|calls| - 1]);
      var vs := AfterAll(l, calls).1;
      assert vs[..|calls| - 1] == AfterAll(l, calls[..|calls| - 1]).1;
    }
  }

  /**
   The next call is turned away exactly if the streak has reached the threshold and its last
   failure ended less than the recovery timeout ago; any other call runs `fn` and reports it.
   */
  lemma {:induction false} NextVerdict(l: Limits, calls: seq<Call>, c: Call)
    ensures var vs := AfterAll(l, calls).1;
      && |vs| == |calls|
      && AfterAll(l, calls + [c]).1 == vs + [
           if Streak(vs) >= Limit(l) && c.checkTime - LastFailureEnd(calls, vs) < l.recoveryTimeout then Rejected
           else if c.failed then Failed else Succeeded]
  {
    FieldsTellTheHistory(l, calls);
    assert (calls + [c])[..|calls|] == calls;
  }

  // ---- outage rate bound ----

  predicate Monotone(calls: seq<Call>) {
    && (forall i :: 0 <= i < |calls| ==> calls[i].checkTime <= calls[i].endTime)
    && (forall i, j :: 0 <= i < j < |calls| ==> calls[i].endTime <= calls[j].checkTime)
  }

  function Executions(verdicts: seq<Verdict>): nat {
    if verdicts == [] then 0
    else Executions(verdicts[..|verdicts| - 1]) + if verdicts[|verdicts| - 1].Rejected? then 0 else 1
  }

  lemma {:induction false} AfterOneMore(l: Limits, calls: seq<Call>)
    requires calls != []
    ensures var (f, vs) := AfterAll(l, calls[..|calls| - 1]);
      var (g, v) := After(l, f, calls[|calls| - 1]);
      && AfterAll(l, calls) == (g, vs + [v])
      && Executions(vs + [v]) == Executions(vs) + if v.Rejected? then 0 else 1
  {
    var (f, vs) := AfterAll(l, calls[..|calls| - 1]);
    var v := After(l, f, calls[|calls| - 1]).1;
    assert (vs + [v])[..|vs|] == vs && (vs + [v])[|vs|] == v;
  }

  /** `n` recovery timeouts in a row. */
  function Waits(n: nat, r: int): int {
    if n == 0 then 0 else Waits(n - 1, r) + r
  }

  lemma {:induction false} WaitsMultiply(n: nat, r: int)
    ensures Waits(n, r) == n * r
  {
    if n > 0 {
      WaitsMultiply(n - 1, r);
    }
  }

  /** What an outage keeps true: every failure past the threshold has waited out one more recovery timeout. */
  predicate Spaced(l: Limits, f: Fields, start: int, finish: int) {
    && f.failureCount >= 0
    && f.state == (if f.failureCount >= Limit(l) then Open else Closed)
    && (f.failureCount >= Limit(l) ==> f.lastFailureTime >= start + Waits(f.failureCount - Limit(l), l.recoveryTimeout))
    && (f.failureCount > Limit(l) ==> start + Waits(f.failureCount - Limit(l), l.recoveryTimeout) <= finish)
  }

  lemma {:induction false} FailingCall(l: Limits, f: Fields, c: Call, start: int, finish: int)
    requires Spaced(l, f, start, finish)
    requires c.failed && start <= c.checkTime <= finish && c.checkTime <= c.endTime
    ensures var (g, v) := After(l, f, c);
      && Spaced(l, g, start, finish)
      && (v.Rejected? || v.Failed?)
      && g.failureCount == f.failureCount + if v.Rejected? then 0 else 1
  {
    assert c.endTime >= start + Waits(0, l.recoveryTimeout);
  }

  lemma {:induction false} OutageSpacing(l: Limits, calls: seq<Call>, start: int, finish: int)
    requires Monotone(calls)
    requires forall i :: 0 <= i < |calls| ==> calls[i].failed && start <= calls[i].checkTime <= finish
    ensures var (f, vs) := AfterAll(l, calls);
      Spaced(l, f, start, finish) && Executions(vs) == f.failureCount
  {
    if calls != [] {
      var k := |calls| - 1;
      OutageSpacing(l, calls[..k], start, finish);
      FailingCall(l, AfterAll(l, calls[..k]).0, calls[k], start, finish);
      AfterOneMore(l, calls);
    }
  }

  /**
   While the endpoint is down, at most failureThreshold + floor(D / recoveryTimeout) executions
   of `fn` begin in the first D nanoseconds.
   */
  lemma {:induction false} OutageRateBound(l: Limits, calls: seq<Call>, start: int, window: nat)
    requires l.failureThreshold >= 1 && l.recoveryTimeout > 0 && Monotone(calls)
    requires forall i :: 0 <= i < |calls| ==> calls[i].failed && start <= calls[i].checkTime <= start + window
    ensures Executions(AfterAll(l, calls).1) <= l.failureThreshold + window / l.recoveryTimeout
  {
    OutageSpacing(l, calls, start, start + window);
    var n := Executions(AfterAll(l, calls).1);
    if n > l.failureThreshold {
      assert Waits(n - l.failureThreshold, l.recoveryTimeout) <= window;
      WaitsQuotient(window, l.recoveryTimeout, n - l.failureThreshold);
    }
  }

  lemma {:induction false} WaitsQuotient(window: nat, r: int, k: nat)
    requires r > 0 && Waits(k, r) <= window
    ensures k <= window / r
  {
    WaitsMultiply(k, r);
    QuotientAtLeast(window, r, k);
  }

  lemma {:induction false} QuotientAtLeast(x: nat, r: int, k: int)
    requires r > 0 && k * r <= x
    ensures k <= x / r
  {
    var q := x / r;
    assert x < (q + 1) * r;
    ProductsOrdered(q + 1, k, r);
  }

  lemma {:induction false} ProductsOrdered(a: int, b: int, r: int)
    requires r > 0
    ensures a <= b ==> a * r <= b * r
  {
  }
}
