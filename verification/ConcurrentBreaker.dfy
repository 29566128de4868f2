/**
 The same breaker with any number of callers at once: `Call` split at its lock boundaries
 (internal/webhook/webhook.go:57-110). The state a caller read under the read lock is not
 read again when it takes the write lock.
 */
module ConcurrentBreaker {
  import opened Breaker

  datatype Caller =
    | Entered(snapshot: Circuit)   // read lock released
    | Executing(mode: Admission)   // in fn, no lock held
    | Returned(verdict: Verdict)

  datatype System = System(fields: Fields, callers: map<nat, Caller>, ran: set<nat>)

  datatype Event =
    | Enter(id: nat)
    | Decide(id: nat, now: int)
    | Return(id: nat, failed: bool, now: int)

  predicate Enabled(y: System, e: Event) {
    match e
    case Enter(id) => id !in y.callers
    case Decide(id, _) => id in y.callers && y.callers[id].Entered?
    case Return(id, _, _) => id in y.callers && y.callers[id].Executing? && !y.callers[id].mode.Refused?
  }

  function Do(l: Limits, y: System, e: Event): System
    requires Enabled(y, e)
  {
    match e
    case Enter(id) => y.(callers := y.callers[id := Entered(y.fields.state)])
    case Decide(id, now) =>
      var (f, a) := Admit(l, y.fields, y.callers[id].snapshot, now);
      if a.Refused? then System(f, y.callers[id := Returned(Rejected)], y.ran)
      else System(f, y.callers[id := Executing(a)], y.ran + {id})
    case Return(id, failed, now) =>
      y.(fields := Finish(l, y.fields, y.callers[id].mode, failed, now),
         callers := y.callers[id := Returned(if failed then Failed else Succeeded)])
  }

  const START := System(FRESH, map[], {})

  predicate Happens(l: Limits, y: System, events: seq<Event>, z: System)
    decreases |events|
  {
    if events == [] then y == z else Enabled(y, events[0]) && Happens(l, Do(l, y, events[0]), events[1..], z)
  }

  ghost predicate Inv(l: Limits, y: System) {
    && y.fields.failureCount >= 0
    && (y.fields.state.Closed? ==> y.fields.failureCount < Limit(l))
    && (y.fields.state.HalfOpen? ==> exists id :: id in y.callers && y.callers[id] == Executing(Probe))
    && (forall id :: id in y.callers ==>
          match y.callers[id]
          case Entered(_) => id !in y.ran
          case Executing(mode) => id in y.ran && !mode.Refused?
          case Returned(v) => id in y.ran <==> !v.Rejected?)
    && y.ran <= y.callers.Keys
  }

  lemma {:induction false} StepKeepsInv(l: Limits, y: System, e: Event)
    requires Inv(l, y) && Enabled(y, e)
    ensures Inv(l, Do(l, y, e))
  {
    var z := Do(l, y, e);
    if z.fields.state.HalfOpen? && y.fields.state.HalfOpen? {
      var p :| p in y.callers && y.callers[p] == Executing(Probe);
      assert z.callers[p] == Executing(Probe) || (e.Return? && e.id == p);
    } else if z.fields.state.HalfOpen? {
      assert z.callers[e.id] == Executing(Probe);
    }
  }

  lemma {:induction false} HappeningKeepsInv(l: Limits, y: System, events: seq<Event>, z: System)
    requires Inv(l, y) && Happens(l, y, events, z)
    ensures Inv(l, z)
    decreases |events|
  {
    if events != [] {
      StepKeepsInv(l, y, events[0]);
      HappeningKeepsInv(l, Do(l, y, events[0]), events[1..], z);
    }
  }

  /**
   Whatever the interleaving: a closed circuit has a count below the threshold, a half-open
   one has a probe in flight, and exactly the callers that were not turned away ran `fn`.
   */
  lemma {:induction false} AnyInterleaving(l: Limits, events: seq<Event>, y: System)
    requires Happens(l, START, events, y)
    ensures y.fields.state.Closed? ==> 0 <= y.fields.failureCount < Limit(l)
    ensures y.fields.state.HalfOpen? ==> exists id :: id in y.callers && y.callers[id] == Executing(Probe)
    ensures forall id :: id in y.callers && y.callers[id].Returned? ==>
      (y.callers[id].verdict.Rejected? <==> id !in y.ran)
  {
    HappeningKeepsInv(l, START, events, y);
  }

  /** A caller whose three sections nobody interrupts does what the sequential breaker does. */
  lemma {:induction false} AloneIsSequential(l: Limits, y: System, id: nat, c: Call)
    requires id !in y.callers
    ensures var y1 := Do(l, y, Enter(id));
      var y2 := Do(l, y1, Decide(id, c.checkTime));
      var y3 := if y2.callers[id].Returned? then y2 else Do(l, y2, Return(id, c.failed, c.endTime));
      && y3.callers[id].Returned?
      && (y3.fields, y3.callers[id].verdict) == After(l, y.fields, c)
  {
  }

  // ---- open circuits below the threshold ----

  /** What holds between calls when nobody overlaps: open means the threshold has been reached. */
  predicate Tripped(l: Limits, f: Fields) {
    f.state.Open? ==> f.failureCount >= Limit(l)
  }

  /**
   The two ways out of that: a probe fails although the count has been reset meanwhile, or a
   caller admitted while the circuit was closed succeeds after it has opened.
   */
  predicate Breaks(l: Limits, y: System, e: Event)
    requires Enabled(y, e)
  {
    && e.Return?
    && var mode := y.callers[e.id].mode;
    || (e.failed && mode.Probe? && y.fields.failureCount + 1 < Limit(l))
    || (!e.failed && mode.Normal? && y.fields.state.Open?)
  }

  lemma {:induction false} StepBreaksIff(l: Limits, y: System, e: Event)
    requires Inv(l, y) && Tripped(l, y.fields) && Enabled(y, e)
    ensures Tripped(l, Do(l, y, e).fields) <==> !Breaks(l, y, e)
  {
  }

  predicate AlwaysTripped(l: Limits, y: System, events: seq<Event>)
    decreases |events|
  {
    && Tripped(l, y.fields)
    && (events == [] || (Enabled(y, events[0]) && AlwaysTripped(l, Do(l, y, events[0]), events[1..])))
  }

  /** No step of the schedule is one of the two. */
  predicate Orderly(l: Limits, y: System, events: seq<Event>)
    decreases |events|
  {
    events == [] ||
    (Enabled(y, events[0]) && !Breaks(l, y, events[0]) && Orderly(l, Do(l, y, events[0]), events[1..]))
  }

  lemma {:induction false} AlwaysTrippedIff(l: Limits, y: System, events: seq<Event>, z: System)
    requires Inv(l, y) && Tripped(l, y.fields) && Happens(l, y, events, z)
    ensures AlwaysTripped(l, y, events) <==> Orderly(l, y, events)
    decreases |events|
  {
    if events != [] {
      var x := Do(l, y, events[0]);
      StepKeepsInv(l, y, events[0]);
      StepBreaksIff(l, y, events[0]);
      if Tripped(l, x.fields) {
        AlwaysTrippedIff(l, x, events[1..], z);
      }
    }
  }

  /**
   With overlapping callers the circuit is open below the threshold at some point of a schedule
   if and only if one of its steps is the failure of a probe after a reset or the late success of
   a caller admitted while it was closed.
   */
  lemma {:induction false} OpensBelowThresholdIff(l: Limits, events: seq<Event>, y: System)
    requires Happens(l, START, events, y)
    ensures AlwaysTripped(l, START, events) <==> Orderly(l, START, events)
  {
    AlwaysTrippedIff(l, START, events, y);
  }

  /**
   What acting on a stale snapshot does by itself: a closed circuit becomes half-open exactly if
   a caller that read "open" gets to the write lock when the last recorded failure is old enough.
   */
  lemma {:induction false} ClosedTurnsHalfOpenIff(l: Limits, y: System, e: Event)
    requires Enabled(y, e) && y.fields.state.Closed?
    ensures Do(l, y, e).fields.state.HalfOpen? <==>
      e.Decide? && y.callers[e.id].snapshot.Open? && e.now - y.fields.lastFailureTime >= l.recoveryTimeout
  {
  }

  /**
   No snapshot need be stale: half-open admits every caller. Once the timeout of an open circuit
   has passed, a second caller that reads "half-open" probes as well, and its failure after the
   first one's success opens the healed circuit with a count of one.
   */
  lemma {:induction false} TwoProbesReopen(l: Limits, f: Fields, now: int) returns (healed: System, end: System)
    requires f.state.Open? && now - f.lastFailureTime >= l.recoveryTimeout
    ensures Happens(l, System(f, map[], {}),
              [Enter(0), Decide(0, now), Enter(1), Decide(1, now), Return(0, false, now)], healed)
    ensures healed.fields.state.Closed? && 1 in healed.callers && healed.callers[1] == Executing(Probe)
    ensures Happens(l, healed, [Return(1, true, now)], end) && end.fields == Fields(Open, 1, now)
  {
    var y0 := System(f, map[], {});
    var y1 := Do(l, y0, Enter(0));
    var y2 := Do(l, y1, Decide(0, now));
    var y3 := Do(l, y2, Enter(1));
    var y4 := Do(l, y3, Decide(1, now));
    healed := Do(l, y4, Return(0, false, now));
    end := Do(l, healed, Return(1, true, now));
    HappensFirst(l, healed, Return(1, true, now), [], end);
    HappensFirst(l, y4, Return(0, false, now), [], healed);
    HappensFirst(l, y3, Decide(1, now), [Return(0, false, now)], healed);
    HappensFirst(l, y2, Enter(1), [Decide(1, now), Return(0, false, now)], healed);
    HappensFirst(l, y1, Decide(0, now), [Enter(1), Decide(1, now), Return(0, false, now)], healed);
    HappensFirst(l, y0, Enter(0), [Decide(0, now), Enter(1), Decide(1, now), Return(0, false, now)], healed);
  }

  /** One failure short of the threshold: a slow success leaves the circuit open with a count of zero. */
  lemma {:induction false} LateSuccessLeavesItOpen(l: Limits, f: Fields, now: int) returns (end: System)
    requires f.state.Closed? && f.failureCount + 1 >= l.failureThreshold
    ensures Happens(l, System(f, map[], {}), [Enter(0), Decide(0, now), Enter(1), Decide(1, now),
                                              Return(1, true, now), Return(0, false, now)], end)
    ensures end.fields == Fields(Open, 0, now)
  {
    var y0 := System(f, map[], {});
    var y1 := Do(l, y0, Enter(0));
    var y2 := Do(l, y1, Decide(0, now));
    var y3 := Do(l, y2, Enter(1));
    var y4 := Do(l, y3, Decide(1, now));
    var y5 := Do(l, y4, Return(1, true, now));
    end := Do(l, y5, Return(0, false, now));
    var fails, succeeds := Return(1, true, now), Return(0, false, now);
    HappensFirst(l, y5, succeeds, [], end);
    HappensFirst(l, y4, fails, [succeeds], end);
    HappensFirst(l, y3, Decide(1, now), [fails, succeeds], end);
    HappensFirst(l, y2, Enter(1), [Decide(1, now), fails, succeeds], end);
    HappensFirst(l, y1, Decide(0, now), [Enter(1), Decide(1, now), fails, succeeds], end);
    HappensFirst(l, y0, Enter(0), [Decide(0, now), Enter(1), Decide(1, now), fails, succeeds], end);
  }

  /** Caller 0 is still in `fn`, admitted at the start; `n` callers have failed one after another since. */
  lemma {:induction false} FailuresPileUp(l: Limits, n: nat) returns (events: seq<Event>, y: System)
    requires n <= Limit(l)
    ensures Happens(l, START, events, y)
    ensures y.fields == Fields(if n == Limit(l) then Open else Closed, n, 0)
    ensures 0 in y.callers && y.callers[0] == Executing(Normal) && forall id :: id in y.callers ==> id <= n
  {
    if n == 0 {
      events := [Enter(0), Decide(0, 0)];
      var y1 := Do(l, START, Enter(0));
      y := Do(l, y1, Decide(0, 0));
      HappensFirst(l, y1, Decide(0, 0), [], y);
      HappensFirst(l, START, Enter(0), [Decide(0, 0)], y);
    } else {
      var before, x := FailuresPileUp(l, n - 1);
      var x1 := Do(l, x, Enter(n));
      var x2 := Do(l, x1, Decide(n, 0));
      y := Do(l, x2, Return(n, true, 0));
      HappensFirst(l, x2, Return(n, true, 0), [], y);
      HappensFirst(l, x1, Decide(n, 0), [Return(n, true, 0)], y);
      HappensFirst(l, x, Enter(n), [Decide(n, 0), Return(n, true, 0)], y);
      events := before + [Enter(n), Decide(n, 0), Return(n, true, 0)];
      HappensThen(l, START, before, x, [Enter(n), Decide(n, 0), Return(n, true, 0)], y);
    }
  }

  /** Whatever the threshold, a fresh breaker can get to be open with a count of zero. */
  lemma {:induction false} OpenWithoutFailuresIsReached(l: Limits) returns (events: seq<Event>, y: System)
    ensures Happens(l, START, events, y) && y.fields == Fields(Open, 0, 0) && !AlwaysTripped(l, START, events)
  {
    var before, x := FailuresPileUp(l, Limit(l));
    y := Do(l, x, Return(0, false, 0));
    HappensFirst(l, x, Return(0, false, 0), [], y);
    events := before + [Return(0, false, 0)];
    HappensThen(l, START, before, x, [Return(0, false, 0)], y);
    if AlwaysTripped(l, START, events) {
      TrippedAtTheEnd(l, START, events, y);
    }
  }

  lemma {:induction false} TrippedAtTheEnd(l: Limits, y: System, events: seq<Event>, z: System)
    requires Happens(l, y, events, z) && AlwaysTripped(l, y, events)
    ensures Tripped(l, z.fields)
    decreases |events|
  {
    if events != [] {
      TrippedAtTheEnd(l, Do(l, y, events[0]), events[1..], z);
    }
  }

  lemma {:induction false} HappensThen(l: Limits, y: System, xs: seq<Event>, x: System, zs: seq<Event>, z: System)
    requires Happens(l, y, xs, x) && Happens(l, x, zs, z)
    ensures Happens(l, y, xs + zs, z)
    decreases |xs|
  {
    if xs == [] {
      assert xs + zs == zs;
    } else {
      assert (xs + zs)[1..] == xs[1..] + zs;
      HappensThen(l, Do(l, y, xs[0]), xs[1..], x, zs, z);
    }
  }

  lemma {:induction false} HappensFirst(l: Limits, y: System, e: Event, rest: seq<Event>, z: System)
    requires Enabled(y, e) && Happens(l, Do(l, y, e), rest, z)
    ensures Happens(l, y, [e] + rest, z)
  {
    assert ([e] + rest)[1..] == rest;
  }
}
