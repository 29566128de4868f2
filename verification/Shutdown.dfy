/**
 Job runs, the webhook worker and Stop together, while the configuration is reloaded or the agent
 shuts down (main.go:451-453, 474-475; internal/scheduler/scheduler.go:396-400).
 */
module Shutdown {
  import Slots
  import Notifier

  /** `items(id)` is what run `id` will report, with its target URL if it has one. */
  datatype System = System(slots: Slots.System, notifier: Notifier.System, items: nat -> Notifier.Item)

  /** Jobs reach the queue only through their own Notify step. */
  datatype Event = Job(job: Slots.Event) | Sender(sender: Notifier.Event)

  predicate Reports(y: System, e: Event) {
    e.Job? && e.job.Notify? && y.slots.hasSender
  }

  ghost predicate Enabled(y: System, e: Event) {
    && !y.notifier.crashed
    && match e
       case Job(job) => Slots.Enabled(y.slots, job)
       case Sender(sender) => !sender.Enqueue? && Notifier.Enabled(y.notifier, sender)
  }

  ghost function Do(y: System, e: Event): System
    requires Enabled(y, e)
  {
    match e
    case Job(job) =>
      y.(slots := Slots.Do(y.slots, job),
         notifier := if Reports(y, e) then Notifier.Do(y.notifier, Notifier.Enqueue(y.items(job.id))) else y.notifier)
    case Sender(sender) => y.(notifier := Notifier.Do(y.notifier, sender))
  }

  ghost predicate Happens(y: System, events: seq<Event>, z: System)
    decreases |events|
  {
    if events == [] then y == z else Enabled(y, events[0]) && Happens(Do(y, events[0]), events[1..], z)
  }

  function Init(limit: nat, hasSender: bool, items: nat -> Notifier.Item): System {
    System(Slots.Init(limit, hasSender), Notifier.START, items)
  }

  // ---- every run's report is offered once ----

  /** Has called Enqueue. */
  predicate HasReported(p: Slots.Phase) {
    p.Returning? || p.Ended?
  }

  /** The runs that have reported and have a target. */
  ghost function Reported(y: System): set<nat> {
    set id | id in y.slots.runs && HasReported(y.slots.runs[id].phase) && y.items(id).targetURL != ""
  }

  ghost predicate Inv(y: System) {
    && Slots.Inv(y.slots) && Notifier.Inv(y.notifier)
    && y.notifier.offered == if y.slots.hasSender then |Reported(y)| else 0
  }

  lemma {:induction false} JobStepMovesOneRun(y: Slots.System, e: Slots.Event)
    requires Slots.Enabled(y, e)
    ensures var z := Slots.Do(y, e);
      && e.id in z.runs && z.runs == y.runs[e.id := z.runs[e.id]] && z.hasSender == y.hasSender
      && (HasReported(z.runs[e.id].phase) <==> e.Notify? || (e.id in y.runs && HasReported(y.runs[e.id].phase)))
      && (e.Notify? ==> e.id in y.runs && !HasReported(y.runs[e.id].phase))
  {
  }

  lemma {:induction false} JobStepReports(y: System, e: Event)
    requires Enabled(y, e) && e.Job?
    ensures var id := e.job.id;
      Reported(Do(y, e)) == Reported(y) + (if e.job.Notify? && y.items(id).targetURL != "" then {id} else {})
    ensures e.job.Notify? ==> e.job.id !in Reported(y)
  {
    JobStepMovesOneRun(y.slots, e.job);
    var z := Do(y, e);
    assert forall i :: i != e.job.id ==> (i in Reported(z) <==> i in Reported(y));
  }

  lemma {:induction false} EnqueueOffers(n: Notifier.System, item: Notifier.Item)
    requires !n.crashed
    ensures Notifier.Do(n, Notifier.Enqueue(item)).offered == n.offered + if item.targetURL != "" then 1 else 0
  {
  }

  lemma {:induction false} StepKeepsInv(y: System, e: Event)
    requires Inv(y) && Enabled(y, e)
    ensures Inv(Do(y, e))
  {
    match e
    case Job(job) =>
      Slots.StepKeepsInv(y.slots, job);
      JobStepMovesOneRun(y.slots, job);
      JobStepReports(y, e);
      if Reports(y, e) {
        Notifier.StepKeepsInv(y.notifier, Notifier.Enqueue(y.items(job.id)));
        EnqueueOffers(y.notifier, y.items(job.id));
      }
    case Sender(sender) =>
      Notifier.StepKeepsInv(y.notifier, sender);
      assert Reported(Do(y, e)) == Reported(y);
  }

  lemma {:induction false} HappeningKeepsInv(y: System, events: seq<Event>, z: System)
    requires Inv(y) && Happens(y, events, z)
    ensures Inv(z) && z.items == y.items && z.slots.hasSender == y.slots.hasSender
    decreases |events|
  {
    if events != [] {
      StepKeepsInv(y, events[0]);
      if events[0].Job? {
        JobStepMovesOneRun(y.slots, events[0].job);
      }
      HappeningKeepsInv(Do(y, events[0]), events[1..], z);
    }
  }

  /**
   As long as the process lives, with a sender: the runs that have reported and have a target are
   as many as the reports accepted and dropped; and when Stop has returned, as the reports
   processed and dropped.
   */
  lemma {:induction false} ReportsAccountedFor(limit: nat, items: nat -> Notifier.Item, events: seq<Event>, y: System)
    requires Happens(Init(limit, true, items), events, y)
    ensures !y.notifier.crashed ==> |Reported(y)| == |y.notifier.accepted| + y.notifier.dropped
    ensures !y.notifier.crashed && y.notifier.stop.Returned? ==>
      |Reported(y)| == |y.notifier.processed| + y.notifier.dropped
  {
    var y0 := Init(limit, true, items);
    assert Slots.Bodies(y0.slots) == {} && Reported(y0) == {};
    HappeningKeepsInv(y0, events, y);
  }

  // ---- when the process panics ----

  /** A report with a target, or a call of Stop. */
  predicate NeedsOpenChannel(items: nat -> Notifier.Item, e: Event) {
    || (e.Job? && e.job.Notify? && items(e.job.id).targetURL != "")
    || (e.Sender? && e.sender.Stop?)
  }

  lemma {:induction false} StepCrashesIff(y: System, e: Event)
    requires Inv(y) && Enabled(y, e) && y.slots.hasSender
    ensures Do(y, e).notifier.crashed <==> NeedsOpenChannel(y.items, e) && y.notifier.closed
    ensures !Do(y, e).notifier.crashed ==>
      (Do(y, e).notifier.closed <==> y.notifier.closed || e == Sender(Notifier.Stop))
  {
  }

  /**
   The process panics if and only if a run with a target reports after the sender has been
   stopped, or the sender is stopped twice. The scheduler is stopped only after the sender, and
   waits ten seconds at most, so nothing keeps a run from doing so.
   */
  lemma {:induction false} PanicsIff(y: System, events: seq<Event>, z: System)
    requires Inv(y) && y.slots.hasSender && !y.notifier.crashed && Happens(y, events, z)
    ensures z.notifier.crashed <==>
      exists i :: 0 <= i < |events| && NeedsOpenChannel(y.items, events[i])
        && (y.notifier.closed || Sender(Notifier.Stop) in events[..i])
    decreases |events|
  {
    if events != [] {
      var e := events[0];
      var x := Do(y, e);
      StepKeepsInv(y, e);
      StepCrashesIff(y, e);
      if e.Job? {
        JobStepMovesOneRun(y.slots, e.job);
      }
      if x.notifier.crashed {
        assert NeedsOpenChannel(y.items, events[0]) && y.notifier.closed;
        assert events[1..] == [];
      } else {
        PanicsIff(x, events[1..], z);
        forall i | 0 <= i < |events| - 1
          ensures Sender(Notifier.Stop) in events[..i + 1] <==>
            e == Sender(Notifier.Stop) || Sender(Notifier.Stop) in events[1..][..i]
        {
          assert events[..i + 1] == [e] + events[1..][..i];
        }
        if z.notifier.crashed {
          var i :| 0 <= i < |events[1..]| && NeedsOpenChannel(y.items, events[1..][i])
            && (x.notifier.closed || Sender(Notifier.Stop) in events[1..][..i]);
          assert NeedsOpenChannel(y.items, events[i + 1]);
        }
        forall i | 0 <= i < |events| && NeedsOpenChannel(y.items, events[i])
                   && (y.notifier.closed || Sender(Notifier.Stop) in events[..i])
          ensures z.notifier.crashed
        {
          if i > 0 {
            assert events[i] == events[1..][i - 1];
          }
        }
      }
    }
  }

  /** If a run with a target is about to report when the sender is stopped, some schedule panics. */
  lemma {:induction false} StopDuringRunCanPanic(y: System, id: nat) returns (events: seq<Event>, z: System)
    requires Inv(y) && y.slots.hasSender && !y.notifier.crashed && !y.notifier.closed
    requires id in y.slots.runs && y.slots.runs[id].phase.Notifying? && y.items(id).targetURL != ""
    ensures Happens(y, events, z) && z.notifier.crashed
  {
    var stop, report := Sender(Notifier.Stop), Job(Slots.Notify(id));
    var x := Do(y, stop);
    z := Do(x, report);
    events := [stop, report];
    assert events[1..] == [report] && [report][1..] == [];
    assert Happens(z, [], z) && Happens(x, [report], z);
  }
}
