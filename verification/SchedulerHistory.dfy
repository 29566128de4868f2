/** The scheduler's tables after any calls of AddOrUpdateJob and RemoveJob (internal/scheduler/scheduler.go:73-147). */
module SchedulerHistory {
  import opened Common
  import opened Scheduler
  import opened GoStrings

  datatype Command = Command(id: string, op: Op)

  function AfterAll(accepts: string -> bool, commands: seq<Command>): Tables {
    if commands == [] then EMPTY
    else
      var k := |commands| - 1;
      Apply(accepts, AfterAll(accepts, commands[..k]), commands[k].id, commands[k].op)
  }

  /** One container's slot, computed from its own commands only. */
  function OwnSlot(accepts: string -> bool, commands: seq<Command>, id: string): Slot {
    if commands == [] then Absent
    else
      var k := |commands| - 1;
      var before := OwnSlot(accepts, commands[..k], id);
      if commands[k].id == id then SlotStep(accepts, before, commands[k].op) else before
  }

  /**
   In every reachable state: each live entry belongs to exactly one container's record, whose
   cron expression it runs on; no two records share an entry ID; and every container's slot is
   what its own commands alone make of it.
   */
  lemma {:induction false} TablesAgree(accepts: string -> bool, commands: seq<Command>)
    ensures var t := AfterAll(accepts, commands);
      && Inv(accepts, t)
      && forall id :: SlotOf(t, id) == OwnSlot(accepts, commands, id)
    decreases |commands|
  {
    if commands != [] {
      var k := |commands| - 1;
      TablesAgree(accepts, commands[..k]);
      StepRefinesSlots(accepts, AfterAll(accepts, commands[..k]), commands[k].id, commands[k].op);
    }
  }

  /** AddOrUpdateJob returns nil if and only if the container's record then holds the given spec. */
  lemma {:induction false} NilIffRecorded(accepts: string -> bool, t: Tables, id: string, spec: Spec)
    ensures var (u, ok) := AddOrUpdate(accepts, t, id, spec);
      ok <==> id in u.activeJobs && u.activeJobs[id].spec == spec
  {
  }

  // ---- the expression handed to AddFunc ----

  /**
   Every live entry runs on its spec's cron expression: as it is if it starts with "@" or has not
   exactly five fields, else with the same fields after a seconds field "0", since the parser is
   made to expect one.
   */
  lemma {:induction false} EntriesRunOnTheirCron(accepts: string -> bool, commands: seq<Command>, e: nat)
    requires e in AfterAll(accepts, commands).entries
    ensures var entry := AfterAll(accepts, commands).entries[e];
      var cron := entry.spec.cron;
      && accepts(entry.schedule)
      && if |Fields(cron)| == 5 && !("@" <= TrimSpace(cron))
         then Fields(entry.schedule) == ["0"] + Fields(cron) && "0" + " " <= entry.schedule
         else entry.schedule == cron
  {
    TablesAgree(accepts, commands);
    ScheduleFields(AfterAll(accepts, commands).entries[e].spec.cron);
  }

  lemma {:induction false} ScheduleFields(cron: string)
    ensures if |Fields(cron)| == 5 && !("@" <= TrimSpace(cron))
      then Fields(Schedule(cron)) == ["0"] + Fields(cron) && "0" + " " <= Schedule(cron)
      else Schedule(cron) == cron
  {
    var trimmed := TrimSpace(cron);
    FieldsTrimmed(cron);
    FieldsOfWord("0");
    FieldsConcat("0", ' ', trimmed);
    assert "0" + [' '] + trimmed == "0 " + trimmed;
  }

  // ---- AddFunc calls ----

  /** The calls one more command adds to `calls`. */
  function CallsThen(accepts: string -> bool, t: Tables, calls: seq<(Spec, bool)>, c: Command,
                     id: string): seq<(Spec, bool)> {
    if c.id == id && c.op.Update? && !CronUnchanged(t, id, c.op.spec)
    then calls + [(c.op.spec, accepts(Schedule(c.op.spec.cron)))]
    else calls
  }

  /** The specs this container's AddFunc calls were made for, in order, each with its success. */
  function AddCalls(accepts: string -> bool, commands: seq<Command>, id: string): seq<(Spec, bool)> {
    if commands == [] then []
    else
      var k := |commands| - 1;
      CallsThen(accepts, AfterAll(accepts, commands[..k]), AddCalls(accepts, commands[..k], id), commands[k], id)
  }

  function LastAdded(calls: seq<(Spec, bool)>): Option<Spec> {
    if calls == [] then None
    else
      var k := |calls| - 1;
      if calls[k].1 then Some(calls[k].0) else LastAdded(calls[..k])
  }

  predicate CallsExplain(slot: Slot, calls: seq<(Spec, bool)>) {
    slot.Absent? ||
    (calls != [] && (slot.Live? <==> calls[|calls| - 1].1) && (slot.Live? ==> LastAdded(calls) == Some(slot.captured)))
  }

  lemma {:induction false} CommandKeepsExplained(accepts: string -> bool, t: Tables, calls: seq<(Spec, bool)>,
                                                 c: Command, id: string)
    requires Inv(accepts, t) && CallsExplain(SlotOf(t, id), calls)
    ensures CallsExplain(SlotOf(Apply(accepts, t, c.id, c.op), id), CallsThen(accepts, t, calls, c, id))
  {
    StepRefinesSlots(accepts, t, c.id, c.op);
    var after := CallsThen(accepts, t, calls, c, id);
    assert after != calls ==> after[..|calls|] == calls;
  }

  lemma {:induction false} CallsExplainSlot(accepts: string -> bool, commands: seq<Command>, id: string)
    ensures CallsExplain(SlotOf(AfterAll(accepts, commands), id), AddCalls(accepts, commands, id))
    decreases |commands|
  {
    if commands != [] {
      var k := |commands| - 1;
      var before := AddCalls(accepts, commands[..k], id);
      CallsExplainSlot(accepts, commands[..k], id);
      TablesAgree(accepts, commands[..k]);
      CommandKeepsExplained(accepts, AfterAll(accepts, commands[..k]), before, commands[k], id);
    }
  }

  /**
   A record lacks a live entry exactly if the container's last AddFunc call failed; and a live
   entry runs with the spec of the last successful AddFunc call, not with the recorded one.
   */
  lemma {:induction false} DanglingIffLastAddFailed(accepts: string -> bool, commands: seq<Command>, id: string)
    requires id in AfterAll(accepts, commands).activeJobs
    ensures var t := AfterAll(accepts, commands);
      var calls := AddCalls(accepts, commands, id);
      && calls != []
      && (t.activeJobs[id].cronID !in t.entries <==> !calls[|calls| - 1].1)
      && (t.activeJobs[id].cronID in t.entries ==> LastAdded(calls) == Some(t.entries[t.activeJobs[id].cronID].spec))
  {
    CallsExplainSlot(accepts, commands, id);
  }

  // ---- two consequences ----

  function SlotSteps(accepts: string -> bool, slot: Slot, specs: seq<Spec>): Slot {
    if specs == [] then slot
    else SlotStep(accepts, SlotSteps(accepts, slot, specs[..|specs| - 1]), Update(specs[|specs| - 1]))
  }

  /** Label changes that leave the cron expression alone reach the record, never the running job. */
  lemma {:induction false} SameCronKeepsCapturedSpec(accepts: string -> bool, slot: Slot, specs: seq<Spec>)
    requires slot.Live? && specs != []
    requires forall i :: 0 <= i < |specs| ==> specs[i].cron == slot.recorded.cron
    ensures SlotSteps(accepts, slot, specs) == Live(specs[|specs| - 1], slot.captured)
    decreases |specs|
  {
    if |specs| > 1 {
      SameCronKeepsCapturedSpec(accepts, slot, specs[..|specs| - 1]);
    } else {
      assert specs[..0] == [];
    }
  }

  /** A rejected expression, however often the tick repeats it, leaves the record as it was and dangling. */
  lemma {:induction false} RejectedAgainAndAgain(accepts: string -> bool, slot: Slot, typos: seq<Spec>)
    requires slot.Live? && typos != []
    requires forall i :: 0 <= i < |typos| ==>
      typos[i].cron != slot.recorded.cron && !accepts(Schedule(typos[i].cron))
    ensures SlotSteps(accepts, slot, typos) == Dangling(slot.recorded)
    decreases |typos|
  {
    var n := |typos| - 1;
    if n > 0 {
      RejectedAgainAndAgain(accepts, slot, typos[..n]);
    } else {
      assert typos[..0] == [];
    }
  }

  /**
   A typo in the cron label that is then corrected to the old expression loses the job: the
   record looks right, nothing is scheduled, and no number of further ticks with that
   expression brings the entry back.
   */
  lemma {:induction false} RevertedTypoLosesTheJob(accepts: string -> bool, slot: Slot, typos: seq<Spec>,
                                                   specs: seq<Spec>)
    requires slot.Live? && typos != [] && specs != []
    requires forall i :: 0 <= i < |typos| ==>
      typos[i].cron != slot.recorded.cron && !accepts(Schedule(typos[i].cron))
    requires forall i :: 0 <= i < |specs| ==> specs[i].cron == slot.recorded.cron
    ensures SlotSteps(accepts, slot, typos + specs) == Dangling(specs[|specs| - 1])
    decreases |specs|
  {
    var n := |specs| - 1;
    var all := typos + specs;
    assert all[..|all| - 1] == typos + specs[..n];
    if n > 0 {
      RevertedTypoLosesTheJob(accepts, slot, typos, specs[..n]);
    } else {
      assert typos + specs[..0] == typos;
      RejectedAgainAndAgain(accepts, slot, typos);
    }
  }
}
