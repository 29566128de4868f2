/**
 The scheduler's two tables, `activeJobs` and the entries of robfig/cron, and the reconcile tick
 that feeds them (internal/scheduler/scheduler.go:23-147, main.go:410-424).
 */
module Scheduler {
  import opened Common
  import opened GoStrings

  /** A record of `activeJobs`. */
  datatype Job = Job(spec: Spec, cronID: nat)

  /** A live cron entry: the closure of jobFunc has captured the container and the spec. */
  datatype Entry = Entry(containerID: string, spec: Spec, schedule: string)

  /** `nextID` is the last entry ID robfig/cron has handed out. */
  datatype Tables = Tables(activeJobs: map<string, Job>, entries: map<nat, Entry>, nextID: nat)

  const EMPTY := Tables(map[], map[], 0)

  /** The cron expression handed to AddFunc: five fields get a leading seconds field. */
  function Schedule(cron: string): string {
    var trimmed := TrimSpace(cron);
    if !("@" <= trimmed) && FieldCount(trimmed) == 5 then "0 " + trimmed else cron
  }

  predicate CronUnchanged(t: Tables, id: string, spec: Spec) {
    id in t.activeJobs && t.activeJobs[id].spec.cron == spec.cron
  }

  /** The tables once the container's old entry, if any, has been removed. */
  function WithoutEntry(t: Tables, id: string): Tables {
    if id in t.activeJobs then t.(entries := t.entries - {t.activeJobs[id].cronID}) else t
  }

  function WithEntry(t: Tables, id: string, spec: Spec): Tables {
    var cronID := t.nextID + 1;
    Tables(t.activeJobs[id := Job(spec, cronID)], t.entries[cronID := Entry(id, spec, Schedule(spec.cron))], cronID)
  }

  /** `accepts` says which expressions the cron parser takes. The result tells whether AddOrUpdateJob returns nil. */
  function AddOrUpdate(accepts: string -> bool, t: Tables, id: string, spec: Spec): (Tables, bool) {
    if CronUnchanged(t, id, spec) then
      (t.(activeJobs := t.activeJobs[id := t.activeJobs[id].(spec := spec)]), true)
    else if !accepts(Schedule(spec.cron)) then (WithoutEntry(t, id), false)
    else (WithEntry(WithoutEntry(t, id), id, spec), true)
  }

  function Remove(t: Tables, id: string): Tables {
    if id in t.activeJobs
    then t.(activeJobs := t.activeJobs - {id}, entries := t.entries - {t.activeJobs[id].cronID})
    else t
  }

  class Scheduler {
    const accepts: string -> bool
    var activeJobs: map<string, Job>
    var entries: map<nat, Entry>
    var nextID: nat

    function View(): Tables
      reads this
    {
      Tables(activeJobs, entries, nextID)
    }

    constructor (accepts: string -> bool)
      ensures this.accepts == accepts && View() == EMPTY
    {
      this.accepts := accepts;
      activeJobs, entries, nextID := map[], map[], 0;
    }

    method AddOrUpdateJob(id: string, spec: Spec) returns (ok: bool)
      modifies this
      ensures (View(), ok) == AddOrUpdate(accepts, old(View()), id, spec)
    {
      if id in activeJobs {
        var existing := activeJobs[id];
        if existing.spec.cron == spec.cron {
          activeJobs := activeJobs[id := Job(spec, existing.cronID)];
          return true;
        }
        entries := entries - {existing.cronID};
      }
      var cronSpecToUse := spec.cron;
      var trimmed := TrimSpace(spec.cron);
      if !("@" <= trimmed) && FieldCount(trimmed) == 5 {
        cronSpecToUse := "0 " + trimmed;
      }
      if !accepts(cronSpecToUse) {
        return false;
      }
      nextID := nextID + 1;
      entries := entries[nextID := Entry(id, spec, cronSpecToUse)];
      activeJobs := activeJobs[id := Job(spec, nextID)];
      return true;
    }

    method RemoveJob(id: string)
      modifies this
      ensures View() == Remove(old(View()), id)
    {
      if id in activeJobs {
        entries := entries - {activeJobs[id].cronID};
        activeJobs := activeJobs - {id};
      }
    }

    /** The reconcile branch of the main loop; the registry is visited in an arbitrary order. */
    method Reconcile(registry: map<string, Spec>)
      requires Inv(accepts, View())
      modifies this
      ensures Reconciled(accepts, old(View()), View(), registry, registry.Keys)
      ensures AllSettled(accepts, old(View()), registry) ==> View() == old(View())
    {
      var todo := registry.Keys;
      ghost var done: set<string> := {};
      while todo != {}
        invariant todo + done == registry.Keys && todo !! done
        invariant Reconciled(accepts, old(View()), View(), registry, done)
        invariant AllSettled(accepts, old(View()), registry) ==> View() == old(View())
      {
        var id :| id in todo;
        todo := todo - {id};
        var spec := registry[id];
        ReconcileOne(accepts, old(View()), View(), registry, done, id);
        done := done + {id};
        if spec.enabled {
          var ok := AddOrUpdateJob(id, spec);
        } else {
          RemoveJob(id);
        }
      }
    }
  }

  // ---- invariant of the tables ----

  ghost predicate IdsOk(t: Tables) {
    && (forall id :: id in t.activeJobs ==> 1 <= t.activeJobs[id].cronID <= t.nextID)
    && (forall id1, id2 :: id1 in t.activeJobs && id2 in t.activeJobs && id1 != id2 ==>
          t.activeJobs[id1].cronID != t.activeJobs[id2].cronID)
  }

  /** The entry belongs to the container whose record carries its ID, and runs on that record's cron expression. */
  predicate EntryOk(accepts: string -> bool, t: Tables, e: nat, entry: Entry) {
    && entry.containerID in t.activeJobs
    && t.activeJobs[entry.containerID].cronID == e
    && t.activeJobs[entry.containerID].spec.cron == entry.spec.cron
    && entry.schedule == Schedule(entry.spec.cron) && accepts(entry.schedule)
  }

  ghost predicate Inv(accepts: string -> bool, t: Tables) {
    IdsOk(t) && forall e :: e in t.entries ==> EntryOk(accepts, t, e, t.entries[e])
  }

  // ---- one container at a time ----

  /**
   What the tables say about one container: no record; a record with a live entry, whose
   closure runs with `captured`; or a record whose entry ID dangles, so that nothing runs.
   */
  datatype Slot = Absent | Live(recorded: Spec, captured: Spec) | Dangling(recorded: Spec)

  function SlotOf(t: Tables, id: string): Slot {
    if id !in t.activeJobs then Absent
    else
      var job := t.activeJobs[id];
      if job.cronID in t.entries then Live(job.spec, t.entries[job.cronID].spec) else Dangling(job.spec)
  }

  datatype Op = Update(spec: Spec) | Drop

  function OpFor(spec: Spec): Op {
    if spec.enabled then Update(spec) else Drop
  }

  function SlotStep(accepts: string -> bool, slot: Slot, op: Op): Slot {
    if op.Drop? then Absent
    else
      var spec := op.spec;
      match slot
      case Absent => if accepts(Schedule(spec.cron)) then Live(spec, spec) else Absent
      case Live(recorded, captured) =>
        if recorded.cron == spec.cron then Live(spec, captured)
        else if accepts(Schedule(spec.cron)) then Live(spec, spec) else Dangling(recorded)
      case Dangling(recorded) =>
        if recorded.cron == spec.cron then Dangling(spec)
        else if accepts(Schedule(spec.cron)) then Live(spec, spec) else Dangling(recorded)
  }

  function Apply(accepts: string -> bool, t: Tables, id: string, op: Op): Tables {
    if op.Update? then AddOrUpdate(accepts, t, id, op.spec).0 else Remove(t, id)
  }

  ghost predicate Refines(accepts: string -> bool, t: Tables, u: Tables, id: string, op: Op) {
    && Inv(accepts, u)
    && SlotOf(u, id) == SlotStep(accepts, SlotOf(t, id), op)
    && forall c :: c != id ==> SlotOf(u, c) == SlotOf(t, c)
  }

  lemma {:induction false} SameCronRefines(accepts: string -> bool, t: Tables, id: string, spec: Spec)
    requires Inv(accepts, t) && CronUnchanged(t, id, spec)
    ensures Refines(accepts, t, AddOrUpdate(accepts, t, id, spec).0, id, Update(spec))
  {
    var u := AddOrUpdate(accepts, t, id, spec).0;
    assert u.entries == t.entries && u.activeJobs.Keys == t.activeJobs.Keys;
    assert forall c :: c in t.activeJobs ==> u.activeJobs[c].cronID == t.activeJobs[c].cronID;
    forall e | e in u.entries ensures EntryOk(accepts, u, e, u.entries[e]) {
      assert EntryOk(accepts, t, e, t.entries[e]);
    }
  }

  lemma {:induction false} WithoutEntryKeepsInv(accepts: string -> bool, t: Tables, id: string)
    requires Inv(accepts, t)
    ensures Inv(accepts, WithoutEntry(t, id))
  {
    var kept := WithoutEntry(t, id);
    forall e | e in kept.entries ensures EntryOk(accepts, kept, e, kept.entries[e]) {
      assert EntryOk(accepts, t, e, t.entries[e]);
    }
  }

  lemma {:induction false} WithoutEntryRefines(accepts: string -> bool, t: Tables, id: string)
    requires Inv(accepts, t)
    ensures var kept := WithoutEntry(t, id);
      && Inv(accepts, kept)
      && SlotOf(kept, id) == (if id in t.activeJobs then Dangling(t.activeJobs[id].spec) else Absent)
      && forall c :: c != id ==> SlotOf(kept, c) == SlotOf(t, c)
  {
    WithoutEntryKeepsInv(accepts, t, id);
  }

  lemma {:induction false} WithoutRecordKeepsInv(accepts: string -> bool, t: Tables, id: string)
    requires Inv(accepts, t) && !SlotOf(t, id).Live?
    ensures Inv(accepts, t.(activeJobs := t.activeJobs - {id}))
  {
    var u := t.(activeJobs := t.activeJobs - {id});
    forall e | e in u.entries ensures EntryOk(accepts, u, e, u.entries[e]) {
      assert EntryOk(accepts, t, e, t.entries[e]);
    }
  }

  lemma {:induction false} RemoveRefines(accepts: string -> bool, t: Tables, id: string)
    requires Inv(accepts, t)
    ensures Refines(accepts, t, Remove(t, id), id, Drop)
  {
    WithoutEntryRefines(accepts, t, id);
    var kept := WithoutEntry(t, id);
    WithoutRecordKeepsInv(accepts, kept, id);
    assert id !in t.activeJobs ==> t.activeJobs - {id} == t.activeJobs;
    assert Remove(t, id) == kept.(activeJobs := kept.activeJobs - {id});
  }

  lemma {:induction false} RejectedRefines(accepts: string -> bool, t: Tables, id: string, spec: Spec)
    requires Inv(accepts, t) && !CronUnchanged(t, id, spec) && !accepts(Schedule(spec.cron))
    ensures Refines(accepts, t, AddOrUpdate(accepts, t, id, spec).0, id, Update(spec))
  {
    WithoutEntryRefines(accepts, t, id);
  }

  lemma {:induction false} WithEntryKeepsInv(accepts: string -> bool, t: Tables, id: string, spec: Spec)
    requires Inv(accepts, t) && !SlotOf(t, id).Live? && accepts(Schedule(spec.cron))
    ensures Inv(accepts, WithEntry(t, id, spec))
    ensures forall e :: e in t.entries ==> e != t.nextID + 1 && t.entries[e].containerID != id
  {
    var u := WithEntry(t, id, spec);
    forall e | e in t.entries
      ensures e != u.nextID && t.entries[e].containerID != id && EntryOk(accepts, u, e, t.entries[e])
    {
      assert EntryOk(accepts, t, e, t.entries[e]);
    }
  }

  lemma {:induction false} WithEntryRefines(accepts: string -> bool, t: Tables, id: string, spec: Spec)
    requires Inv(accepts, t) && !SlotOf(t, id).Live? && accepts(Schedule(spec.cron))
    ensures var u := WithEntry(t, id, spec);
      && Inv(accepts, u) && SlotOf(u, id) == Live(spec, spec)
      && forall c :: c != id ==> SlotOf(u, c) == SlotOf(t, c)
  {
    WithEntryKeepsInv(accepts, t, id, spec);
    var u := WithEntry(t, id, spec);
    forall c | c != id ensures SlotOf(u, c) == SlotOf(t, c) {
      assert c in u.activeJobs <==> c in t.activeJobs;
    }
  }

  lemma {:induction false} AddedRefines(accepts: string -> bool, t: Tables, id: string, spec: Spec)
    requires Inv(accepts, t) && !CronUnchanged(t, id, spec) && accepts(Schedule(spec.cron))
    ensures Refines(accepts, t, AddOrUpdate(accepts, t, id, spec).0, id, Update(spec))
  {
    WithoutEntryRefines(accepts, t, id);
    WithEntryRefines(accepts, WithoutEntry(t, id), id, spec);
  }

  /** One call changes one container's slot, by a rule that looks at no other. */
  lemma {:induction false} StepRefinesSlots(accepts: string -> bool, t: Tables, id: string, op: Op)
    requires Inv(accepts, t)
    ensures Refines(accepts, t, Apply(accepts, t, id, op), id, op)
  {
    if op.Drop? {
      RemoveRefines(accepts, t, id);
    } else if CronUnchanged(t, id, op.spec) {
      SameCronRefines(accepts, t, id, op.spec);
    } else if !accepts(Schedule(op.spec.cron)) {
      RejectedRefines(accepts, t, id, op.spec);
    } else {
      AddedRefines(accepts, t, id, op.spec);
    }
  }

  /** Another update with this spec would find nothing to change. */
  predicate Settled(accepts: string -> bool, slot: Slot, spec: Spec) {
    match slot
    case Absent => !accepts(Schedule(spec.cron))
    case Live(recorded, _) => recorded == spec
    case Dangling(recorded) => recorded == spec || (recorded.cron != spec.cron && !accepts(Schedule(spec.cron)))
  }

  lemma {:induction false} SettledChangesNothing(accepts: string -> bool, t: Tables, id: string, spec: Spec)
    requires Inv(accepts, t) && Settled(accepts, SlotOf(t, id), spec)
    ensures AddOrUpdate(accepts, t, id, spec).0 == t
  {
    if CronUnchanged(t, id, spec) {
      assert t.activeJobs[id := t.activeJobs[id].(spec := spec)] == t.activeJobs;
    } else {
      assert WithoutEntry(t, id).entries == t.entries;
    }
  }

  // ---- ticks ----

  /** Every container in `done` has had its one call, in some order; nobody else was touched. */
  ghost predicate Reconciled(accepts: string -> bool, t: Tables, u: Tables, registry: map<string, Spec>,
                             done: set<string>) {
    && Inv(accepts, u) && done <= registry.Keys
    && forall id :: SlotOf(u, id) == SlotAfter(accepts, t, registry, done, id)
  }

  function SlotAfter(accepts: string -> bool, t: Tables, registry: map<string, Spec>, done: set<string>,
                     id: string): Slot {
    if id in done && id in registry then SlotStep(accepts, SlotOf(t, id), OpFor(registry[id])) else SlotOf(t, id)
  }

  /** A tick would find every container as the registry wants it, or hopeless. */
  ghost predicate AllSettled(accepts: string -> bool, t: Tables, registry: map<string, Spec>) {
    forall id :: id in registry ==>
      if registry[id].enabled then Settled(accepts, SlotOf(t, id), registry[id]) else SlotOf(t, id) == Absent
  }

  lemma {:induction false} ReconcileOne(accepts: string -> bool, t: Tables, u: Tables, registry: map<string, Spec>,
                                        done: set<string>, id: string)
    requires Reconciled(accepts, t, u, registry, done) && id in registry && id !in done
    ensures var v := Apply(accepts, u, id, OpFor(registry[id]));
      && Reconciled(accepts, t, v, registry, done + {id})
      && (AllSettled(accepts, t, registry) && u == t ==> v == t)
  {
    var op := OpFor(registry[id]);
    StepRefinesSlots(accepts, u, id, op);
    OneMoreSlot(accepts, t, u, Apply(accepts, u, id, op), registry, done, id);
    if AllSettled(accepts, t, registry) && u == t && registry[id].enabled {
      SettledChangesNothing(accepts, t, id, registry[id]);
    }
  }

  lemma {:induction false} OneMoreSlot(accepts: string -> bool, t: Tables, u: Tables, v: Tables,
                                       registry: map<string, Spec>, done: set<string>, id: string)
    requires Reconciled(accepts, t, u, registry, done) && id in registry && id !in done
    requires Refines(accepts, u, v, id, OpFor(registry[id]))
    ensures Reconciled(accepts, t, v, registry, done + {id})
  {
    forall c ensures SlotOf(v, c) == SlotAfter(accepts, t, registry, done + {id}, c) {
      assert SlotOf(u, c) == SlotAfter(accepts, t, registry, done, c);
    }
  }

  /** The same record and, live or not, the same entry, up to its ID. */
  predicate SameJob(u: Tables, v: Tables, id: string)
    requires id in u.activeJobs
  {
    && id in v.activeJobs
    && var e, f := u.activeJobs[id].cronID, v.activeJobs[id].cronID;
    && u.activeJobs[id].spec == v.activeJobs[id].spec
    && (e in u.entries <==> f in v.entries)
    && (e in u.entries ==> u.entries[e] == v.entries[f])
  }

  /** Whatever orders two ticks went in, they leave the same containers, records and captured specs. */
  lemma {:induction false} TickOrderDoesNotMatter(accepts: string -> bool, t: Tables, u: Tables, v: Tables,
                                                  registry: map<string, Spec>)
    requires Reconciled(accepts, t, u, registry, registry.Keys) && Reconciled(accepts, t, v, registry, registry.Keys)
    ensures u.activeJobs.Keys == v.activeJobs.Keys
    ensures forall id :: id in u.activeJobs ==> SameJob(u, v, id)
  {
    forall id
      ensures id in u.activeJobs <==> id in v.activeJobs
      ensures id in u.activeJobs ==> SameJob(u, v, id)
    {
      assert SlotOf(u, id) == SlotAfter(accepts, t, registry, registry.Keys, id) == SlotOf(v, id);
      if id in u.activeJobs && u.activeJobs[id].cronID in u.entries {
        EntryOfLiveSlot(accepts, u, id);
        EntryOfLiveSlot(accepts, v, id);
      }
    }
  }

  lemma {:induction false} EntryOfLiveSlot(accepts: string -> bool, t: Tables, id: string)
    requires Inv(accepts, t) && SlotOf(t, id).Live?
    ensures t.entries[t.activeJobs[id].cronID] ==
      Entry(id, SlotOf(t, id).captured, Schedule(SlotOf(t, id).captured.cron))
  {
    var e := t.activeJobs[id].cronID;
    assert t.activeJobs[t.entries[e].containerID].cronID == e;
  }

  /** After a tick, everything is settled: rejected expressions too. */
  lemma {:induction false} TickSettles(accepts: string -> bool, t: Tables, u: Tables, registry: map<string, Spec>)
    requires Reconciled(accepts, t, u, registry, registry.Keys)
    ensures AllSettled(accepts, u, registry)
  {
    forall id | id in registry
      ensures if registry[id].enabled then Settled(accepts, SlotOf(u, id), registry[id]) else SlotOf(u, id) == Absent
    {
      assert SlotOf(u, id) == SlotAfter(accepts, t, registry, registry.Keys, id);
    }
  }

  /** So a second tick with the same registry changes neither table and hands out no entry ID. */
  method TickTwice(s: Scheduler, registry: map<string, Spec>) returns (first: Tables)
    requires Inv(s.accepts, s.View())
    modifies s
    ensures Reconciled(s.accepts, old(s.View()), first, registry, registry.Keys)
    ensures s.View() == first
  {
    s.Reconcile(registry);
    first := Tables(s.activeJobs, s.entries, s.nextID);
    TickSettles(s.accepts, old(s.View()), first, registry);
    s.Reconcile(registry);
  }
}
