/**
 Docker messages and reconcile ticks in any interleaving, between two reloads of the
 configuration (main.go:408-424 with internal/discovery and internal/scheduler).
 */
module Agent {
  import opened Common
  import Discovery
  import Retention
  import opened Scheduler
  import GlobalGc

  /** The factories registered by the init functions of internal/dumper. */
  datatype Tool = PgDump | MariaDBDump | MongoDump | RedisCli

  function DumperFor(dbType: string): Option<Tool> {
    if dbType == "postgres" then Some(PgDump)
    else if dbType == "mysql" then Some(MariaDBDump)
    else if dbType == "mongodb" then Some(MongoDump)
    else if dbType == "redis" then Some(RedisCli)
    else None
  }

  /** Each tool dumps the databases of its own kind, and no other type has one. */
  lemma {:induction false} ToolsIff(dbType: string)
    ensures DumperFor(dbType) == Some(PgDump) <==> dbType == "postgres"
    ensures DumperFor(dbType) == Some(MariaDBDump) <==> dbType == "mysql"
    ensures DumperFor(dbType) == Some(MongoDump) <==> dbType == "mongodb"
    ensures DumperFor(dbType) == Some(RedisCli) <==> dbType == "redis"
  {
  }

  datatype State = State(registry: Discovery.Registry, tables: Tables)

  /** The specs of the registry and those the cron entries have captured are valid. */
  ghost predicate Ok(accepts: string -> bool, s: State) {
    && Inv(accepts, s.tables)
    && (forall id :: id in s.registry ==> Discovery.Valid(id, s.registry[id]))
    && CapturedValid(s.tables)
  }

  ghost predicate CapturedValid(t: Tables) {
    forall e :: e in t.entries ==> Discovery.Valid(t.entries[e].containerID, t.entries[e].spec)
  }

  /** GetDumper and GetWriter find a factory for this spec. */
  predicate LookupsSucceed(spec: Spec) {
    DumperFor(spec.dbType).Some? && GlobalGc.StoreKind(spec.dest).Some?
  }

  /** One Docker message, or one tick that visits the registry in some order. */
  ghost predicate Step(parse: Retention.DurationParser, accepts: string -> bool, s: State, t: State) {
    || (t.tables == s.tables && Heard(parse, s.registry, t.registry))
    || (t.registry == s.registry && Reconciled(accepts, s.tables, t.tables, s.registry, s.registry.Keys))
  }

  ghost predicate Heard(parse: Retention.DurationParser, r: Discovery.Registry, q: Discovery.Registry) {
    exists m :: q == Discovery.After(parse, r, m)
  }

  /** The main loop's tick and the watcher's handling of a message are such steps. */
  method Tick(watcher: Discovery.Watcher, scheduler: Scheduler)
    requires Inv(scheduler.accepts, scheduler.View())
    modifies scheduler
    ensures Step(watcher.parse, scheduler.accepts, State(watcher.registry, old(scheduler.View())),
                 State(watcher.registry, scheduler.View()))
  {
    var registry := watcher.GetRegistry();
    scheduler.Reconcile(registry);
  }

  method Hear(watcher: Discovery.Watcher, scheduler: Scheduler, m: Discovery.Message)
    modifies watcher
    ensures Step(watcher.parse, scheduler.accepts, State(old(watcher.registry), scheduler.View()),
                 State(watcher.registry, scheduler.View()))
  {
    watcher.HandleEvent(m);
  }

  ghost predicate Run(parse: Retention.DurationParser, accepts: string -> bool, states: seq<State>) {
    && states != []
    && forall i :: 0 <= i < |states| - 1 ==> Step(parse, accepts, states[i], states[i + 1])
  }

  lemma {:induction false} MessageKeepsValid(parse: Retention.DurationParser, r: Discovery.Registry,
                                            m: Discovery.Message)
    requires forall id :: id in r ==> Discovery.Valid(id, r[id])
    ensures forall id :: id in Discovery.After(parse, r, m) ==> Discovery.Valid(id, Discovery.After(parse, r, m)[id])
  {
    if m.inspected.Some? {
      Discovery.LowerTwice(Discovery.GetLabel(m.inspected.value.labels, "backup.dest", "local"));
    }
  }

  lemma {:induction false} TickOnlyAdds(accepts: string -> bool, t: Tables, u: Tables, r: Discovery.Registry)
    requires Reconciled(accepts, t, u, r, r.Keys) && forall id :: id in r ==> Discovery.Valid(id, r[id])
    ensures t.activeJobs.Keys <= u.activeJobs.Keys
    ensures forall id :: id !in r ==> SlotOf(u, id) == SlotOf(t, id)
  {
    forall id
      ensures id !in r ==> SlotOf(u, id) == SlotOf(t, id)
      ensures id in t.activeJobs ==> id in u.activeJobs
    {
      assert SlotOf(u, id) == SlotAfter(accepts, t, r, r.Keys, id);
      assert id in r ==> Discovery.Valid(id, r[id]);
    }
  }

  /** An entry's spec is what its container's slot says has been captured. */
  lemma {:induction false} EntryIsCaptured(accepts: string -> bool, t: Tables, e: nat)
    requires Inv(accepts, t) && e in t.entries
    ensures var entry := t.entries[e];
      SlotOf(t, entry.containerID).Live? && SlotOf(t, entry.containerID).captured == entry.spec
  {
    assert EntryOk(accepts, t, e, t.entries[e]);
  }

  /** A tick's captured specs are the old ones and those of the registry. */
  lemma {:induction false} SlotCaptures(accepts: string -> bool, slot: Slot, spec: Spec)
    ensures var after := SlotStep(accepts, slot, OpFor(spec));
      after.Live? ==> after.captured == spec || (slot.Live? && after.captured == slot.captured)
  {
  }

  lemma {:induction false} LiveSlotIsValid(accepts: string -> bool, t: Tables, id: string)
    requires Inv(accepts, t) && CapturedValid(t) && SlotOf(t, id).Live?
    ensures Discovery.Valid(id, SlotOf(t, id).captured)
  {
    EntryOfLiveSlot(accepts, t, id);
  }

  lemma {:induction false} TickCapturesValid(accepts: string -> bool, t: Tables, u: Tables, r: Discovery.Registry)
    requires Reconciled(accepts, t, u, r, r.Keys) && Inv(accepts, t) && CapturedValid(t)
    requires forall id :: id in r ==> Discovery.Valid(id, r[id])
    ensures CapturedValid(u)
  {
    forall e | e in u.entries ensures Discovery.Valid(u.entries[e].containerID, u.entries[e].spec) {
      var id := u.entries[e].containerID;
      EntryIsCaptured(accepts, u, e);
      assert SlotOf(u, id) == SlotAfter(accepts, t, r, r.Keys, id);
      if SlotOf(t, id).Live? {
        LiveSlotIsValid(accepts, t, id);
      }
      if id in r {
        SlotCaptures(accepts, SlotOf(t, id), r[id]);
      }
    }
  }

  lemma {:induction false} StepKeepsOk(parse: Retention.DurationParser, accepts: string -> bool, s: State, t: State)
    requires Ok(accepts, s) && Step(parse, accepts, s, t)
    ensures Ok(accepts, t)
    ensures s.tables.activeJobs.Keys <= t.tables.activeJobs.Keys
    ensures forall id :: id !in s.registry ==> SlotOf(t.tables, id) == SlotOf(s.tables, id)
  {
    if t.tables == s.tables && Heard(parse, s.registry, t.registry) {
      var m :| t.registry == Discovery.After(parse, s.registry, m);
      MessageKeepsValid(parse, s.registry, m);
    } else {
      TickOnlyAdds(accepts, s.tables, t.tables, s.registry);
      TickCapturesValid(accepts, s.tables, t.tables, s.registry);
    }
  }

  lemma {:induction false} ValidSpecsAreFound(id: string, spec: Spec)
    requires Discovery.Valid(id, spec)
    ensures LookupsSucceed(spec)
  {
  }

  /**
   In every state of every run: the registry holds only valid specs, so a tick never reaches
   RemoveJob and garbage collection finds a writer for each; every job, whatever has become of its
   container, runs on a captured spec for which both factory lookups succeed; and the scheduler's
   containers only ever become more.
   */
  lemma {:induction false} RunInvariants(parse: Retention.DurationParser, accepts: string -> bool, states: seq<State>)
    requires Run(parse, accepts, states) && Ok(accepts, states[0])
    ensures forall i :: 0 <= i < |states| ==>
      && Ok(accepts, states[i])
      && states[0].tables.activeJobs.Keys <= states[i].tables.activeJobs.Keys
      && (forall id :: id in states[i].registry ==>
            OpFor(states[i].registry[id]).Update? && LookupsSucceed(states[i].registry[id]))
      && (forall e :: e in states[i].tables.entries ==> LookupsSucceed(states[i].tables.entries[e].spec))
    decreases |states|
  {
    forall id, spec | Discovery.Valid(id, spec) ensures LookupsSucceed(spec) {
      ValidSpecsAreFound(id, spec);
    }
    if |states| > 1 {
      var k := |states| - 1;
      var before := states[..k];
      assert Run(parse, accepts, before);
      RunInvariants(parse, accepts, before);
      assert before[k - 1] == states[k - 1];
      assert Step(parse, accepts, states[k - 1], states[k]);
      StepKeepsOk(parse, accepts, states[k - 1], states[k]);
      assert forall i :: 0 <= i < k ==> before[i] == states[i];
    }
  }

  /**
   A container that leaves the registry (destroyed, stopped, or with its labels removed) and does
   not come back keeps its cron entry, and the entry keeps firing with the captured spec.
   */
  lemma {:induction false} LeavingTheRegistryKeepsTheJob(parse: Retention.DurationParser, accepts: string -> bool,
                                                        states: seq<State>, id: string)
    requires Run(parse, accepts, states) && Ok(accepts, states[0])
    requires forall i :: 0 <= i < |states| ==> id !in states[i].registry
    ensures SlotOf(states[|states| - 1].tables, id) == SlotOf(states[0].tables, id)
    decreases |states|
  {
    if |states| > 1 {
      var k := |states| - 1;
      assert Run(parse, accepts, states[..k]);
      LeavingTheRegistryKeepsTheJob(parse, accepts, states[..k], id);
      RunInvariants(parse, accepts, states[..k]);
      assert states[..k][k - 1] == states[k - 1];
      StepKeepsOk(parse, accepts, states[k - 1], states[k]);
    }
  }

  /** So right after `docker rm` the registry has forgotten the container and the scheduler has not. */
  lemma {:induction false} DestroyLeavesTheJob(parse: Retention.DurationParser, accepts: string -> bool,
                                              s: State, id: string) returns (t: State)
    requires SlotOf(s.tables, id).Live?
    ensures Step(parse, accepts, s, t) && id !in t.registry && SlotOf(t.tables, id) == SlotOf(s.tables, id)
  {
    var m := Discovery.Message("container", "destroy", id, None);
    assert Discovery.Meaning(parse, m) == (id, Discovery.Erase);
    t := State(Discovery.After(parse, s.registry, m), s.tables);
    assert Heard(parse, s.registry, t.registry);
  }

  // ---- reloading the configuration ----

  /** SIGHUP with a valid configuration: a new scheduler with empty tables, the registry as it was (main.go:426-458). */
  function Reload(s: State): State {
    s.(tables := EMPTY)
  }

  /** The slot a container should have, going by its labels. */
  function Wanted(accepts: string -> bool, registry: Discovery.Registry, id: string): Slot {
    if id in registry && accepts(Schedule(registry[id].cron)) then Live(registry[id], registry[id]) else Absent
  }

  /**
   Whatever the tables were before, a reload and the next tick leave exactly the registry's
   containers whose cron expression is accepted, each with a live entry that runs its present
   spec: dangling records, stale closures and the jobs of vanished containers are gone. No tick
   alone does this (LeavingTheRegistryKeepsTheJob, SchedulerHistory.RevertedTypoLosesTheJob).
   */
  lemma {:induction false} ReloadHeals(accepts: string -> bool, s: State, t: State)
    requires Ok(accepts, s)
    requires t.registry == s.registry && Reconciled(accepts, Reload(s).tables, t.tables, s.registry, s.registry.Keys)
    ensures Ok(accepts, t)
    ensures forall id :: SlotOf(t.tables, id) == Wanted(accepts, s.registry, id)
  {
    forall id ensures SlotOf(t.tables, id) == Wanted(accepts, s.registry, id) {
      assert SlotOf(t.tables, id) == SlotAfter(accepts, EMPTY, s.registry, s.registry.Keys, id);
      assert id in s.registry ==> Discovery.Valid(id, s.registry[id]);
    }
    TickCapturesValid(accepts, EMPTY, t.tables, s.registry);
  }
}
