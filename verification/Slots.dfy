/**
 All job runs of one scheduler and the semaphore they share: the bodies of the closures
 that jobFunc returns (internal/scheduler/scheduler.go:149-402), interleaved in any way.
 */
module Slots {
  import Pipeline
  import PipelineSafety
  import PipelineProgress

  datatype Phase =
    | Skipped                 // no slot was free
    | GettingDumper
    | TestingConnection
    | GettingWriter
    | Piping(cfg: Pipeline.Config, run: Pipeline.State)
    | Notifying               // about to call Enqueue, on whichever path
    | Returning               // the deferred <-s.concurrencyLimit is next
    | Ended

  /** One firing of a cron entry, and how often it has called Enqueue and given back a slot. */
  datatype Run = Run(phase: Phase, enqueues: nat, releases: nat)

  datatype System = System(limit: nat, hasSender: bool, occupancy: int, runs: map<nat, Run>)

  datatype Event =
    | Fire(id: nat)
    | Fail(id: nat)                                // GetDumper, TestConnection or GetWriter errs
    | Pass(id: nat)                                // GetDumper or TestConnection succeeds
    | Open(id: nat, cfg: Pipeline.Config)          // GetWriter succeeds, both goroutines start
    | Pipe(id: nat, action: Pipeline.Action)       // a step before wg.Wait() returns
    | Conclude(id: nat)                            // wg.Wait() returns; cleanup or metadata
    | Notify(id: nat)
    | Release(id: nat)

  ghost predicate Enabled(y: System, e: Event) {
    if e.Fire? then e.id !in y.runs else
    && e.id in y.runs
    && var p := y.runs[e.id].phase;
    match e
    case Fail(_) => p.GettingDumper? || p.TestingConnection? || p.GettingWriter?
    case Pass(_) => p.GettingDumper? || p.TestingConnection?
    case Open(_, _) => p.GettingWriter?
    case Pipe(_, a) => p.Piping? && Pipeline.Enabled(p.cfg, p.run, a)
    case Conclude(_) => p.Piping? && Pipeline.Joined(p.run)
    case Notify(_) => p.Notifying?
    case Release(_) => p.Returning?
  }

  ghost function Do(y: System, e: Event): System
    requires Enabled(y, e)
  {
    if e.Fire? then
      if y.occupancy < y.limit
      then y.(occupancy := y.occupancy + 1, runs := y.runs[e.id := Run(GettingDumper, 0, 0)])
      else y.(runs := y.runs[e.id := Run(Skipped, 0, 0)])
    else
      var r := y.runs[e.id];
      match e
      case Fail(id) => y.(runs := y.runs[id := r.(phase := Notifying)])
      case Pass(id) =>
        y.(runs := y.runs[id := r.(phase := if r.phase.GettingDumper? then TestingConnection else GettingWriter)])
      case Open(id, cfg) => y.(runs := y.runs[id := r.(phase := Piping(cfg, Pipeline.Init(cfg)))])
      case Pipe(id, a) =>
        y.(runs := y.runs[id := r.(phase := Piping(r.phase.cfg, Pipeline.Do(r.phase.cfg, r.phase.run, a)))])
      case Conclude(id) => y.(runs := y.runs[id := r.(phase := Notifying)])
      case Notify(id) =>
        y.(runs := y.runs[id := r.(phase := Returning, enqueues := r.enqueues + if y.hasSender then 1 else 0)])
      case Release(id) =>
        y.(occupancy := y.occupancy - 1, runs := y.runs[id := r.(phase := Ended, releases := r.releases + 1)])
  }

  function Init(limit: nat, hasSender: bool): System {
    System(limit, hasSender, 0, map[])
  }

  ghost predicate Happens(y: System, events: seq<Event>, z: System)
    decreases |events|
  {
    if events == [] then y == z else Enabled(y, events[0]) && Happens(Do(y, events[0]), events[1..], z)
  }

  predicate InBody(p: Phase) {
    !p.Skipped? && !p.Ended?
  }

  /** The runs whose body is executing. */
  ghost function Bodies(y: System): set<nat> {
    set id | id in y.runs && InBody(y.runs[id].phase)
  }

  ghost predicate RunOk(y: System, r: Run) {
    && r.enqueues == (if y.hasSender && (r.phase.Returning? || r.phase.Ended?) then 1 else 0)
    && r.releases == (if r.phase.Ended? then 1 else 0)
    && (r.phase.Piping? ==> PipelineSafety.Inv(r.phase.cfg, r.phase.run))
  }

  ghost predicate Inv(y: System) {
    && y.occupancy == |Bodies(y)| <= y.limit
    && forall id :: id in y.runs ==> RunOk(y, y.runs[id])
  }

  lemma {:induction false} BodiesWith(y: System, id: nat, r: Run)
    ensures var z := y.(runs := y.runs[id := r]);
      Bodies(z) == if InBody(r.phase) then Bodies(y) + {id} else Bodies(y) - {id}
  {
    var z := y.(runs := y.runs[id := r]);
    assert z.runs[id] == r;
    assert forall i :: i != id ==> (i in Bodies(z) <==> i in Bodies(y));
  }

  lemma {:induction false} StepTouchesOneRun(y: System, e: Event)
    requires Enabled(y, e)
    ensures var z := Do(y, e);
      && e.id in z.runs && z.runs == y.runs[e.id := z.runs[e.id]] && z.limit == y.limit
      && (e.id in Bodies(y) <==> !e.Fire?)
      && (InBody(z.runs[e.id].phase) <==> !e.Release? && (e.Fire? ==> y.occupancy < y.limit))
      && z.occupancy == y.occupancy + (if e.Release? then -1 else if e.Fire? && y.occupancy < y.limit then 1 else 0)
  {
  }

  lemma {:induction false} StepCountsBodies(y: System, e: Event)
    requires y.occupancy == |Bodies(y)| <= y.limit && Enabled(y, e)
    ensures var z := Do(y, e); z.occupancy == |Bodies(z)| <= z.limit
  {
    var z := Do(y, e);
    StepTouchesOneRun(y, e);
    BodiesWith(y, e.id, z.runs[e.id]);
    assert Bodies(z) == Bodies(y.(runs := z.runs));
    var b := Bodies(y);
    assert e.id !in b ==> |b + {e.id}| == |b| + 1 && b - {e.id} == b;
    assert e.id in b ==> b + {e.id} == b && |b - {e.id}| == |b| - 1;
  }

  lemma {:induction false} StepKeepsRunOk(y: System, e: Event)
    requires Enabled(y, e) && (e.id in y.runs ==> RunOk(y, y.runs[e.id]))
    ensures e.id in Do(y, e).runs && RunOk(Do(y, e), Do(y, e).runs[e.id])
  {
    if e.Pipe? {
      PipelineSafety.StepKeepsInv(y.runs[e.id].phase.cfg, y.runs[e.id].phase.run, e.action);
    } else if e.Open? {
      PipelineSafety.RunKeepsInv(e.cfg, Pipeline.Init(e.cfg), [], Pipeline.Init(e.cfg));
    }
  }

  lemma {:induction false} StepKeepsInv(y: System, e: Event)
    requires Inv(y) && Enabled(y, e)
    ensures Inv(Do(y, e))
  {
    var z := Do(y, e);
    StepCountsBodies(y, e);
    StepKeepsRunOk(y, e);
    forall id | id in z.runs ensures RunOk(z, z.runs[id]) {
      if id != e.id {
        assert z.runs[id] == y.runs[id];
      }
    }
  }

  lemma {:induction false} HappeningKeepsInv(y: System, events: seq<Event>, z: System)
    requires Inv(y) && Happens(y, events, z)
    ensures Inv(z) && z.limit == y.limit && z.hasSender == y.hasSender
    decreases |events|
  {
    if events != [] {
      StepKeepsInv(y, events[0]);
      HappeningKeepsInv(Do(y, events[0]), events[1..], z);
    }
  }

  /**
   In every interleaving: the semaphore's occupancy is the number of running bodies and never
   exceeds the limit; a run that has ended has given back one slot and, with a sender, called
   Enqueue once; a skipped firing has done neither; nothing is given back before the end.
   */
  lemma {:induction false} SlotsBalance(limit: nat, hasSender: bool, events: seq<Event>, y: System)
    requires Happens(Init(limit, hasSender), events, y)
    ensures y.occupancy == |Bodies(y)| <= limit
    ensures forall id :: id in y.runs && y.runs[id].phase.Ended? ==>
      y.runs[id].releases == 1 && y.runs[id].enqueues == if hasSender then 1 else 0
    ensures forall id :: id in y.runs && y.runs[id].phase.Skipped? ==>
      y.runs[id].releases == 0 && y.runs[id].enqueues == 0
    ensures forall id :: id in y.runs && InBody(y.runs[id].phase) ==> y.runs[id].releases == 0
  {
    assert Bodies(Init(limit, hasSender)) == {};
    HappeningKeepsInv(Init(limit, hasSender), events, y);
  }

  // ---- every way out of a body ----

  /** `id` has left the body through Enqueue, if there is a sender, and has given its slot back. */
  ghost predicate HasLeft(y: System, id: nat, z: System)
    requires id in y.runs
  {
    && z.occupancy == y.occupancy - 1
    && z.runs == y.runs[id := Run(Ended, y.runs[id].enqueues + if y.hasSender then 1 else 0, y.runs[id].releases + 1)]
  }

  lemma {:induction false} NotifyThenRelease(y: System, id: nat) returns (z: System)
    requires id in y.runs && y.runs[id].phase.Notifying?
    ensures Happens(y, [Notify(id), Release(id)], z) && HasLeft(y, id, z)
  {
    var x := Do(y, Notify(id));
    z := Do(x, Release(id));
    assert [Notify(id), Release(id)][1..] == [Release(id)] && [Release(id)][1..] == [];
    assert Happens(z, [], z) && Happens(x, [Release(id)], z);
  }

  /** A body whose dumper, connection test or writer fails, and one whose pipeline has joined, can always do so. */
  lemma {:induction false} EveryExitReleasesOnce(y: System, id: nat) returns (z: System)
    requires id in y.runs
    requires var p := y.runs[id].phase;
      p.GettingDumper? || p.TestingConnection? || p.GettingWriter? || (p.Piping? && Pipeline.Joined(p.run))
    ensures var first := if y.runs[id].phase.Piping? then Conclude(id) else Fail(id);
      Happens(y, [first, Notify(id), Release(id)], z) && HasLeft(y, id, z)
  {
    var first := if y.runs[id].phase.Piping? then Conclude(id) else Fail(id);
    var x := Do(y, first);
    z := NotifyThenRelease(x, id);
    assert [first, Notify(id), Release(id)][1..] == [Notify(id), Release(id)];
    assert y.runs[id := x.runs[id]] == x.runs;
    assert x.runs[id := z.runs[id]] == y.runs[id := z.runs[id]];
  }

  // ---- hung runs keep their slots ----

  /** The run's writer goroutine gave up early; its dumper never gets rid of its bytes. */
  ghost predicate Hung(y: System, id: nat) {
    && id in y.runs && y.runs[id].phase.Piping?
    && Pipeline.CodecOk(y.runs[id].phase.cfg)
    && PipelineProgress.Doomed(y.runs[id].phase.run)
  }

  lemma {:induction false} HungStep(y: System, e: Event, id: nat)
    requires Inv(y) && Hung(y, id) && Enabled(y, e)
    ensures Hung(Do(y, e), id)
  {
    var p := y.runs[id].phase;
    assert RunOk(y, y.runs[id]);
    if !e.Fire? && e.id == id {
      PipelineProgress.DoomedForever(p.cfg, p.run, [], p.run);
      if e.Pipe? {
        PipelineProgress.DoomedStep(p.cfg, p.run, e.action);
      }
    }
  }

  /**
   Once as many runs hang as there are slots, every later firing of every job is skipped,
   until the scheduler is replaced.
   */
  lemma {:induction false} HungRunsStarveTheScheduler(y: System, events: seq<Event>, z: System, hung: set<nat>)
    requires Inv(y) && Happens(y, events, z)
    requires forall id :: id in hung ==> Hung(y, id)
    requires |hung| == y.limit
    ensures forall id :: id in hung ==> Hung(z, id)
    ensures forall id :: id in z.runs && id !in y.runs ==> z.runs[id].phase.Skipped?
    decreases |events|
  {
    if events != [] {
      var e := events[0];
      var x := Do(y, e);
      StepKeepsInv(y, e);
      forall id | id in hung ensures Hung(x, id) {
        HungStep(y, e, id);
      }
      HungFillsTheSemaphore(y, hung);
      HungRunsStarveTheScheduler(x, events[1..], z, hung);
      if e.Fire? {
        SkippedStays(x, events[1..], z, e.id);
      }
    }
  }

  lemma {:induction false} HungFillsTheSemaphore(y: System, hung: set<nat>)
    requires Inv(y) && (forall id :: id in hung ==> Hung(y, id)) && |hung| == y.limit
    ensures y.occupancy == y.limit
  {
    assert hung <= Bodies(y);
    SubsetSize(hung, Bodies(y));
  }

  lemma {:induction false} SubsetSize<T>(a: set<T>, b: set<T>)
    requires a <= b
    ensures |a| <= |b|
  {
    assert b == a + (b - a);
  }

  lemma {:induction false} SkippedStays(y: System, events: seq<Event>, z: System, id: nat)
    requires Happens(y, events, z) && id in y.runs && y.runs[id].phase.Skipped?
    ensures id in z.runs && z.runs[id].phase.Skipped?
    decreases |events|
  {
    if events != [] {
      SkippedStays(Do(y, events[0]), events[1..], z, id);
    }
  }

  // ---- that it happens ----

  lemma {:induction false} HappensThen(y: System, xs: seq<Event>, x: System, zs: seq<Event>, z: System)
    requires Happens(y, xs, x) && Happens(x, zs, z)
    ensures Happens(y, xs + zs, z)
    decreases |xs|
  {
    if xs == [] {
      assert xs + zs == zs;
    } else {
      assert (xs + zs)[1..] == xs[1..] + zs;
      HappensThen(Do(y, xs[0]), xs[1..], x, zs, z);
    }
  }

  lemma {:induction false} HappensFirst(y: System, e: Event, rest: seq<Event>, z: System)
    requires Enabled(y, e) && Happens(Do(y, e), rest, z)
    ensures Happens(y, [e] + rest, z)
  {
    assert ([e] + rest)[1..] == rest;
  }

  /** `y` with one more body, at this point of its pipeline. */
  function WithPiping(y: System, id: nat, cfg: Pipeline.Config, run: Pipeline.State): System {
    y.(occupancy := y.occupancy + 1, runs := y.runs[id := Run(Piping(cfg, run), 0, 0)])
  }

  lemma {:induction false} GetsToPipe(y: System, id: nat, cfg: Pipeline.Config)
    requires y.occupancy < y.limit && id !in y.runs
    ensures Happens(y, [Fire(id), Pass(id), Pass(id), Open(id, cfg)], WithPiping(y, id, cfg, Pipeline.Init(cfg)))
  {
    var y1 := Do(y, Fire(id));
    var y2 := Do(y1, Pass(id));
    var y3 := Do(y2, Pass(id));
    var z := Do(y3, Open(id, cfg));
    assert z.runs == WithPiping(y, id, cfg, Pipeline.Init(cfg)).runs;
    HappensFirst(y3, Open(id, cfg), [], z);
    HappensFirst(y2, Pass(id), [Open(id, cfg)], z);
    HappensFirst(y1, Pass(id), [Pass(id), Open(id, cfg)], z);
    HappensFirst(y, Fire(id), [Pass(id), Pass(id), Open(id, cfg)], z);
  }

  lemma {:induction false} PipeStep(y: System, id: nat, cfg: Pipeline.Config, run: Pipeline.State, a: Pipeline.Action)
    requires Pipeline.Enabled(cfg, run, a)
    ensures var x := WithPiping(y, id, cfg, run);
      Enabled(x, Pipe(id, a)) && Do(x, Pipe(id, a)) == WithPiping(y, id, cfg, Pipeline.Do(cfg, run, a))
  {
    var x := WithPiping(y, id, cfg, run);
    assert Do(x, Pipe(id, a)).runs == WithPiping(y, id, cfg, Pipeline.Do(cfg, run, a)).runs;
  }

  /** Any schedule of one run's pipeline is a schedule of the system. */
  lemma {:induction false} PipeRuns(y: System, id: nat, cfg: Pipeline.Config, s: Pipeline.State,
                                   acts: seq<Pipeline.Action>, t: Pipeline.State) returns (events: seq<Event>)
    requires Pipeline.Runs(cfg, s, acts, t)
    ensures Happens(WithPiping(y, id, cfg, s), events, WithPiping(y, id, cfg, t))
    decreases |acts|
  {
    events := [];
    if acts != [] {
      PipeStep(y, id, cfg, s, acts[0]);
      var rest := PipeRuns(y, id, cfg, Pipeline.Do(cfg, s, acts[0]), acts[1..], t);
      events := [Pipe(id, acts[0])] + rest;
      HappensFirst(WithPiping(y, id, cfg, s), Pipe(id, acts[0]), rest, WithPiping(y, id, cfg, t));
    }
  }

  /** One more run starts and hangs; the others have not moved. */
  lemma {:induction false} HangOneMore(y: System, id: nat, cfg: Pipeline.Config) returns (events: seq<Event>)
    requires y.occupancy < y.limit && id !in y.runs
    ensures Happens(y, events, WithPiping(y, id, cfg, PipelineProgress.OpenFailed(cfg)))
  {
    PipelineProgress.EveryRunCanHang(cfg);
    var end := PipelineProgress.OpenFailed(cfg);
    var acts :| Pipeline.Runs(cfg, Pipeline.Init(cfg), acts, end);
    var pipe := PipeRuns(y, id, cfg, Pipeline.Init(cfg), acts, end);
    GetsToPipe(y, id, cfg);
    var start := [Fire(id), Pass(id), Pass(id), Open(id, cfg)];
    events := start + pipe;
    HappensThen(y, start, WithPiping(y, id, cfg, Pipeline.Init(cfg)), pipe, WithPiping(y, id, cfg, end));
  }

  function Below(k: nat): (ids: set<nat>)
    ensures |ids| == k && forall id :: id in ids <==> 0 <= id < k
  {
    if k == 0 then {} else Below(k - 1) + {k - 1}
  }

  lemma {:induction false} HangMany(limit: nat, hasSender: bool, cfgs: nat -> Pipeline.Config, k: nat)
    returns (events: seq<Event>, y: System)
    requires k <= limit && forall i: nat :: Pipeline.CodecOk(cfgs(i))
    ensures Happens(Init(limit, hasSender), events, y) && y.limit == limit && y.occupancy == k
    ensures forall id: nat :: id in y.runs <==> id < k
    ensures forall id: nat :: id < k ==> Hung(y, id)
  {
    if k == 0 {
      events, y := [], Init(limit, hasSender);
    } else {
      var before, x := HangMany(limit, hasSender, cfgs, k - 1);
      var one := HangOneMore(x, k - 1, cfgs(k - 1));
      PipelineProgress.EveryRunCanHang(cfgs(k - 1));
      y := WithPiping(x, k - 1, cfgs(k - 1), PipelineProgress.OpenFailed(cfgs(k - 1)));
      events := before + one;
      HappensThen(Init(limit, hasSender), before, x, one, y);
      forall id: nat | id < k ensures Hung(y, id) {
        if id < k - 1 {
          assert Hung(x, id) && y.runs[id] == x.runs[id];
        }
      }
    }
  }

  /**
   Whatever the limit and whatever the runs are to dump: a fresh scheduler can get to where as
   many runs hang as it has slots, and from there no later firing of any job gets one.
   */
  lemma {:induction false} SchedulerCanStarve(limit: nat, hasSender: bool, cfgs: nat -> Pipeline.Config)
    returns (events: seq<Event>, y: System)
    requires forall i: nat :: Pipeline.CodecOk(cfgs(i))
    ensures Happens(Init(limit, hasSender), events, y) && y.occupancy == limit
    ensures forall later, z :: Happens(y, later, z) ==>
      forall id :: id in z.runs && id !in y.runs ==> z.runs[id].phase.Skipped?
  {
    events, y := HangMany(limit, hasSender, cfgs, limit);
    assert Bodies(Init(limit, hasSender)) == {};
    HappeningKeepsInv(Init(limit, hasSender), events, y);
    forall later, z | Happens(y, later, z)
      ensures forall id :: id in z.runs && id !in y.runs ==> z.runs[id].phase.Skipped?
    {
      HungRunsStarveTheScheduler(y, later, z, Below(limit));
    }
  }
}
