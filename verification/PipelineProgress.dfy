/** Whether and when a backup run gets past `wg.Wait()` (internal/scheduler/scheduler.go:304). */
module PipelineProgress {
  import opened Common
  import opened Pipeline
  import opened PipelineSafety

  // ---- termination ----

  function DumperRank(d: Dumper): nat {
    match d
    case DChecking => 9 case DPreparing => 8 case DStarting => 7 case DCopying | DReading => 6 case DWaiting(_) => 5
    case DClosing(_) => 4 case DTrailing(_) => 3 case DReturned(_) => 2 case DDeferring(_) => 1
    case DFinished(_) => 0
  }

  function WriterRank(w: Writer): nat {
    match w
    case WChecking => 5 case WOpening => 4 case WHolding(_) => 3 case WReading => 2
    case WCommitting => 1 case WAborting => 1 case WEnded(_, _, _) => 0
  }

  /** Lexicographic: phase of the dump, output left, phase of the copy, bytes in the pipe, phase of the write, clock. */
  datatype Measure = Measure(dump: nat, remaining: int, copy: nat, inPipe: nat, write: nat, ctx: nat)

  function CopyRank(d: Dumper): nat {
    if d.DCopying? then 1 else 0
  }

  function Progress(cfg: Config, s: State): Measure {
    Measure(DumperRank(s.dumper), Remaining(cfg, s), CopyRank(s.dumper), |s.pending|, WriterRank(s.writer),
            if s.ctxDone then 0 else 1)
  }

  predicate Below(m: Measure, n: Measure) {
    || m.dump < n.dump
    || (m.dump == n.dump && 0 <= m.remaining < n.remaining)
    || (m.dump == n.dump && m.remaining == n.remaining && (
          || m.copy < n.copy
          || (m.copy == n.copy && m.inPipe < n.inPipe)
          || (m.copy == n.copy && m.inPipe == n.inPipe && m.write < n.write)
          || (m.copy == n.copy && m.inPipe == n.inPipe && m.write == n.write && m.ctx < n.ctx)))
  }

  lemma {:induction false} ChunkMakesProgress(cfg: Config, s: State, n: nat)
    requires 1 <= n <= Remaining(cfg, s)
    ensures Remaining(cfg, CopyChunk(cfg, s, n)) == Remaining(cfg, s) - n
  {
    var from := |Flatten(s.chunks)|;
    FlattenSnoc(s.chunks, cfg.stdout[from..from + n]);
  }

  lemma {:induction false} DumperMakesProgress(cfg: Config, s: State, a: Action)
    requires Inv(cfg, s) && !a.Expire? && !IsWriterStep(a) && DumperEnabled(cfg, s, a)
    ensures Below(Progress(cfg, DoDumper(cfg, s, a)), Progress(cfg, s))
  {
    if a.DCopyChunk? {
      ChunkMakesProgress(cfg, s, a.n);
    } else {
      assert a.DLook? || DumperRank(DoDumper(cfg, s, a).dumper) < DumperRank(s.dumper);
    }
  }

  lemma {:induction false} WriterMakesProgress(cfg: Config, s: State, a: Action)
    requires IsWriterStep(a) && WriterEnabled(cfg, s, a)
    ensures Below(Progress(cfg, DoWriter(cfg, s, a)), Progress(cfg, s))
  {
    WriterLeavesDumper(cfg, s, a);
    var t := DoWriter(cfg, s, a);
    assert Remaining(cfg, t) == Remaining(cfg, s);
    assert a.WRead? || (t.pending == s.pending && WriterRank(t.writer) < WriterRank(s.writer));
  }

  /** Every step of either goroutine, and the deadline, makes the measure smaller. */
  lemma {:induction false} StepMakesProgress(cfg: Config, s: State, a: Action)
    requires Inv(cfg, s) && Enabled(cfg, s, a)
    ensures Below(Progress(cfg, Do(cfg, s, a)), Progress(cfg, s))
  {
    if IsWriterStep(a) {
      WriterMakesProgress(cfg, s, a);
    } else if !a.Expire? {
      DumperMakesProgress(cfg, s, a);
    }
  }

  /** So no schedule goes on forever. */
  lemma {:induction false} NoEndlessRun(cfg: Config, states: nat -> State, acts: nat -> Action, k: nat)
    requires forall i: nat :: i >= k ==>
      Enabled(cfg, states(i), acts(i)) && states(i + 1) == Do(cfg, states(i), acts(i))
    requires Inv(cfg, states(k))
    ensures false
    decreases DumperRank(states(k).dumper), Remaining(cfg, states(k)), CopyRank(states(k).dumper), |states(k).pending|,
              WriterRank(states(k).writer), if states(k).ctxDone then 0 else 1
  {
    StepKeepsInv(cfg, states(k), acts(k));
    StepMakesProgress(cfg, states(k), acts(k));
    NoEndlessRun(cfg, states, acts, k + 1);
  }

  // ---- where schedules stop ----

  /** One of the two goroutines can take a step; the deadline does not count. */
  ghost predicate CanMove(cfg: Config, s: State) {
    exists a :: a != Expire && Enabled(cfg, s, a)
  }

  /** Nobody is left to read what the dumper is handing over. */
  predicate Stuck(s: State) {
    s.writer.WEnded? && s.pending != []
  }

  /** A step that keeps the writer reading as long as bytes can still come. */
  function NextMove(cfg: Config, s: State): Action {
    if s.pending == [] && !s.dumper.DFinished? then
      match s.dumper
      case DChecking => if s.ctxDone then DSeeCancel else DProceed
      case DPreparing => if GaveUp(s) then DSetupFail else DSetup
      case DStarting => DStart
      case DCopying => if s.ctxDone then DCopyCancel else DLook
      case DReading => if Remaining(cfg, s) <= 0 then DCopyEof else DCopyChunk(Remaining(cfg, s))
      case DWaiting(_) => DWait(!s.sawCancel)
      case DClosing(_) => DTrailer
      case DTrailing(_) => DReturn
      case DReturned(_) => DCloseWithError
      case _ => DClose
    else
      match s.writer
      case WChecking => if s.ctxDone then WSeeCancel else WProceed
      case WOpening => WOpen
      case WReading => if s.pending != [] then WRead(1) else if s.pipe.ClosedErr? then WReadError else WReadEof
      case WHolding(_) => WStore
      case WCommitting => WCommit(true)
      case _ => WAbort(true)
  }

  /** Short of the join, the two goroutines cannot move exactly in the stuck states. */
  lemma {:induction false} StopsOnlyStuckOrJoined(cfg: Config, s: State)
    requires Reachable(cfg, s)
    ensures CanMove(cfg, s) <==> !Joined(s) && !Stuck(s)
  {
    ReachableInv(cfg, s);
    if !Joined(s) && !Stuck(s) {
      assert Enabled(cfg, s, NextMove(cfg, s));
    }
  }

  // ---- which runs can still reach the join ----

  predicate WriterGone(w: Writer) {
    w.WEnded? || w.WAborting?
  }

  /** The gzip writer exists and has not been closed: at least its trailer is still to come. */
  predicate OwesTrailer(d: Dumper) {
    d.DStarting? || d.DCopying? || d.DReading? || d.DWaiting? || d.DClosing?
  }

  /** The writer goroutine will not read, or not read on: it has ended, or is about to see the passed deadline. */
  predicate GaveUp(s: State) {
    WriterGone(s.writer) || (s.writer.WChecking? && s.ctxDone)
  }

  /** The writer has given up although bytes are in the pipe or will be. */
  predicate Doomed(s: State) {
    GaveUp(s) && (s.pending != [] || OwesTrailer(s.dumper))
  }

  lemma {:induction false} DoomedWriterStep(cfg: Config, s: State, a: Action)
    requires Doomed(s) && IsWriterStep(a) && WriterEnabled(cfg, s, a)
    ensures Doomed(DoWriter(cfg, s, a))
  {
  }

  lemma {:induction false} DoomedDumperStep(cfg: Config, s: State, a: Action)
    requires CodecOk(cfg) && Doomed(s) && !a.Expire? && !IsWriterStep(a) && DumperEnabled(cfg, s, a)
    ensures Doomed(DoDumper(cfg, s, a))
  {
    DumperLeavesWriter(cfg, s, a);
    if a.DTrailer? {
      assert cfg.gzClose(s.chunks) != [];
    }
  }

  lemma {:induction false} DoomedStep(cfg: Config, s: State, a: Action)
    requires CodecOk(cfg) && Doomed(s) && Enabled(cfg, s, a)
    ensures Doomed(Do(cfg, s, a))
  {
    if IsWriterStep(a) {
      DoomedWriterStep(cfg, s, a);
    } else if !a.Expire? {
      DoomedDumperStep(cfg, s, a);
    }
  }

  /** Neither goroutine nor the deadline of the job context gets a doomed run out again. */
  lemma {:induction false} DoomedForever(cfg: Config, s: State, acts: seq<Action>, t: State)
    requires CodecOk(cfg) && Inv(cfg, s) && Doomed(s) && Runs(cfg, s, acts, t)
    ensures Doomed(t) && !Joined(t)
    decreases |acts|
  {
    if acts != [] {
      var a := acts[0];
      StepKeepsInv(cfg, s, a);
      DoomedStep(cfg, s, a);
      DoomedForever(cfg, Do(cfg, s, a), acts[1..], t);
    }
  }

  lemma {:induction false} NextDumperMoveWorks(cfg: Config, s: State)
    requires PipeState(s) && !Doomed(s) && s.pending == [] && !s.dumper.DFinished?
    ensures Enabled(cfg, s, NextMove(cfg, s)) && !Doomed(Do(cfg, s, NextMove(cfg, s)))
  {
    var a := NextMove(cfg, s);
    assert !a.Expire? && !IsWriterStep(a);
    DumperLeavesWriter(cfg, s, a);
  }

  lemma {:induction false} NextWriterMoveWorks(cfg: Config, s: State)
    requires PipeState(s) && !Doomed(s) && !Joined(s) && (s.pending != [] || s.dumper.DFinished?)
    ensures Enabled(cfg, s, NextMove(cfg, s)) && !Doomed(Do(cfg, s, NextMove(cfg, s)))
  {
    var a := NextMove(cfg, s);
    assert IsWriterStep(a);
    WriterLeavesDumper(cfg, s, a);
  }

  lemma {:induction false} NextMoveWorks(cfg: Config, s: State)
    requires PipeState(s) && !Doomed(s) && !Joined(s)
    ensures Enabled(cfg, s, NextMove(cfg, s)) && !Doomed(Do(cfg, s, NextMove(cfg, s)))
    ensures CanMove(cfg, s)
  {
    if s.pending == [] && !s.dumper.DFinished? {
      NextDumperMoveWorks(cfg, s);
    } else {
      NextWriterMoveWorks(cfg, s);
    }
    assert NextMove(cfg, s) != Expire;
  }

  lemma {:induction false} UndoomedCanJoin(cfg: Config, s: State) returns (t: State)
    requires Inv(cfg, s) && !Doomed(s)
    ensures Leads(cfg, s, t) && Joined(t)
    decreases DumperRank(s.dumper), Remaining(cfg, s), CopyRank(s.dumper), |s.pending|, WriterRank(s.writer)
  {
    if Joined(s) {
      LeadsNowhere(cfg, s);
      t := s;
    } else {
      var a := NextMove(cfg, s);
      NextMoveWorks(cfg, s);
      StepKeepsInv(cfg, s, a);
      StepMakesProgress(cfg, s, a);
      t := UndoomedCanJoin(cfg, Do(cfg, s, a));
      LeadsVia(cfg, s, a, t);
    }
  }

  /** The join can still be reached exactly if the writer has not given up too early. */
  lemma {:induction false} JoinReachableIff(cfg: Config, s: State)
    requires CodecOk(cfg) && Reachable(cfg, s)
    ensures (exists t :: Leads(cfg, s, t) && Joined(t)) <==> !Doomed(s)
  {
    ReachableInv(cfg, s);
    if Doomed(s) {
      forall t | Leads(cfg, s, t) ensures !Joined(t) {
        var acts :| Runs(cfg, s, acts, t);
        DoomedForever(cfg, s, acts, t);
      }
    } else {
      var t := UndoomedCanJoin(cfg, s);
    }
  }

  // ---- a writer that reads to the end ----

  /** The writer goroutine stops before it has seen the end of the stream. */
  predicate GivesUp(a: Action) {
    a.WSeeCancel? || a.WOpenFail? || a.WStoreFail? || a.WUploadFail? || a.WPanic?
  }

  predicate ReadToEnd(s: State) {
    WriterGone(s.writer) ==> !s.pipe.Open?
  }

  lemma {:induction false} PatientStep(cfg: Config, s: State, a: Action)
    requires PipeState(s) && ReadToEnd(s) && Enabled(cfg, s, a) && !GivesUp(a)
    ensures ReadToEnd(Do(cfg, s, a))
  {
  }

  lemma {:induction false} PatientWriterReadsToEnd(cfg: Config, s: State, acts: seq<Action>, t: State)
    requires Inv(cfg, s) && ReadToEnd(s) && Runs(cfg, s, acts, t)
    requires forall i :: 0 <= i < |acts| ==> !GivesUp(acts[i])
    ensures Inv(cfg, t) && ReadToEnd(t)
    decreases |acts|
  {
    if acts != [] {
      var a := acts[0];
      StepKeepsInv(cfg, s, a);
      PatientStep(cfg, s, a);
      PatientWriterReadsToEnd(cfg, Do(cfg, s, a), acts[1..], t);
    }
  }

  lemma {:induction false} SeesCancel(cfg: Config, s: State)
    requires s.writer.WChecking? && s.ctxDone
    ensures CanMove(cfg, s)
  {
    assert Enabled(cfg, s, WSeeCancel);
  }

  lemma {:induction false} ReadToEndIsNotDoomed(s: State)
    requires PipeState(s) && ReadToEnd(s) && !(s.writer.WChecking? && s.ctxDone)
    ensures !Doomed(s)
  {
  }

  /** If the writer reads until the pipe ends or fails, every schedule that stops has reached the join. */
  lemma {:induction false} PatientWriterJoins(cfg: Config, acts: seq<Action>, t: State)
    requires Runs(cfg, Init(cfg), acts, t)
    requires forall i :: 0 <= i < |acts| ==> !GivesUp(acts[i])
    requires !CanMove(cfg, t)
    ensures Joined(t)
  {
    PatientWriterReadsToEnd(cfg, Init(cfg), acts, t);
    if !(t.writer.WChecking? && t.ctxDone) {
      ReadToEndIsNotDoomed(t);
      if !Joined(t) {
        NextMoveWorks(cfg, t);
      }
    } else {
      SeesCancel(cfg, t);
    }
  }

  /**
   A writer that gives up (a full disk, a failed upload, a passed deadline) while bytes are
   in the pipe or a trailer is owed: from then on no schedule reaches the join, and where it
   stops the dumper is stuck in the pipe.
   */
  lemma {:induction false} GivingUpEarlyHangsTheRun(cfg: Config, s: State, a: Action, t: State)
    requires CodecOk(cfg) && Reachable(cfg, s) && Enabled(cfg, s, a) && GivesUp(a)
    requires s.pending != [] || OwesTrailer(s.dumper)
    requires Leads(cfg, Do(cfg, s, a), t)
    ensures !Joined(t)
    ensures !CanMove(cfg, t) ==> Stuck(t)
  {
    LeadsVia(cfg, s, a, t);
    ReachableThen(cfg, s, t);
    ReachableInv(cfg, s);
    StepKeepsInv(cfg, s, a);
    var acts :| Runs(cfg, Do(cfg, s, a), acts, t);
    DoomedForever(cfg, Do(cfg, s, a), acts, t);
    StopsOnlyStuckOrJoined(cfg, t);
  }

  /** A write can fail at any point: an upload anywhere, a local copy after any number of the bytes in hand. */
  lemma {:induction false} WriteCanFailAnywhere(cfg: Config, s: State, k: nat)
    ensures cfg.dest.Remote? && (s.writer.WReading? || s.writer.WHolding?) ==>
      Enabled(cfg, s, WUploadFail) && Do(cfg, s, WUploadFail).writer == WEnded(WriteFailed, 0, "")
    ensures s.writer.WHolding? && k <= |s.writer.hand| ==>
      Enabled(cfg, s, WStoreFail(k)) && Do(cfg, s, WStoreFail(k)).writer == WAborting
      && Do(cfg, s, WStoreFail(k)).sunk == s.sunk + s.writer.hand[..k]
  {
  }

  // ---- that it happens ----

  /** An early give-up that every run allows: the file or the upload cannot be opened. */
  function OpenFailed(cfg: Config): State {
    Init(cfg).(dumper := DStarting, writer := WEnded(WriteFailed, 0, ""))
  }

  lemma {:induction false} OpenFailedIsReached(cfg: Config, s1: State, s2: State, s3: State)
    requires s1 == Init(cfg).(writer := WOpening)
    requires s2 == s1.(dumper := DPreparing) && s3 == s1.(dumper := DStarting)
    ensures Enabled(cfg, Init(cfg), WProceed) && Do(cfg, Init(cfg), WProceed) == s1
    ensures Enabled(cfg, s1, DProceed) && Do(cfg, s1, DProceed) == s2
    ensures Enabled(cfg, s2, DSetup) && Do(cfg, s2, DSetup) == s3
    ensures Enabled(cfg, s3, WOpenFail) && Do(cfg, s3, WOpenFail) == OpenFailed(cfg)
  {
  }

  /** Every configuration has runs that hang. */
  lemma {:induction false} EveryRunCanHang(cfg: Config)
    ensures Reachable(cfg, OpenFailed(cfg)) && Doomed(OpenFailed(cfg))
  {
    var s1 := Init(cfg).(writer := WOpening);
    var s2, s3 := s1.(dumper := DPreparing), s1.(dumper := DStarting);
    OpenFailedIsReached(cfg, s1, s2, s3);
    LeadsNowhere(cfg, OpenFailed(cfg));
    LeadsVia(cfg, s3, WOpenFail, OpenFailed(cfg));
    LeadsVia(cfg, s2, DSetup, OpenFailed(cfg));
    LeadsVia(cfg, s1, DProceed, OpenFailed(cfg));
    LeadsVia(cfg, Init(cfg), WProceed, OpenFailed(cfg));
  }

  /** A codec that stores its input and a trailer of one byte: what CodecOk asks can be met. */
  function Stored(cfg: Config): Config {
    cfg.(gzWrite := chunks => if chunks == [] then [] else chunks[|chunks| - 1],
         gzClose := _ => [0],
         gunzip := stream => if stream == [] then None else Some(stream[..|stream| - 1]))
  }

  lemma {:induction false} StoredIsCodecOk(cfg: Config)
    ensures CodecOk(Stored(cfg))
  {
    var c := Stored(cfg);
    forall chunks: seq<Bytes>
      ensures c.gunzip(Emitted(c, chunks) + c.gzClose(chunks)) == Some(Flatten(chunks)) && c.gzClose(chunks) != []
    {
      StoredEmits(cfg, chunks);
      assert (Flatten(chunks) + [0])[..|Flatten(chunks)|] == Flatten(chunks);
    }
  }

  lemma {:induction false} StoredEmits(cfg: Config, chunks: seq<Bytes>)
    ensures Emitted(Stored(cfg), chunks) == Flatten(chunks)
    decreases |chunks|
  {
    if chunks != [] {
      StoredEmits(cfg, chunks[..|chunks| - 1]);
    }
  }
}
