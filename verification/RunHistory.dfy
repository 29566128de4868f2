/**
 What the steps of a schedule say about its outcome: which exit status, error, panic or
 cancellation makes a backup run succeed or fail (internal/scheduler/scheduler.go:253-320,
 internal/dumper/dumper.go:52-139).
 */
module RunHistory {
  import opened Common
  import opened Pipeline
  import opened PipelineSafety
  import RunOutcome

  predicate Panics(acts: seq<Action>) {
    DSetupPanic in acts || DStartPanic in acts || DWaitPanic in acts
  }

  /** How the dump ends, by the steps that have been taken. */
  function DumpOutcome(acts: seq<Action>): DumpResult {
    if DSeeCancel in acts then DumpCancelled
    else if Panics(acts) then DumpPanicked
    else if DWait(true) in acts && DCopyError !in acts then DumpOk
    else DumpFailed
  }

  /** How the write ends: a file is complete at the end of the stream, an upload when it has been committed. */
  function WriteOutcome(cfg: Config, acts: seq<Action>): WriteResult {
    if WSeeCancel in acts then WriteCancelled
    else if WPanic in acts then WritePanicked
    else if (if cfg.dest.Local? then WReadEof in acts else WCommit(true) in acts) then WriteOk
    else WriteFailed
  }

  /** None of the steps that decide a dump has been taken. */
  predicate DumpUndecided(acts: seq<Action>) {
    && DSeeCancel !in acts && !Panics(acts) && DSetupFail !in acts && DStartFail !in acts
    && DWait(true) !in acts && DWait(false) !in acts
  }

  predicate WriteUndecided(acts: seq<Action>) {
    WSeeCancel !in acts && WPanic !in acts && WCommit(true) !in acts
  }

  ghost predicate ToldDump(acts: seq<Action>, s: State) {
    && (s.ctxDone <==> Expire in acts)
    && (s.sawCancel <==> DCopyCancel in acts)
    && (DWait(true) in acts ==> DSeeCancel !in acts && !Panics(acts))
    && (HasOutcome(s.dumper) ==> s.dumper.outcome == DumpOutcome(acts))
    && (!HasOutcome(s.dumper) ==> DumpUndecided(acts))
    && (s.dumper.DWaiting? ==> (s.dumper.copyFailed <==> DCopyError in acts))
    && (!HasOutcome(s.dumper) && !s.dumper.DWaiting? ==> DCopyError !in acts)
  }

  predicate ToldWrite(cfg: Config, acts: seq<Action>, s: State) {
    match s.writer
    case WEnded(r, _, _) => r == WriteOutcome(cfg, acts)
    case WCommitting => WriteUndecided(acts) && cfg.dest.Remote?
    case _ => WriteUndecided(acts) && (cfg.dest.Local? ==> WReadEof !in acts)
  }

  lemma {:induction false} OneMore(acts: seq<Action>, a: Action)
    ensures forall x :: x in acts + [a] <==> x in acts || x == a
  {
  }

  /** The steps at which something is decided about a dump. */
  predicate Decides(a: Action) {
    || a.DSeeCancel? || a.DSetupFail? || a.DSetupPanic? || a.DStartFail? || a.DStartPanic?
    || a.DCopyError? || a.DCopyCancel? || a.DWait? || a.DWaitPanic?
  }

  lemma {:induction false} StillTold(acts: seq<Action>, s: State, t: State, a: Action)
    requires ToldDump(acts, s) && !Decides(a)
    requires t.ctxDone == (s.ctxDone || a.Expire?) && t.sawCancel == s.sawCancel
    requires HasOutcome(t.dumper) == HasOutcome(s.dumper)
    requires HasOutcome(s.dumper) ==> t.dumper.outcome == s.dumper.outcome
    requires t.dumper.DWaiting? ==> t.dumper == s.dumper || (s.dumper.DReading? && !t.dumper.copyFailed)
    requires s.dumper.DWaiting? && !HasOutcome(t.dumper) ==> t.dumper == s.dumper
    ensures ToldDump(acts + [a], t)
  {
    OneMore(acts, a);
  }

  /** How the step that ends a dump before its command has been waited for decides it. */
  function EarlyResult(a: Action): DumpResult {
    if a.DSeeCancel? then DumpCancelled
    else if a.DSetupPanic? || a.DStartPanic? then DumpPanicked
    else DumpFailed
  }

  lemma {:induction false} EarlyDecisionTells(acts: seq<Action>, s: State, t: State, a: Action)
    requires ToldDump(acts, s) && !HasOutcome(s.dumper) && !s.dumper.DWaiting?
    requires a.DSeeCancel? || a.DSetupFail? || a.DSetupPanic? || a.DStartFail? || a.DStartPanic?
    requires HasOutcome(t.dumper) && t.dumper.outcome == EarlyResult(a)
    requires t.ctxDone == s.ctxDone && t.sawCancel == s.sawCancel
    ensures ToldDump(acts + [a], t)
  {
    OneMore(acts, a);
  }

  lemma {:induction false} CopyDecisionTells(acts: seq<Action>, s: State, t: State, a: Action)
    requires ToldDump(acts, s) && !HasOutcome(s.dumper) && !s.dumper.DWaiting?
    requires a.DCopyError? || a.DCopyCancel?
    requires t.dumper == DWaiting(a.DCopyError?)
    requires t.ctxDone == s.ctxDone && t.sawCancel == (s.sawCancel || a.DCopyCancel?)
    ensures ToldDump(acts + [a], t)
  {
    OneMore(acts, a);
  }

  lemma {:induction false} WaitDecisionTells(acts: seq<Action>, s: State, t: State, a: Action)
    requires ToldDump(acts, s) && s.dumper.DWaiting? && (a.DWait? || a.DWaitPanic?)
    requires t.dumper == DClosing(if a.DWaitPanic? then DumpPanicked
                                  else if a.ok && !s.dumper.copyFailed then DumpOk else DumpFailed)
    requires t.ctxDone == s.ctxDone && t.sawCancel == s.sawCancel
    ensures ToldDump(acts + [a], t)
  {
    OneMore(acts, a);
  }

  lemma {:induction false} DumperTells(cfg: Config, acts: seq<Action>, s: State, a: Action)
    requires ToldDump(acts, s) && !a.Expire? && !IsWriterStep(a) && DumperEnabled(cfg, s, a)
    ensures ToldDump(acts + [a], DoDumper(cfg, s, a))
  {
    var t := DoDumper(cfg, s, a);
    if a.DWait? || a.DWaitPanic? {
      WaitDecisionTells(acts, s, t, a);
    } else if a.DCopyError? || a.DCopyCancel? {
      CopyDecisionTells(acts, s, t, a);
    } else if Decides(a) {
      EarlyDecisionTells(acts, s, t, a);
    } else {
      StillTold(acts, s, t, a);
    }
  }

  lemma {:induction false} WriterTells(cfg: Config, acts: seq<Action>, s: State, a: Action)
    requires ToldWrite(cfg, acts, s) && IsWriterStep(a) && WriterEnabled(cfg, s, a)
    ensures ToldWrite(cfg, acts + [a], DoWriter(cfg, s, a))
  {
    OneMore(acts, a);
  }

  lemma {:induction false} WriteStillTold(cfg: Config, acts: seq<Action>, s: State, t: State, a: Action)
    requires ToldWrite(cfg, acts, s) && !IsWriterStep(a) && t.writer == s.writer
    ensures ToldWrite(cfg, acts + [a], t)
  {
    OneMore(acts, a);
  }

  lemma {:induction false} StepTells(cfg: Config, acts: seq<Action>, s: State, a: Action)
    requires ToldDump(acts, s) && ToldWrite(cfg, acts, s) && Enabled(cfg, s, a)
    ensures ToldDump(acts + [a], Do(cfg, s, a)) && ToldWrite(cfg, acts + [a], Do(cfg, s, a))
  {
    if IsWriterStep(a) {
      WriterLeavesDumper(cfg, s, a);
      StillTold(acts, s, DoWriter(cfg, s, a), a);
      WriterTells(cfg, acts, s, a);
    } else if a.Expire? {
      StillTold(acts, s, Do(cfg, s, a), a);
      WriteStillTold(cfg, acts, s, Do(cfg, s, a), a);
    } else {
      DumperLeavesWriter(cfg, s, a);
      DumperTells(cfg, acts, s, a);
      WriteStillTold(cfg, acts, s, DoDumper(cfg, s, a), a);
    }
  }

  lemma {:induction false} RunTells(cfg: Config, past: seq<Action>, s: State, acts: seq<Action>, t: State)
    requires ToldDump(past, s) && ToldWrite(cfg, past, s) && Runs(cfg, s, acts, t)
    ensures ToldDump(past + acts, t) && ToldWrite(cfg, past + acts, t)
    decreases |acts|
  {
    if acts == [] {
      assert past + acts == past;
    } else {
      StepTells(cfg, past, s, acts[0]);
      RunTells(cfg, past + [acts[0]], Do(cfg, s, acts[0]), acts[1..], t);
      assert past + [acts[0]] + acts[1..] == past + acts;
    }
  }

  /**
   How both goroutines have ended is decided by the steps taken. In particular Dump has returned
   nil if and only if the command has exited with status 0 and reading its output has not failed.
   */
  lemma {:induction false} OutcomesDecided(cfg: Config, acts: seq<Action>, s: State)
    requires Runs(cfg, Init(cfg), acts, s) && Joined(s)
    ensures s.dumper.outcome == DumpOutcome(acts) && s.writer.outcome == WriteOutcome(cfg, acts)
    ensures !s.writer.outcome.WriteOk? ==> s.writer.bytesWritten == 0 && s.writer.checksum == ""
    ensures s.dumper.outcome.DumpOk? <==> DWait(true) in acts && DCopyError !in acts
    ensures s.ctxDone <==> Expire in acts
  {
    RunTells(cfg, [], Init(cfg), acts, s);
    assert [] + acts == acts;
    RunKeepsInv(cfg, Init(cfg), acts, s);
  }

  /**
   A run is reported as successful, and its metadata written, only after a command that exited
   with status 0, a copy loop without a read error, and a write that reached the end of the stream.
   */
  lemma {:induction false} SuccessIff(cfg: Config, acts: seq<Action>, s: State, metadataOk: bool, deleteOk: bool)
    requires CodecOk(cfg) && Runs(cfg, Init(cfg), acts, s) && Joined(s)
    ensures var o := RunOutcome.Conclude(cfg, s, metadataOk, deleteOk);
      && (o.success <==>
            && DWait(true) in acts && DCopyError !in acts
            && WSeeCancel !in acts && WPanic !in acts
            && if cfg.dest.Local? then WReadEof in acts else WCommit(true) in acts)
      && (o.metadata.Some? <==> o.success && metadataOk)
  {
    OutcomesDecided(cfg, acts, s);
    RunOutcome.MetadataDescribesTheObject(cfg, s, metadataOk, deleteOk);
  }

  // ---- the file a failed write leaves ----

  predicate ToldFile(acts: seq<Action>, s: State) {
    && (WAbort(true) in acts || WAbort(false) in acts ==> s.writer.WEnded?)
    && (WAbort(true) in acts ==> s.visible == None)
    && (WAbort(false) in acts ==> s.visible == Some(s.sunk))
    && (s.writer.WReading? || s.writer.WHolding? || s.writer.WAborting? ==> s.visible == Some(s.sunk))
  }

  lemma {:induction false} FileStillTold(acts: seq<Action>, s: State, t: State, a: Action)
    requires ToldFile(acts, s) && !a.WAbort? && SameWrite(s, t)
    ensures ToldFile(acts + [a], t)
  {
    OneMore(acts, a);
  }

  lemma {:induction false} WriterTellsFile(cfg: Config, acts: seq<Action>, s: State, a: Action)
    requires cfg.dest.Local? && ToldFile(acts, s) && Conserved(cfg, s)
    requires IsWriterStep(a) && WriterEnabled(cfg, s, a)
    ensures ToldFile(acts + [a], DoWriter(cfg, s, a))
  {
    OneMore(acts, a);
  }

  lemma {:induction false} StepTellsFile(cfg: Config, acts: seq<Action>, s: State, a: Action)
    requires cfg.dest.Local? && ToldFile(acts, s) && Conserved(cfg, s) && Enabled(cfg, s, a)
    ensures ToldFile(acts + [a], Do(cfg, s, a))
  {
    if IsWriterStep(a) {
      WriterTellsFile(cfg, acts, s, a);
    } else {
      if !a.Expire? {
        DumperLeavesWriter(cfg, s, a);
      }
      FileStillTold(acts, s, Do(cfg, s, a), a);
    }
  }

  lemma {:induction false} RunTellsFile(cfg: Config, past: seq<Action>, s: State, acts: seq<Action>, t: State)
    requires cfg.dest.Local? && Inv(cfg, s) && ToldFile(past, s) && Runs(cfg, s, acts, t)
    ensures ToldFile(past + acts, t)
    decreases |acts|
  {
    if acts == [] {
      assert past + acts == past;
    } else {
      var a := acts[0];
      StepKeepsInv(cfg, s, a);
      StepTellsFile(cfg, past, s, a);
      RunTellsFile(cfg, past + [a], Do(cfg, s, a), acts[1..], t);
      assert past + [a] + acts[1..] == past + acts;
    }
  }

  /**
   A local write whose copy has failed leaves no file if os.Remove works, and otherwise the torn
   one, with what had been stored of the stream; the cleanup, which sees zero bytes, skips it.
   */
  lemma {:induction false} TornFileIff(cfg: Config, acts: seq<Action>, s: State, metadataOk: bool, deleteOk: bool)
    requires cfg.dest.Local? && Runs(cfg, Init(cfg), acts, s) && Joined(s)
    requires WAbort(true) in acts || WAbort(false) in acts
    ensures var o := RunOutcome.Conclude(cfg, s, metadataOk, deleteOk);
      !o.success && o.visible == if WAbort(true) in acts then None else Some(s.sunk)
  {
    RunTellsFile(cfg, [], Init(cfg), acts, s);
    assert [] + acts == acts;
    AbortFails(cfg, [], Init(cfg), acts, s);
    OutcomesDecided(cfg, acts, s);
  }

  lemma {:induction false} AbortFails(cfg: Config, past: seq<Action>, s: State, acts: seq<Action>, t: State)
    requires Runs(cfg, s, acts, t)
    requires WAbort(true) in past || WAbort(false) in past ==> s.writer.WEnded? && s.writer.outcome.WriteFailed?
    ensures WAbort(true) in past + acts || WAbort(false) in past + acts ==>
      t.writer.WEnded? && t.writer.outcome.WriteFailed?
    decreases |acts|
  {
    if acts == [] {
      assert past + acts == past;
    } else {
      var a := acts[0];
      OneMore(past, a);
      if !IsWriterStep(a) && !a.Expire? {
        DumperLeavesWriter(cfg, s, a);
      }
      AbortFails(cfg, past + [a], Do(cfg, s, a), acts[1..], t);
      assert past + [a] + acts[1..] == past + acts;
    }
  }

  // ---- the deadline ----

  /** A goroutine only sees a cancelled context after the deadline. */
  predicate CancelledLate(s: State) {
    && (HasOutcome(s.dumper) && s.dumper.outcome.DumpCancelled? ==> s.ctxDone)
    && (s.writer.WEnded? && s.writer.outcome.WriteCancelled? ==> s.ctxDone)
    && (s.sawCancel ==> s.ctxDone)
  }

  lemma {:induction false} WriterCancelsLate(cfg: Config, s: State, a: Action)
    requires CancelledLate(s) && IsWriterStep(a) && WriterEnabled(cfg, s, a)
    ensures CancelledLate(DoWriter(cfg, s, a))
  {
    WriterLeavesDumper(cfg, s, a);
  }

  lemma {:induction false} DumperCancelsLate(cfg: Config, s: State, a: Action)
    requires CancelledLate(s) && !a.Expire? && !IsWriterStep(a) && DumperEnabled(cfg, s, a)
    ensures CancelledLate(DoDumper(cfg, s, a))
  {
    DumperLeavesWriter(cfg, s, a);
  }

  lemma {:induction false} StepCancelsLate(cfg: Config, s: State, a: Action)
    requires CancelledLate(s) && Enabled(cfg, s, a)
    ensures CancelledLate(Do(cfg, s, a))
  {
    if IsWriterStep(a) {
      WriterCancelsLate(cfg, s, a);
    } else if !a.Expire? {
      DumperCancelsLate(cfg, s, a);
    }
  }

  lemma {:induction false} CancelledOnlyAfterDeadline(cfg: Config, s: State, acts: seq<Action>, t: State)
    requires CancelledLate(s) && Runs(cfg, s, acts, t)
    ensures CancelledLate(t)
    decreases |acts|
  {
    if acts != [] {
      StepCancelsLate(cfg, s, acts[0]);
      CancelledOnlyAfterDeadline(cfg, Do(cfg, s, acts[0]), acts[1..], t);
    }
  }

  /** How far a goroutine gets once the deadline has passed. */
  predicate StoppedSince(s: State, t: State) {
    && t.ctxDone
    && (s.dumper.DChecking? ==>
          t.dumper.DChecking? || t.dumper == DDeferring(DumpCancelled) || t.dumper == DFinished(DumpCancelled))
    && (s.writer.WChecking? ==> t.writer.WChecking? || t.writer == WEnded(WriteCancelled, 0, ""))
    && (s.dumper.DCopying? ==> t.chunks == s.chunks && !t.dumper.DReading? && !t.dumper.DChecking?
                               && !t.dumper.DPreparing? && !t.dumper.DStarting?)
  }

  lemma {:induction false} StepStops(cfg: Config, s: State, t: State, a: Action)
    requires StoppedSince(s, t) && Enabled(cfg, t, a)
    ensures StoppedSince(s, Do(cfg, t, a))
  {
    if IsWriterStep(a) {
      WriterLeavesDumper(cfg, t, a);
    } else if !a.Expire? {
      DumperLeavesWriter(cfg, t, a);
    }
  }

  /**
   After the deadline a dumper at its check never dumps, a writer at its check never writes, and a
   copy loop at its select copies nothing more.
   */
  lemma {:induction false} DeadlineStops(cfg: Config, s: State, t: State, acts: seq<Action>, u: State)
    requires s.ctxDone && StoppedSince(s, t) && Runs(cfg, t, acts, u)
    ensures StoppedSince(s, u)
    decreases |acts|
  {
    if acts != [] {
      StepStops(cfg, s, t, acts[0]);
      DeadlineStops(cfg, s, Do(cfg, t, acts[0]), acts[1..], u);
    }
  }

  lemma {:induction false} NothingStartsAfterDeadline(cfg: Config, acts: seq<Action>, s: State,
                                                      later: seq<Action>, t: State)
    requires Runs(cfg, Init(cfg), acts, s) && Runs(cfg, s, later, t)
    ensures s.ctxDone ==> StoppedSince(s, t)
    ensures s.dumper.DFinished? && s.dumper.outcome.DumpCancelled? ==> Expire in acts
    ensures s.writer.WEnded? && s.writer.outcome.WriteCancelled? ==> Expire in acts
  {
    if s.ctxDone {
      DeadlineStops(cfg, s, s, later, t);
    }
    CancelledOnlyAfterDeadline(cfg, Init(cfg), acts, s);
    RunTells(cfg, [], Init(cfg), acts, s);
    assert [] + acts == acts;
  }
}
