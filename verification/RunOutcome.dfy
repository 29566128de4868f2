/** What a backup run leaves behind after `wg.Wait()` (internal/scheduler/scheduler.go:306-370). */
module RunOutcome {
  import opened Common
  import opened Pipeline
  import opened PipelineSafety
  import PipelineProgress

  datatype Outcome = Outcome(success: bool, backupSize: nat, visible: Option<Bytes>, metadata: Option<Metadata>)

  /** `metadataOk` and `deleteOk` say whether WriteMetadata and DeleteObject would succeed. */
  function Conclude(cfg: Config, s: State, metadataOk: bool, deleteOk: bool): Outcome
    requires Joined(s)
  {
    var success := s.dumper.outcome.DumpOk? && s.writer.outcome.WriteOk?;
    var size := s.writer.bytesWritten;
    if success && size > 0 then
      var metadata := Metadata(cfg.containerID, size, s.writer.checksum, success);
      Outcome(success, size, s.visible, if metadataOk then Some(metadata) else None)
    else if !success && size > 0 then
      Outcome(success, size, if deleteOk then None else s.visible, None)
    else
      Outcome(success, size, s.visible, None)
  }

  /** Metadata is only ever written next to the object it describes, and that object is a whole gzip stream. */
  lemma {:induction false} MetadataDescribesTheObject(cfg: Config, s: State, metadataOk: bool, deleteOk: bool)
    requires CodecOk(cfg) && Reachable(cfg, s) && Joined(s)
    ensures var o := Conclude(cfg, s, metadataOk, deleteOk);
      && (o.metadata.Some? <==> o.success && metadataOk)
      && (o.metadata.Some? ==>
            && o.metadata.value.success && o.metadata.value.containerID == cfg.containerID && o.visible.Some?
            && o.metadata.value.backupSize == |o.visible.value| == o.backupSize
            && o.metadata.value.checksum == cfg.hash(o.visible.value)
            && cfg.gunzip(o.visible.value).Some?)
  {
    if s.dumper.outcome.DumpOk? && s.writer.outcome.WriteOk? {
      SuccessfulRunStoresTheStream(cfg, s);
    }
  }

  /**
   The partial-backup cleanup is reached only when Dump panicked after its gzip writer was closed.
   It then removes the object if the delete works and leaves a complete gzip stream otherwise.
   */
  lemma {:induction false} CleanupOnlyAfterPanic(cfg: Config, s: State)
    requires CodecOk(cfg) && Reachable(cfg, s) && Joined(s)
    requires !(s.dumper.outcome.DumpOk? && s.writer.outcome.WriteOk?) && s.writer.bytesWritten > 0
    ensures s.dumper.outcome.DumpPanicked? && s.trailed && s.writer.outcome.WriteOk?
    ensures Conclude(cfg, s, true, true).visible == None
    ensures Conclude(cfg, s, true, false).visible == Some(s.handed) && cfg.gunzip(s.handed) == Some(Flatten(s.chunks))
  {
    ReachableInv(cfg, s);
    WriteSuccessMeansCleanEnd(cfg, s);
  }

  /** os.Remove works and the writer goroutine does not panic. */
  predicate Tidy(acts: seq<Action>) {
    forall i :: 0 <= i < |acts| ==> acts[i] != WAbort(false) && acts[i] != WPanic
  }

  predicate NoRemains(s: State) {
    && (s.writer.WChecking? || s.writer.WOpening? ==> s.visible == None)
    && (s.writer.WEnded? && !s.writer.outcome.WriteOk? ==> s.visible == None)
  }

  lemma {:induction false} TidyStep(cfg: Config, s: State, a: Action)
    requires cfg.prior == None && Shown(cfg, s) && NoRemains(s) && Enabled(cfg, s, a)
    requires a != WAbort(false) && a != WPanic
    ensures NoRemains(Do(cfg, s, a))
  {
    if IsWriterStep(a) {
      TidyWriterStep(cfg, s, a);
    } else if !a.Expire? {
      DumperLeavesWriter(cfg, s, a);
    }
  }

  lemma {:induction false} TidyWriterStep(cfg: Config, s: State, a: Action)
    requires cfg.prior == None && Shown(cfg, s) && NoRemains(s) && IsWriterStep(a) && WriterEnabled(cfg, s, a)
    requires a != WAbort(false) && a != WPanic
    ensures NoRemains(DoWriter(cfg, s, a))
  {
  }

  lemma {:induction false} TidyRunLeavesNoRemains(cfg: Config, s: State, acts: seq<Action>, t: State)
    requires cfg.prior == None && Inv(cfg, s) && NoRemains(s) && Tidy(acts) && Runs(cfg, s, acts, t)
    ensures NoRemains(t)
    decreases |acts|
  {
    if acts != [] {
      StepKeepsInv(cfg, s, acts[0]);
      TidyStep(cfg, s, acts[0]);
      TidyRunLeavesNoRemains(cfg, Do(cfg, s, acts[0]), acts[1..], t);
    }
  }

  /**
   With a fresh name and working deletes: a successful run leaves the whole stream; a failed
   run that reaches the join leaves nothing, except when the write succeeded on an empty
   stream, that is when the dumper goroutine ended before it had made a gzip writer.
   */
  lemma {:induction false} ObjectLeftIff(cfg: Config, acts: seq<Action>, s: State, metadataOk: bool)
    requires CodecOk(cfg) && cfg.prior == None && Tidy(acts)
    requires Runs(cfg, Init(cfg), acts, s) && Joined(s)
    ensures var o := Conclude(cfg, s, metadataOk, true);
      && (o.success ==> o.visible == Some(s.handed) && o.backupSize > 0)
      && (!o.success ==> (o.visible != None <==> s.writer.outcome.WriteOk? && s.writer.bytesWritten == 0))
      && (!o.success && o.visible != None ==> o.visible == Some([]) && !s.trailed && !s.dumper.outcome.DumpOk?)
  {
    ReachableInv(cfg, s);
    TidyRunLeavesNoRemains(cfg, Init(cfg), acts, s);
    if s.writer.outcome.WriteOk? {
      WriteSuccessMeansCleanEnd(cfg, s);
    }
  }

  /** The writer has created its file, the deadline has passed, and the dumper has seen it. */
  function CancelledBeforeDump(cfg: Config): State {
    Init(cfg).(ctxDone := true, dumper := DDeferring(DumpCancelled), writer := WReading, visible := Some([]))
  }

  lemma {:induction false} CancelledBeforeDumpIsReached(cfg: Config)
    requires cfg.dest.Local?
    ensures Reachable(cfg, CancelledBeforeDump(cfg))
  {
    var created := Init(cfg).(writer := WReading, visible := Some([]));
    LeadsNowhere(cfg, CancelledBeforeDump(cfg));
    LeadsVia(cfg, created.(ctxDone := true), DSeeCancel, CancelledBeforeDump(cfg));
    LeadsVia(cfg, created, Expire, CancelledBeforeDump(cfg));
    LeadsVia(cfg, Init(cfg).(writer := WOpening), WOpen, CancelledBeforeDump(cfg));
    LeadsVia(cfg, Init(cfg), WProceed, CancelledBeforeDump(cfg));
  }

  /** The exception happens: the deadline passes between the two checks and a failed run leaves an empty object. */
  lemma {:induction false} EmptyObjectCanBeLeft(cfg: Config) returns (end: State)
    requires cfg.prior == None && cfg.dest.Local?
    ensures Reachable(cfg, end) && Joined(end)
    ensures !Conclude(cfg, end, true, true).success && Conclude(cfg, end, true, true).visible == Some([])
  {
    var seen := CancelledBeforeDump(cfg);
    var closed := Do(cfg, seen, DClose);
    end := Do(cfg, closed, WReadEof);
    CancelledBeforeDumpIsReached(cfg);
    LeadsNowhere(cfg, end);
    LeadsVia(cfg, closed, WReadEof, end);
    LeadsVia(cfg, seen, DClose, end);
    ReachableThen(cfg, seen, end);
  }

  // ---- successful runs that lack the end of the output ----

  /** A successful run that stores all but the last `lost` bytes of the output. */
  ghost predicate SucceedsWithout(cfg: Config, lost: nat, s: State) {
    && Reachable(cfg, s) && Joined(s) && Conclude(cfg, s, true, true).success
    && Remaining(cfg, s) == lost
    && cfg.gunzip(s.handed) == Some(cfg.stdout[..|Flatten(s.chunks)|])
  }

  /**
   The copy loop leaves copyErr nil when it sees the cancelled context. If the command still
   exits with status 0, the run is reported as a success although the object lacks what was not
   read: any `lost` bytes at the end of the output, if and only if they fit into the stdout pipe.
   */
  lemma {:induction false} CancelledCopyCanSucceedIff(cfg: Config, lost: nat)
    requires CodecOk(cfg) && 0 < lost <= |cfg.stdout|
    ensures (exists s :: SucceedsWithout(cfg, lost, s)) <==> lost <= cfg.pipeSize
  {
    forall s | SucceedsWithout(cfg, lost, s) ensures lost <= cfg.pipeSize {
      SuccessfulRunStoresTheStream(cfg, s);
    }
    if lost <= cfg.pipeSize {
      var s := StopsShort(cfg, lost);
      var end := FinishesWell(cfg, s);
      ReachableThen(cfg, s, end);
      SuccessfulRunStoresTheStream(cfg, end);
      PrefixIsTake(Flatten(end.chunks), cfg.stdout);
      assert SucceedsWithout(cfg, lost, end);
    }
  }

  /** The copy loop has seen the cancelled context, and the command has exited with status 0. */
  lemma {:induction false} StopsShort(cfg: Config, lost: nat) returns (s: State)
    requires lost <= |cfg.stdout| && lost <= cfg.pipeSize
    ensures Reachable(cfg, s) && Inv(cfg, s) && Remaining(cfg, s) == lost
    ensures s.dumper == DClosing(DumpOk) && s.writer.WReading? && s.pending == []
  {
    CopyingIsReached(cfg);
    var copied := CopyAllBut(cfg, lost);
    ReachableThen(cfg, Copying(cfg), copied);
    var s1 := copied.(ctxDone := true);
    var s2 := s1.(dumper := DWaiting(false), sawCancel := true);
    s := s2.(dumper := DClosing(DumpOk));
    LeadsNowhere(cfg, s);
    LeadsVia(cfg, s2, DWait(true), s);
    LeadsVia(cfg, s1, DCopyCancel, s);
    LeadsVia(cfg, copied, Expire, s);
    ReachableThen(cfg, copied, s);
    ReachableInv(cfg, s);
  }

  lemma {:induction false} PrefixIsTake(done: Bytes, stdout: Bytes)
    requires done <= stdout
    ensures done == stdout[..|done|]
  {
  }

  /** The copy loop is about to start, the writer about to read. */
  function Copying(cfg: Config): State {
    var visible := if cfg.dest.Local? then Some([]) else cfg.prior;
    Init(cfg).(writer := WReading, visible := visible, dumper := DCopying)
  }

  lemma {:induction false} CopyingIsReached(cfg: Config)
    ensures Reachable(cfg, Copying(cfg))
  {
    var s2 := Copying(cfg).(dumper := DChecking);
    var s3 := Copying(cfg).(dumper := DPreparing);
    var s4 := Copying(cfg).(dumper := DStarting);
    LeadsNowhere(cfg, Copying(cfg));
    LeadsVia(cfg, s4, DStart, Copying(cfg));
    LeadsVia(cfg, s3, DSetup, Copying(cfg));
    LeadsVia(cfg, s2, DProceed, Copying(cfg));
    LeadsVia(cfg, Init(cfg).(writer := WOpening), WOpen, Copying(cfg));
    LeadsVia(cfg, Init(cfg), WProceed, Copying(cfg));
  }

  /** All but the last `lost` bytes are copied in one chunk and stored. */
  lemma {:induction false} CopyAllBut(cfg: Config, lost: nat) returns (t: State)
    requires lost <= |cfg.stdout|
    ensures Leads(cfg, Copying(cfg), t)
    ensures t.dumper.DCopying? && t.writer.WReading? && t.pending == [] && t.pipe.Open?
    ensures !t.ctxDone && Remaining(cfg, t) == lost
  {
    var s := Copying(cfg);
    LeadsNowhere(cfg, s);
    if lost == |cfg.stdout| {
      return s;
    }
    t := CopyOneChunk(cfg, s, |cfg.stdout| - lost);
  }

  /** One turn of the copy loop, whose bytes the writer then stores. */
  lemma {:induction false} CopyOneChunk(cfg: Config, s: State, n: nat) returns (t: State)
    requires s.dumper.DCopying? && s.writer.WReading? && s.pending == [] && s.pipe.Open? && !s.ctxDone
    requires 1 <= n <= Remaining(cfg, s)
    ensures Leads(cfg, s, t)
    ensures t.dumper.DCopying? && t.writer.WReading? && t.pending == [] && t.pipe.Open?
    ensures !t.ctxDone && Remaining(cfg, t) == Remaining(cfg, s) - n
  {
    var s1 := s.(dumper := DReading);
    var s2 := CopyChunk(cfg, s1, n);
    PipelineProgress.ChunkMakesProgress(cfg, s1, n);
    t := Drain(cfg, s2);
    StepLeads(cfg, s1, DCopyChunk(n), s2, t);
    StepLeads(cfg, s, DLook, s1, t);
  }

  lemma {:induction false} StepLeads(cfg: Config, s: State, a: Action, next: State, t: State)
    requires Enabled(cfg, s, a) && Do(cfg, s, a) == next && Leads(cfg, next, t)
    ensures Leads(cfg, s, t)
  {
    LeadsVia(cfg, s, a, t);
  }

  /** The writer stores what is in the pipe. */
  lemma {:induction false} Drain(cfg: Config, s: State) returns (t: State)
    requires s.writer.WReading?
    ensures Leads(cfg, s, t) && SameDump(s, t) && t.writer.WReading? && t.pending == [] && t.pipe == s.pipe
  {
    LeadsNowhere(cfg, s);
    t := s;
    if s.pending != [] {
      var s1 := Do(cfg, s, WRead(|s.pending|));
      t := Do(cfg, s1, WStore);
      LeadsNowhere(cfg, t);
      LeadsVia(cfg, s1, WStore, t);
      LeadsVia(cfg, s, WRead(|s.pending|), t);
    }
  }

  /** The command has exited with status 0, and the writer is reading on. */
  lemma {:induction false} FinishesWell(cfg: Config, s: State) returns (end: State)
    requires Inv(cfg, s) && s.dumper == DClosing(DumpOk) && s.writer.WReading? && s.pending == []
    ensures Leads(cfg, s, end) && Joined(end) && end.chunks == s.chunks
    ensures end.dumper.outcome.DumpOk? && end.writer.outcome.WriteOk?
  {
    var s1 := Do(cfg, s, DTrailer);
    var s2 := Drain(cfg, s1);
    var s3 := Do(cfg, s2, DReturn);
    var s4 := Do(cfg, s3, DCloseWithError);
    var s5 := Do(cfg, s4, DClose);
    assert s5.pipe.ClosedEof?;
    end := ReadsTheEnd(cfg, s5);
    LeadsVia(cfg, s4, DClose, end);
    LeadsVia(cfg, s3, DCloseWithError, end);
    LeadsVia(cfg, s2, DReturn, end);
    LeadsThen(cfg, s1, s2, end);
    LeadsVia(cfg, s, DTrailer, end);
  }

  lemma {:induction false} ReadsTheEnd(cfg: Config, s: State) returns (end: State)
    requires s.dumper == DFinished(DumpOk) && s.writer.WReading? && s.pending == [] && s.pipe.ClosedEof?
    ensures Leads(cfg, s, end) && Joined(end) && end.chunks == s.chunks
    ensures end.dumper.outcome.DumpOk? && end.writer.outcome.WriteOk?
  {
    end := Do(cfg, s, WReadEof);
    LeadsNowhere(cfg, end);
    if cfg.dest.Remote? {
      var t := Do(cfg, end, WCommit(true));
      LeadsNowhere(cfg, t);
      LeadsVia(cfg, end, WCommit(true), t);
      LeadsVia(cfg, s, WReadEof, t);
      end := t;
    } else {
      LeadsVia(cfg, s, WReadEof, end);
    }
  }
}
