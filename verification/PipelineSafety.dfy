/** What holds of a backup run in every state it can reach, whatever the interleaving and the chunking. */
module PipelineSafety {
  import opened Common
  import opened Pipeline

  /** The dumper is past the point where its gzip writer may still emit bytes. */
  predicate PastTrailer(d: Dumper) {
    d.DReturned? || d.DDeferring? || d.DFinished?
  }

  predicate HasOutcome(d: Dumper) {
    d.DClosing? || d.DTrailing? || PastTrailer(d)
  }

  /** Conservation: every byte handed to the pipe is stored, in the writer's hand, or still in the pipe. */
  ghost predicate Conserved(cfg: Config, s: State) {
    && s.handed == s.hashed + s.pending
    && s.sunk <= s.hashed
    && (s.writer.WChecking? || s.writer.WOpening? ==> s.hashed == [])
    && (s.writer.WReading? || s.writer.WCommitting? ==> s.sunk == s.hashed)
    && (s.writer.WHolding? ==> s.sunk + s.writer.hand == s.hashed)
    && s.counted == (if cfg.dest.Local? then |s.sunk| else |s.hashed|)
  }

  /** What the store shows under the run's name. */
  ghost predicate Shown(cfg: Config, s: State) {
    match s.writer
    case WChecking | WOpening => s.visible == cfg.prior
    case WReading | WHolding(_) | WAborting => s.visible == if cfg.dest.Local? then Some(s.sunk) else cfg.prior
    case WCommitting => cfg.dest.Remote? && s.visible == cfg.prior
    case WEnded(r, bytes, checksum) =>
      match r
      case WriteOk =>
        && s.visible == Some(s.hashed) && s.sunk == s.hashed
        && bytes == |s.hashed| && checksum == cfg.hash(s.hashed)
      case WriteCancelled => s.visible == cfg.prior && bytes == 0 && checksum == ""
      case WriteFailed | WritePanicked =>
        && bytes == 0 && checksum == ""
        && (cfg.dest.Remote? ==> s.visible == cfg.prior)
  }

  /** The pipe is closed by the dumper's last two steps only, with an error exactly if Dump returned one. */
  ghost predicate PipeState(s: State) {
    && (s.pending != [] ==> s.dumper.DCopying? || s.dumper.DTrailing?)
    && s.pipe == (if s.dumper.DFinished? then (if s.dumper.outcome.DumpFailed? then ClosedErr else ClosedEof)
                  else if s.dumper.DDeferring? && s.dumper.outcome.DumpFailed? then ClosedErr
                  else Open)
    && (s.writer.WCommitting? || (s.writer.WEnded? && s.writer.outcome.WriteOk?) ==> s.pipe.ClosedEof?)
  }

  /** What has been handed over is a gzip stream of a prefix of the command's output. */
  ghost predicate Framed(cfg: Config, s: State) {
    && s.handed == Emitted(cfg, s.chunks) + (if s.trailed then cfg.gzClose(s.chunks) else [])
    && Flatten(s.chunks) <= cfg.stdout
    && (s.trailed ==> s.dumper.DTrailing? || PastTrailer(s.dumper))
    && (s.dumper.DTrailing? ==> s.trailed)
    && (s.dumper.DChecking? || s.dumper.DPreparing? || s.dumper.DStarting? ==> s.chunks == [])
    && (PastTrailer(s.dumper) && s.dumper.outcome.DumpOk? ==> s.trailed)
    && (PastTrailer(s.dumper) && !s.trailed ==> s.chunks == [])
    && (HasOutcome(s.dumper) && s.dumper.outcome.DumpCancelled? ==>
          PastTrailer(s.dumper) && !s.trailed && !s.dumper.DReturned?)
    && (s.dumper.DReturned? ==> !s.dumper.outcome.DumpPanicked?)
    && (s.sawCancel ==> s.ctxDone)
    && (!s.sawCancel && (s.dumper == DWaiting(false) || (HasOutcome(s.dumper) && s.dumper.outcome.DumpOk?)) ==>
          Flatten(s.chunks) == cfg.stdout)
    && (HasOutcome(s.dumper) && s.dumper.outcome.DumpOk? ==> Remaining(cfg, s) <= cfg.pipeSize)
  }

  ghost predicate Inv(cfg: Config, s: State) {
    Conserved(cfg, s) && Shown(cfg, s) && PipeState(s) && Framed(cfg, s)
  }

  lemma {:induction false} FlattenSnoc(chunks: seq<Bytes>, c: Bytes)
    ensures Flatten(chunks + [c]) == Flatten(chunks) + c
  {
    assert (chunks + [c])[..|chunks|] == chunks;
  }

  lemma {:induction false} EmittedSnoc(cfg: Config, chunks: seq<Bytes>, c: Bytes)
    ensures Emitted(cfg, chunks + [c]) == Emitted(cfg, chunks) + cfg.gzWrite(chunks + [c])
  {
    assert (chunks + [c])[..|chunks|] == chunks;
  }

  lemma {:induction false} TakeConserves(cfg: Config, s: State, n: nat)
    requires Conserved(cfg, s) && s.writer.WReading? && n <= |s.pending|
    ensures Conserved(cfg, Take(cfg, s, n))
  {
    assert s.pending == s.pending[..n] + s.pending[n..];
  }

  lemma {:induction false} SinkConserves(cfg: Config, s: State, k: nat, next: Writer)
    requires Conserved(cfg, s) && s.writer.WHolding? && k <= |s.writer.hand|
    requires next == WAborting || (next == WReading && k == |s.writer.hand|)
    ensures Conserved(cfg, Sink(cfg, s, k).(writer := next))
  {
    assert s.writer.hand == s.writer.hand[..k] + s.writer.hand[k..];
  }

  lemma {:induction false} WriterConserves(cfg: Config, s: State, a: Action)
    requires Conserved(cfg, s) && IsWriterStep(a) && WriterEnabled(cfg, s, a)
    ensures Conserved(cfg, DoWriter(cfg, s, a))
  {
    match a
    case WRead(n) => TakeConserves(cfg, s, n);
    case WStore => SinkConserves(cfg, s, |s.writer.hand|, WReading);
    case WStoreFail(k) => SinkConserves(cfg, s, k, WAborting);
    case _ =>
  }

  lemma {:induction false} DumperConserves(cfg: Config, s: State, a: Action)
    requires Conserved(cfg, s) && PipeState(s) && !a.Expire? && !IsWriterStep(a) && DumperEnabled(cfg, s, a)
    ensures Conserved(cfg, DoDumper(cfg, s, a))
  {
    var t := DoDumper(cfg, s, a);
    DumperLeavesWriter(cfg, s, a);
    if a.DCopyChunk? || a.DTrailer? {
      assert s.handed == s.hashed + [] == s.hashed;
    } else {
      assert t.handed == s.handed && t.pending == s.pending;
    }
  }

  lemma {:induction false} WriterShows(cfg: Config, s: State, a: Action)
    requires Conserved(cfg, s) && Shown(cfg, s) && PipeState(s) && IsWriterStep(a) && WriterEnabled(cfg, s, a)
    ensures Shown(cfg, DoWriter(cfg, s, a)) && PipeState(DoWriter(cfg, s, a))
  {
  }

  lemma {:induction false} DumperShows(cfg: Config, s: State, a: Action)
    requires Shown(cfg, s) && PipeState(s) && Framed(cfg, s)
    requires !a.Expire? && !IsWriterStep(a) && DumperEnabled(cfg, s, a)
    ensures Shown(cfg, DoDumper(cfg, s, a)) && PipeState(DoDumper(cfg, s, a))
  {
    DumperLeavesWriter(cfg, s, a);
    DumperClosesPipe(cfg, s, a);
  }

  predicate SameWrite(s: State, t: State) {
    t.writer == s.writer && t.hashed == s.hashed && t.sunk == s.sunk && t.counted == s.counted && t.visible == s.visible
  }

  lemma {:induction false} DumperLeavesWriter(cfg: Config, s: State, a: Action)
    requires !a.Expire? && !IsWriterStep(a) && DumperEnabled(cfg, s, a)
    ensures SameWrite(s, DoDumper(cfg, s, a))
  {
  }

  lemma {:induction false} DumperClosesPipe(cfg: Config, s: State, a: Action)
    requires PipeState(s) && Framed(cfg, s)
    requires !a.Expire? && !IsWriterStep(a) && DumperEnabled(cfg, s, a)
    ensures PipeState(DoDumper(cfg, s, a))
  {
    DumperLeavesWriter(cfg, s, a);
  }

  lemma {:induction false} PrefixGrows(stdout: Bytes, done: Bytes, n: nat)
    requires done <= stdout && |done| + n <= |stdout|
    ensures done + stdout[|done|..|done| + n] <= stdout
  {
  }

  lemma {:induction false} ChunkFrames(cfg: Config, s: State, n: nat)
    requires Framed(cfg, s) && s.dumper.DReading? && 1 <= n <= Remaining(cfg, s)
    ensures Framed(cfg, CopyChunk(cfg, s, n))
  {
    var done := Flatten(s.chunks);
    var c := cfg.stdout[|done|..|done| + n];
    FlattenSnoc(s.chunks, c);
    EmittedSnoc(cfg, s.chunks, c);
    PrefixGrows(cfg.stdout, done, n);
    assert !s.trailed;
    assert s.handed == Emitted(cfg, s.chunks);
    assert CopyChunk(cfg, s, n).handed == Emitted(cfg, s.chunks + [c]) + [];
  }

  lemma {:induction false} TrailerFrames(cfg: Config, s: State)
    requires Framed(cfg, s) && s.dumper.DClosing?
    ensures Framed(cfg, EmitTrailer(cfg, s))
  {
    assert !s.trailed && s.handed == Emitted(cfg, s.chunks) + [] == Emitted(cfg, s.chunks);
  }

  lemma {:induction false} DumperFrames(cfg: Config, s: State, a: Action)
    requires Framed(cfg, s) && !a.Expire? && !IsWriterStep(a) && DumperEnabled(cfg, s, a)
    ensures Framed(cfg, DoDumper(cfg, s, a))
  {
    if a.DCopyChunk? {
      ChunkFrames(cfg, s, a.n);
    } else if a.DTrailer? {
      TrailerFrames(cfg, s);
    } else {
      var t := DoDumper(cfg, s, a);
      assert t.chunks == s.chunks && t.handed == s.handed && t.trailed == s.trailed;
    }
  }

  /** The writer goroutine touches nothing of the dumper's but the bytes it takes out of the pipe. */
  lemma {:induction false} WriterLeavesDumper(cfg: Config, s: State, a: Action)
    requires IsWriterStep(a) && WriterEnabled(cfg, s, a)
    ensures SameDump(s, DoWriter(cfg, s, a))
  {
  }

  predicate SameDump(s: State, t: State) {
    && t.dumper == s.dumper && t.chunks == s.chunks && t.handed == s.handed
    && t.trailed == s.trailed && t.sawCancel == s.sawCancel && t.ctxDone == s.ctxDone
  }

  lemma {:induction false} FramedDepends(cfg: Config, s: State, t: State)
    requires Framed(cfg, s) && SameDump(s, t)
    ensures Framed(cfg, t)
  {
  }

  lemma {:induction false} StepKeepsInv(cfg: Config, s: State, a: Action)
    requires Inv(cfg, s) && Enabled(cfg, s, a)
    ensures Inv(cfg, Do(cfg, s, a))
  {
    if IsWriterStep(a) {
      WriterConserves(cfg, s, a);
      WriterShows(cfg, s, a);
      WriterLeavesDumper(cfg, s, a);
      FramedDepends(cfg, s, DoWriter(cfg, s, a));
    } else if !a.Expire? {
      DumperConserves(cfg, s, a);
      DumperShows(cfg, s, a);
      DumperFrames(cfg, s, a);
    }
  }

  lemma {:induction false} RunKeepsInv(cfg: Config, s: State, acts: seq<Action>, t: State)
    requires Inv(cfg, s) && Runs(cfg, s, acts, t)
    ensures Inv(cfg, t)
    decreases |acts|
  {
    if acts != [] {
      StepKeepsInv(cfg, s, acts[0]);
      RunKeepsInv(cfg, Do(cfg, s, acts[0]), acts[1..], t);
    }
  }

  /** `s` is reached by some schedule from the start of the run. */
  ghost predicate Reachable(cfg: Config, s: State) {
    exists acts :: Runs(cfg, Init(cfg), acts, s)
  }

  lemma {:induction false} ReachableInv(cfg: Config, s: State)
    requires Reachable(cfg, s)
    ensures Inv(cfg, s)
  {
    var acts :| Runs(cfg, Init(cfg), acts, s);
    RunKeepsInv(cfg, Init(cfg), acts, s);
  }

  /** Read by the writer but not (or not all) accepted by the file or the upload. */
  function InHand(s: State): Bytes
    requires s.sunk <= s.hashed
  {
    s.hashed[|s.sunk|..]
  }

  /**
   Stored, in hand and in the pipe: together exactly what the dumper has handed over, in
   order; the hash has seen exactly what has been read; and as long as the gzip writer may
   write, the pipe is open, so none of its writes ever fails.
   */
  lemma {:induction false} NothingLostInTransit(cfg: Config, s: State)
    requires Reachable(cfg, s)
    ensures s.sunk <= s.hashed && s.handed == s.sunk + InHand(s) + s.pending
    ensures s.handed[..|s.hashed|] == s.hashed
    ensures cfg.dest.Local? && (s.writer.WReading? || s.writer.WHolding?) ==> s.visible == Some(s.sunk)
    ensures s.counted == if cfg.dest.Local? then |s.sunk| else |s.hashed|
    ensures s.dumper.DReading? || s.pending != [] || s.dumper.DClosing? ==> s.pipe.Open?
  {
    ReachableInv(cfg, s);
  }

  /**
   If neither goroutine reports an error, the store shows the whole gzip stream under the
   run's name and the reported size and checksum are its own. It decompresses to the command's
   whole output if and only if the copy loop has read all of it; what it has not read after it
   saw the cancelled context fits into the command's stdout pipe.
   */
  lemma {:induction false} SuccessfulRunStoresTheStream(cfg: Config, s: State)
    requires CodecOk(cfg) && Reachable(cfg, s) && Joined(s)
    requires s.dumper.outcome.DumpOk? && s.writer.outcome.WriteOk?
    ensures s.visible == Some(s.handed) && s.pending == []
    ensures cfg.gunzip(s.handed) == Some(Flatten(s.chunks)) && Flatten(s.chunks) <= cfg.stdout
    ensures cfg.gunzip(s.handed) == Some(cfg.stdout) <==> Remaining(cfg, s) == 0
    ensures Remaining(cfg, s) > 0 ==> s.sawCancel && s.ctxDone && Remaining(cfg, s) <= cfg.pipeSize
    ensures s.writer.bytesWritten == |s.handed| > 0 && s.writer.checksum == cfg.hash(s.handed)
  {
    ReachableInv(cfg, s);
    assert s.handed == s.hashed + [] == s.hashed;
    if Remaining(cfg, s) == 0 {
      assert Flatten(s.chunks) == cfg.stdout;
    }
  }

  /**
   A Write that succeeds has never stored a torn stream, whatever became of the dump: Dump
   has not returned an error, and the object is a complete gzip stream of a prefix of the
   output, or empty, the latter exactly when no gzip writer was ever made.
   */
  lemma {:induction false} WriteSuccessMeansCleanEnd(cfg: Config, s: State)
    requires CodecOk(cfg) && Reachable(cfg, s) && Joined(s) && s.writer.outcome.WriteOk?
    ensures !s.dumper.outcome.DumpFailed?
    ensures s.visible == Some(s.handed) && s.writer.bytesWritten == |s.handed|
    ensures s.trailed ==> cfg.gunzip(s.handed) == Some(Flatten(s.chunks)) && Flatten(s.chunks) <= cfg.stdout
    ensures s.writer.bytesWritten == 0 <==> !s.trailed
    ensures s.dumper.outcome.DumpOk? ==> s.trailed
    ensures s.dumper.outcome.DumpCancelled? ==> !s.trailed
  {
    ReachableInv(cfg, s);
    assert s.handed == s.hashed + [] == s.hashed;
  }

  // ---- schedules, built from their last step backwards ----

  ghost predicate Leads(cfg: Config, s: State, t: State) {
    exists acts :: Runs(cfg, s, acts, t)
  }

  lemma {:induction false} LeadsNowhere(cfg: Config, s: State)
    ensures Leads(cfg, s, s)
  {
    assert Runs(cfg, s, [], s);
  }

  lemma {:induction false} LeadsVia(cfg: Config, s: State, a: Action, t: State)
    requires Enabled(cfg, s, a) && Leads(cfg, Do(cfg, s, a), t)
    ensures Leads(cfg, s, t)
  {
    var acts :| Runs(cfg, Do(cfg, s, a), acts, t);
    assert ([a] + acts)[1..] == acts;
    assert Runs(cfg, s, [a] + acts, t);
  }

  lemma {:induction false} RunsConcat(cfg: Config, s: State, xs: seq<Action>, t: State, ys: seq<Action>, u: State)
    requires Runs(cfg, s, xs, t) && Runs(cfg, t, ys, u)
    ensures Runs(cfg, s, xs + ys, u)
    decreases |xs|
  {
    if xs == [] {
      assert xs + ys == ys;
    } else {
      assert (xs + ys)[1..] == xs[1..] + ys;
      RunsConcat(cfg, Do(cfg, s, xs[0]), xs[1..], t, ys, u);
    }
  }

  lemma {:induction false} LeadsThen(cfg: Config, s: State, t: State, u: State)
    requires Leads(cfg, s, t) && Leads(cfg, t, u)
    ensures Leads(cfg, s, u)
  {
    var xs :| Runs(cfg, s, xs, t);
    var ys :| Runs(cfg, t, ys, u);
    RunsConcat(cfg, s, xs, t, ys, u);
  }

  lemma {:induction false} ReachableThen(cfg: Config, s: State, t: State)
    requires Reachable(cfg, s) && Leads(cfg, s, t)
    ensures Reachable(cfg, t)
  {
    LeadsThen(cfg, Init(cfg), s, t);
  }
}
