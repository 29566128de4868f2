/**
 One backup run between the two `go func()` statements and `wg.Wait()`
 (internal/scheduler/scheduler.go:241-304), as an interleaving of atomic steps of

  - the dumper goroutine, which runs `StreamAndGzip` (internal/dumper/dumper.go:52-140),
  - the writer goroutine, which runs `LocalWriter.Write` or `S3Writer.Write`, and
  - the deadline of the job context.

 The two goroutines meet in an `io.Pipe`: a `Write` of the pipe returns only when
 readers have taken all of its bytes, and closing the pipe with a reason sticks to the
 first reason given. Nothing ever closes the reading end.
 */
module Pipeline {
  import opened Common

  type Bytes = seq<byte>

  datatype Destination = Local | Remote

  /**
   Everything a run depends on but does not decide. `gzWrite(chunks)` is what the gzip
   writer emits while it compresses the last of `chunks`, `gzClose(chunks)` what its
   `Close` emits after them. `pipeSize` is the capacity of the operating system's pipe behind
   the command's stdout.
   */
  datatype Config = Config(
    containerID: string,
    dest: Destination,
    prior: Option<Bytes>,
    stdout: Bytes,
    pipeSize: nat,
    gzWrite: seq<Bytes> -> Bytes,
    gzClose: seq<Bytes> -> Bytes,
    gunzip: Bytes -> Option<Bytes>,
    hash: Bytes -> string)

  datatype DumpResult = DumpOk | DumpFailed | DumpCancelled | DumpPanicked

  datatype Dumper =
    | DChecking                       // the select on jobCtx.Done()
    | DPreparing                      // inside Dump, no gzip writer yet
    | DStarting                       // gzip writer made, command not started
    | DCopying                        // the copy loop, at its select
    | DReading                        // its default branch: reading stdout, then writing
    | DWaiting(copyFailed: bool)      // copy loop left, cmd.Wait() next
    | DClosing(outcome: DumpResult)   // the deferred gw.Close()
    | DTrailing(outcome: DumpResult)  // its trailer is being handed over
    | DReturned(outcome: DumpResult)  // Dump is back in the goroutine
    | DDeferring(outcome: DumpResult) // the goroutine's deferred function
    | DFinished(outcome: DumpResult)

  datatype Pipe = Open | ClosedEof | ClosedErr

  datatype WriteResult = WriteOk | WriteFailed | WriteCancelled | WritePanicked

  datatype Writer =
    | WChecking                       // the select on jobCtx.Done()
    | WOpening                        // checks, MkdirAll, os.Create / start of the upload
    | WReading                        // about to Read the pipe
    | WHolding(hand: Bytes)           // read and hashed, not yet stored
    | WCommitting                     // body read to its end, upload completing
    | WAborting                       // copy failed, os.Remove next
    | WEnded(outcome: WriteResult, bytesWritten: nat, checksum: string)

  datatype State = State(
    ctxDone: bool,
    dumper: Dumper,
    chunks: seq<Bytes>,     // arguments of gw.Write so far
    sawCancel: bool,        // the copy loop left through <-ctx.Done()
    trailed: bool,          // gw.Close() has emitted its trailer
    handed: Bytes,          // everything passed to the pipe's Write so far
    pending: Bytes,         // the part of it no Read has taken yet
    pipe: Pipe,
    writer: Writer,
    hashed: Bytes,          // what the tee has fed to the hash
    sunk: Bytes,            // what the file, or the upload, has accepted
    counted: nat,           // io.Copy's total, or the counting reader's
    visible: Option<Bytes>)  // what a reader of the store sees under the run's name

  datatype Action =
    | Expire
    | DSeeCancel | DProceed
    | DSetupFail | DSetupPanic | DSetup
    | DStartFail | DStartPanic | DStart
    | DLook | DCopyChunk(n: nat) | DCopyEof | DCopyError | DCopyCancel
    | DWait(ok: bool) | DWaitPanic
    | DTrailer | DReturn | DCloseWithError | DClose
    | WSeeCancel | WProceed
    | WOpenFail | WOpen
    | WRead(n: nat) | WReadEof | WReadError
    | WStore | WStoreFail(stored: nat)
    | WCommit(ok: bool)
    | WUploadFail
    | WAbort(removed: bool)
    | WPanic

  function Flatten(chunks: seq<Bytes>): Bytes {
    if chunks == [] then [] else Flatten(chunks[..|chunks| - 1]) + chunks[|chunks| - 1]
  }

  /** What the gzip writer has emitted before it is closed. */
  function Emitted(cfg: Config, chunks: seq<Bytes>): Bytes {
    if chunks == [] then [] else Emitted(cfg, chunks[..|chunks| - 1]) + cfg.gzWrite(chunks)
  }

  /**
   The gzip writer is correct: a closed stream decompresses to what was written, and its
   trailer (RFC 1952, section 2.3: CRC32 and ISIZE) is never empty.
   */
  ghost predicate CodecOk(cfg: Config) {
    forall chunks: seq<Bytes> ::
      && cfg.gunzip(Emitted(cfg, chunks) + cfg.gzClose(chunks)) == Some(Flatten(chunks))
      && cfg.gzClose(chunks) != []
  }

  function Init(cfg: Config): State {
    State(false, DChecking, [], false, false, [], [], Open, WChecking, [], [], 0, cfg.prior)
  }

  predicate Joined(s: State) {
    s.dumper.DFinished? && s.writer.WEnded?
  }

  function Closed(p: Pipe, how: Pipe): Pipe {
    if p.Open? then how else p
  }

  /** A step of the writer goroutine; every other step but Expire is the dumper's. */
  predicate IsWriterStep(a: Action) {
    || a.WSeeCancel? || a.WProceed? || a.WOpenFail? || a.WOpen? || a.WRead? || a.WReadEof? || a.WReadError?
    || a.WStore? || a.WStoreFail? || a.WCommit? || a.WUploadFail? || a.WAbort? || a.WPanic?
  }

  predicate Enabled(cfg: Config, s: State, a: Action) {
    if a.Expire? then !s.ctxDone
    else if IsWriterStep(a) then WriterEnabled(cfg, s, a)
    else DumperEnabled(cfg, s, a)
  }

  function Do(cfg: Config, s: State, a: Action): State
    requires Enabled(cfg, s, a)
  {
    if a.Expire? then s.(ctxDone := true)
    else if IsWriterStep(a) then DoWriter(cfg, s, a)
    else DoDumper(cfg, s, a)
  }

  /** Bytes of the command's output that no `gw.Write` has been given yet. */
  function Remaining(cfg: Config, s: State): int {
    |cfg.stdout| - |Flatten(s.chunks)|
  }

  // ---- the dumper goroutine ----

  /**
   The context that stops the copy loop also kills the command (exec.CommandContext in all four
   dumpers). So after a cancellation the command exits with status 0 only if it had already
   written everything, and what the loop has not read fits into the pipe.
   */
  predicate DumperEnabled(cfg: Config, s: State, a: Action)
    requires !a.Expire? && !IsWriterStep(a)
  {
    match a
    case DSeeCancel => s.dumper.DChecking? && s.ctxDone
    case DProceed => s.dumper.DChecking? && !s.ctxDone
    case DSetupFail | DSetupPanic | DSetup => s.dumper.DPreparing?
    case DStartFail | DStartPanic | DStart => s.dumper.DStarting?
    case DLook => s.dumper.DCopying? && s.pending == [] && !s.ctxDone
    case DCopyChunk(n) => s.dumper.DReading? && 1 <= n <= Remaining(cfg, s)
    case DCopyEof => s.dumper.DReading? && Remaining(cfg, s) <= 0
    case DCopyError => s.dumper.DReading?
    case DCopyCancel => s.dumper.DCopying? && s.pending == [] && s.ctxDone
    case DWait(ok) => s.dumper.DWaiting? && (ok && s.sawCancel ==> Remaining(cfg, s) <= cfg.pipeSize)
    case DWaitPanic => s.dumper.DWaiting?
    case DTrailer => s.dumper.DClosing?
    case DReturn => s.dumper.DTrailing? && s.pending == []
    case DCloseWithError => s.dumper.DReturned?
    case DClose => s.dumper.DDeferring?
  }

  function DoDumper(cfg: Config, s: State, a: Action): State
    requires !a.Expire? && !IsWriterStep(a) && DumperEnabled(cfg, s, a)
  {
    match a
    case DSeeCancel => s.(dumper := DDeferring(DumpCancelled))
    case DProceed => s.(dumper := DPreparing)
    case DSetupFail => s.(dumper := DReturned(DumpFailed))
    case DSetupPanic => s.(dumper := DDeferring(DumpPanicked))
    case DSetup => s.(dumper := DStarting)
    case DStartFail => s.(dumper := DClosing(DumpFailed))
    case DStartPanic => s.(dumper := DClosing(DumpPanicked))
    case DStart => s.(dumper := DCopying)
    case DLook => s.(dumper := DReading)
    case DCopyChunk(n) => CopyChunk(cfg, s, n)
    case DCopyEof => s.(dumper := DWaiting(false))
    case DCopyError => s.(dumper := DWaiting(true))
    case DCopyCancel => s.(dumper := DWaiting(false), sawCancel := true)
    case DWait(ok) =>
      s.(dumper := DClosing(if ok && !s.dumper.copyFailed then DumpOk else DumpFailed))
    case DWaitPanic => s.(dumper := DClosing(DumpPanicked))
    case DTrailer => EmitTrailer(cfg, s)
    case DReturn =>
      var r := s.dumper.outcome;
      s.(dumper := if r.DumpPanicked? then DDeferring(r) else DReturned(r))
    case DCloseWithError =>
      var r := s.dumper.outcome;
      s.(dumper := DDeferring(r), pipe := if r.DumpOk? then s.pipe else Closed(s.pipe, ClosedErr))
    case DClose => s.(dumper := DFinished(s.dumper.outcome), pipe := Closed(s.pipe, ClosedEof))
  }

  /** The next `n` bytes of output go through the gzip writer; what it emits has to be read before it returns. */
  function CopyChunk(cfg: Config, s: State, n: nat): State
    requires 1 <= n <= Remaining(cfg, s)
  {
    var from := |Flatten(s.chunks)|;
    var chunks := s.chunks + [cfg.stdout[from..from + n]];
    s.(dumper := DCopying, chunks := chunks, handed := s.handed + cfg.gzWrite(chunks), pending := cfg.gzWrite(chunks))
  }

  function EmitTrailer(cfg: Config, s: State): State
    requires s.dumper.DClosing?
  {
    var trailer := cfg.gzClose(s.chunks);
    s.(dumper := DTrailing(s.dumper.outcome), trailed := true, handed := s.handed + trailer, pending := trailer)
  }

  // ---- the writer goroutine ----

  predicate WriterEnabled(cfg: Config, s: State, a: Action)
    requires IsWriterStep(a)
  {
    match a
    case WSeeCancel => s.writer.WChecking? && s.ctxDone
    case WProceed => s.writer.WChecking? && !s.ctxDone
    case WOpenFail | WOpen => s.writer.WOpening?
    case WRead(n) => s.writer.WReading? && 1 <= n <= |s.pending|
    case WReadEof => s.writer.WReading? && s.pending == [] && s.pipe.ClosedEof?
    case WReadError => s.writer.WReading? && s.pending == [] && s.pipe.ClosedErr?
    case WStore => s.writer.WHolding?
    case WStoreFail(stored) => s.writer.WHolding? && stored <= |s.writer.hand|
    case WCommit(ok) => s.writer.WCommitting?
    case WUploadFail => cfg.dest.Remote? && (s.writer.WReading? || s.writer.WHolding?)
    case WAbort(removed) => s.writer.WAborting?
    case WPanic => !s.writer.WChecking? && !s.writer.WEnded?
  }

  function DoWriter(cfg: Config, s: State, a: Action): State
    requires IsWriterStep(a) && WriterEnabled(cfg, s, a)
  {
    match a
    case WSeeCancel => s.(writer := WEnded(WriteCancelled, 0, ""))
    case WProceed => s.(writer := WOpening)
    case WOpenFail => s.(writer := WEnded(WriteFailed, 0, ""))
    case WOpen => s.(writer := WReading, visible := if cfg.dest.Local? then Some([]) else s.visible)
    case WRead(n) => Take(cfg, s, n)
    case WReadEof =>
      if cfg.dest.Remote? then s.(writer := WCommitting) else s.(writer := Success(cfg, s))
    case WReadError => s.(writer := WAborting)
    case WStore => Sink(cfg, s, |s.writer.hand|).(writer := WReading)
    case WStoreFail(stored) => Sink(cfg, s, stored).(writer := WAborting)
    case WCommit(ok) =>
      if ok then s.(writer := Success(cfg, s), visible := Some(s.sunk))
      else s.(writer := WEnded(WriteFailed, 0, ""))
    case WUploadFail => s.(writer := WEnded(WriteFailed, 0, ""))
    case WAbort(removed) =>
      s.(writer := WEnded(WriteFailed, 0, ""),
         visible := if cfg.dest.Local? && removed then None else s.visible)
    case WPanic => s.(writer := WEnded(WritePanicked, 0, ""))
  }

  /** A Read of the pipe through the tee: `n` pending bytes are hashed and now in the writer's hand. */
  function Take(cfg: Config, s: State, n: nat): State
    requires n <= |s.pending|
  {
    var hand := s.pending[..n];
    s.(writer := WHolding(hand), pending := s.pending[n..], hashed := s.hashed + hand,
       counted := if cfg.dest.Remote? then s.counted + n else s.counted)
  }

  function Success(cfg: Config, s: State): Writer {
    WEnded(WriteOk, s.counted, cfg.hash(s.hashed))
  }

  /** The first `k` bytes in hand reach the file, which shows them at once, or the upload, which does not. */
  function Sink(cfg: Config, s: State, k: nat): State
    requires s.writer.WHolding? && k <= |s.writer.hand|
  {
    var sunk := s.sunk + s.writer.hand[..k];
    if cfg.dest.Local?
    then s.(sunk := sunk, counted := s.counted + k, visible := Some(sunk))
    else s.(sunk := sunk)
  }

  /** Some schedule leads from `s` to `t`. */
  predicate Runs(cfg: Config, s: State, acts: seq<Action>, t: State)
    decreases |acts|
  {
    if acts == [] then s == t
    else Enabled(cfg, s, acts[0]) && Runs(cfg, Do(cfg, s, acts[0]), acts[1..], t)
  }
}
