/**
 Jobs completing while garbage collection passes run: does a pass ever strip a backup of its
 metadata? (internal/scheduler/scheduler.go:331-355, internal/writer/metadata.go:32-45,
 internal/gc/gc.go:77-168)
 */
module MetadataGc {
  import opened Common
  import opened Gc
  import GcProperties
  import opened Naming
  import LocalPaths

  // ---- listing orders ----

  /** Order of code units, as in an S3 listing or between the names of one directory. */
  predicate StringLess(a: string, b: string) {
    b != "" && (a == "" || a[0] < b[0] || (a[0] == b[0] && StringLess(a[1..], b[1..])))
  }

  /** Order of filepath.Walk: directory by directory, names sorted within each. */
  predicate WalkLess(a: seq<string>, b: seq<string>) {
    && b != []
    && (a == [] || StringLess(a[0], b[0]) || (a[0] == b[0] && WalkLess(a[1..], b[1..])))
  }

  predicate SortedRemotely(listing: seq<Meta>) {
    forall i, j :: 0 <= i < j < |listing| ==> StringLess(listing[i].key, listing[j].key)
  }

  predicate SortedByWalk(listing: seq<Meta>) {
    forall i, j :: 0 <= i < j < |listing| ==>
      WalkLess(LocalPaths.Split(listing[i].key), LocalPaths.Split(listing[j].key))
  }

  predicate BackupBeforeMetadata(listing: seq<Meta>) {
    forall i, j :: 0 <= i < |listing| && 0 <= j < |listing| && listing[j].key == listing[i].key + METADATA_SUFFIX ==>
      i < j
  }

  lemma {:induction false} LessThanExtended(a: string, s: string)
    requires s != ""
    ensures StringLess(a, a + s) && !StringLess(a + s, a)
    decreases |a|
  {
    if a != "" {
      assert (a + s)[1..] == a[1..] + s;
      LessThanExtended(a[1..], s);
    }
  }

  lemma {:induction false} WalkLastExtended(front: seq<string>, a: string, s: string)
    requires s != ""
    ensures !WalkLess(front + [a + s], front + [a])
    decreases |front|
  {
    if front == [] {
      LessThanExtended(a, s);
    } else {
      assert (front + [a + s])[1..] == front[1..] + [a + s] && (front + [a])[1..] == front[1..] + [a];
      WalkLastExtended(front[1..], a, s);
      NotLessThanItself(front[0]);
    }
  }

  lemma {:induction false} NotLessThanItself(a: string)
    ensures !StringLess(a, a)
    decreases |a|
  {
    if a != "" {
      NotLessThanItself(a[1..]);
    }
  }

  lemma {:induction false} SplitExtended(key: string, s: string)
    requires Without('/', s)
    ensures var p := LocalPaths.Split(key);
      LocalPaths.Split(key + s) == p[..|p| - 1] + [p[|p| - 1] + s]
    decreases |s|
  {
    var p := LocalPaths.Split(key);
    if s == "" {
      assert key + s == key && p[|p| - 1] + s == p[|p| - 1];
    } else {
      var t := s[..|s| - 1];
      SplitExtended(key, t);
      assert (key + s)[..|key + s| - 1] == key + t && (key + s)[|key + s| - 1] == s[|s| - 1];
      assert p[|p| - 1] + t + [s[|s| - 1]] == p[|p| - 1] + s;
    }
  }

  /** Both listing orders put a backup before its metadata. */
  lemma {:induction false} ListingsPutBackupFirst(listing: seq<Meta>)
    requires SortedRemotely(listing) || SortedByWalk(listing)
    ensures BackupBeforeMetadata(listing)
  {
    forall i, j | 0 <= i < |listing| && 0 <= j < |listing| && listing[j].key == listing[i].key + METADATA_SUFFIX
      ensures i < j
    {
      var k := listing[i].key;
      LessThanExtended(k, METADATA_SUFFIX);
      SplitExtended(k, METADATA_SUFFIX);
      var p := LocalPaths.Split(k);
      assert p == p[..|p| - 1] + [p[|p| - 1]];
      WalkLastExtended(p[..|p| - 1], p[|p| - 1], METADATA_SUFFIX);
    }
  }

  /** Both orders are total, by the first difference. */
  lemma {:induction false} StringOrder(a: string, b: string)
    ensures a == b || StringLess(a, b) || StringLess(b, a)
    ensures !(StringLess(a, b) && StringLess(b, a))
    decreases |a|
  {
    if a != "" && b != "" && a[0] == b[0] {
      StringOrder(a[1..], b[1..]);
      assert a == [a[0]] + a[1..] && b == [b[0]] + b[1..];
    }
  }

  lemma {:induction false} FirstDifference(p: string, x: char, a: string, y: char, b: string)
    requires x < y
    ensures StringLess(p + [x] + a, p + [y] + b)
    decreases |p|
  {
    if p != "" {
      assert (p + [x] + a)[1..] == p[1..] + [x] + a && (p + [y] + b)[1..] == p[1..] + [y] + b;
      FirstDifference(p[1..], x, a, y, b);
    }
  }

  lemma {:induction false} WalkOrder(a: seq<string>, b: seq<string>)
    ensures a == b || WalkLess(a, b) || WalkLess(b, a)
    ensures !(WalkLess(a, b) && WalkLess(b, a))
    decreases |a|
  {
    if a != [] && b != [] {
      StringOrder(a[0], b[0]);
      NotLessThanItself(a[0]);
      if a[0] == b[0] {
        WalkOrder(a[1..], b[1..]);
        assert a == [a[0]] + a[1..] && b == [b[0]] + b[1..];
      }
    }
  }

  // ---- one pass, with failing deletes ----

  /**
   In one pass over a listing that has a backup (at i) and its not older metadata (at j), the
   metadata goes and the backup stays exactly if the metadata is visited, older than the cutoff
   and deleted although deleting the backup failed.
   */
  lemma {:induction false} PairBrokenIff(objects: Objects, listing: seq<Meta>, lists: string -> bool,
                                         cutoff: int, cancelAt: nat, works: nat -> bool, i: nat, j: nat)
    requires Snapshot(listing, objects, lists) && BackupBeforeMetadata(listing)
    requires i < |listing| && j < |listing| && listing[j].key == listing[i].key + METADATA_SUFFIX
    requires listing[i].lastModified <= listing[j].lastModified
    ensures var after := objects - Keys(Sweep(Visited(listing, cancelAt), cutoff, works).deleted);
      (listing[i].key in after && listing[j].key !in after) <==>
        j < cancelAt && listing[j].lastModified < cutoff && works(j) && !works(i)
  {
    GoneIff(objects, listing, lists, cutoff, cancelAt, works, i);
    GoneIff(objects, listing, lists, cutoff, cancelAt, works, j);
  }

  lemma {:induction false} GoneIff(objects: Objects, listing: seq<Meta>, lists: string -> bool,
                                   cutoff: int, cancelAt: nat, works: nat -> bool, i: nat)
    requires Snapshot(listing, objects, lists) && i < |listing|
    ensures listing[i].key !in objects - Keys(Sweep(Visited(listing, cancelAt), cutoff, works).deleted) <==>
      i < cancelAt && GcProperties.ExpiredAt(listing, i, cutoff) && works(i)
  {
    GcProperties.PassExactly(objects, listing, lists, cutoff, cancelAt, works);
    var k := listing[i].key;
    if m: nat :| m < cancelAt && GcProperties.ExpiredAt(listing, m, cutoff) && works(m) && listing[m].key == k {
      assert m == i;
    }
  }

  // ---- jobs and passes, interleaved ----

  datatype Pass =
    | Idle
    | Listed(listing: seq<Meta>)                                // ListObjects has returned
    | Looping(listing: seq<Meta>, cutoff: int, next: nat)       // time.Now() read, loop at `next`

  /** `used`: names of all runs so far; `writing`: being written; `written`: done, no metadata yet. */
  datatype System = System(
    clock: int,
    objects: Objects,
    used: set<string>,
    writing: set<string>,
    written: set<string>,
    pass: Pass)

  datatype Event =
    | Tick(now: int)
    | StartBackup(name: string)
    | WriteSome(name: string, size: nat)
    | FinishBackup(name: string)
    | FailBackup(name: string)
    | WriteMetadata(name: string, size: nat)
    | List(listing: seq<Meta>, lists: string -> bool)            // what the prefix of one spec selects
    | ReadClock(retention: int)
    | Visit
    | EndPass                                                    // last object, or cancelled anywhere

  predicate IsBackupName(name: string) {
    |name| >= 8 && name[|name| - 8..] == ".dump.gz"
  }

  lemma {:induction false} ObjectNamesAreBackupNames(spec: Spec, timestamp: string)
    ensures IsBackupName(ObjectName(spec, timestamp))
  {
    var name := ObjectName(spec, timestamp);
    var front := (if spec.prefix == "" then "" else TrimSlashes(spec.prefix) + "/")
      + spec.dbType + "-" + DatabasePart(spec) + "-" + timestamp;
    NameReads(spec, timestamp);
    assert name == front + ".dump.gz";
    assert name[|name| - 8..] == ".dump.gz";
  }

  ghost predicate Enabled(y: System, e: Event) {
    match e
    case Tick(now) => now >= y.clock
    case StartBackup(name) => IsBackupName(name) && name !in y.used
    case WriteSome(name, _) => name in y.writing
    case FinishBackup(name) => name in y.writing
    case FailBackup(name) => name in y.writing
    case WriteMetadata(name, _) => name in y.written
    case List(listing, lists) => y.pass.Idle? && Snapshot(listing, y.objects, lists) && BackupBeforeMetadata(listing)
    case ReadClock(retention) => y.pass.Listed? && retention > 0
    case Visit => y.pass.Looping? && y.pass.next < |y.pass.listing|
    case EndPass => !y.pass.Idle?
  }

  ghost function Do(y: System, e: Event): System
    requires Enabled(y, e)
  {
    match e
    case Tick(now) => y.(clock := now)
    case StartBackup(name) =>
      y.(objects := y.objects[name := Object(0, y.clock)], used := y.used + {name}, writing := y.writing + {name})
    case WriteSome(name, size) =>
      // a file that was deleted meanwhile stays deleted
      if name in y.objects then y.(objects := y.objects[name := Object(size, y.clock)]) else y
    case FinishBackup(name) => y.(writing := y.writing - {name}, written := y.written + {name})
    case FailBackup(name) => y.(writing := y.writing - {name}, objects := y.objects - {name})
    case WriteMetadata(name, size) =>
      y.(written := y.written - {name}, objects := y.objects[name + METADATA_SUFFIX := Object(size, y.clock)])
    case List(listing, _) => y.(pass := Listed(listing))
    case ReadClock(retention) => y.(pass := Looping(y.pass.listing, y.clock - retention, 0))
    case Visit =>
      var m := y.pass.listing[y.pass.next];
      y.(objects := if m.lastModified < y.pass.cutoff then y.objects - {m.key} else y.objects,
         pass := y.pass.(next := y.pass.next + 1))
    case EndPass => y.(pass := Idle)
  }

  /** The next `n` visits of a pass that nobody interrupts. */
  ghost function VisitAll(y: System, n: nat): (z: System)
    requires y.pass.Looping? && y.pass.next + n <= |y.pass.listing|
    ensures z.pass == y.pass.(next := y.pass.next + n)
  {
    if n == 0 then y else Do(VisitAll(y, n - 1), Visit)
  }

  /** Undisturbed, the visits of a pass with working deletes are the loop of Runner.RunGC. */
  lemma {:induction false} VisitsAreASweep(y: System, n: nat)
    requires y.pass.Looping? && y.pass.next == 0 && n <= |y.pass.listing|
    ensures VisitAll(y, n).objects ==
      Remaining(y.objects, false, Sweep(y.pass.listing[..n], y.pass.cutoff, Always()))
    decreases n
  {
    if n == 0 {
      assert y.objects - Keys([]) == y.objects;
    } else {
      var k := n - 1;
      var m, cutoff := y.pass.listing[k], y.pass.cutoff;
      VisitsAreASweep(y, k);
      SweepSnoc(y.pass.listing, k, cutoff, Always());
      VisitOneMore(y.objects, false, Sweep(y.pass.listing[..k], cutoff, Always()), m, cutoff, true);
    }
  }

  ghost predicate Happens(y: System, events: seq<Event>, z: System)
    decreases |events|
  {
    if events == [] then y == z
    else Enabled(y, events[0]) && Happens(Do(y, events[0]), events[1..], z)
  }

  /** Metadata belongs to a finished run and is never older than its backup. */
  ghost predicate PairsOrdered(y: System) {
    && (forall b {:trigger b + METADATA_SUFFIX} :: IsBackupName(b) && b + METADATA_SUFFIX in y.objects ==>
          && b in y.used && b !in y.writing
          && (b in y.objects ==> y.objects[b].modified <= y.objects[b + METADATA_SUFFIX].modified))
    && (forall k :: k in y.objects ==> y.objects[k].modified <= y.clock && (IsBackupName(k) ==> k in y.used))
    && y.writing <= y.used && y.written <= y.used && y.writing !! y.written
    && (forall b :: b in y.used ==> IsBackupName(b))
  }

  function PassListing(p: Pass): seq<Meta> {
    if p.Idle? then [] else p.listing
  }

  /** Every listed backup that the loop has passed and that was old enough is gone for good. */
  ghost predicate PassOk(y: System) {
    var listing := PassListing(y.pass);
    && BackupBeforeMetadata(listing)
    && (forall i :: 0 <= i < |listing| && IsBackupName(listing[i].key) ==> listing[i].key in y.used)
    && (forall i, j :: 0 <= i < |listing| && 0 <= j < |listing| ==>
          (IsBackupName(listing[i].key) && listing[j].key == listing[i].key + METADATA_SUFFIX ==>
            listing[i].lastModified <= listing[j].lastModified))
    && (y.pass.Looping? ==> Passed(y.objects, listing, y.pass.cutoff, y.pass.next))
  }

  ghost predicate Passed(objects: Objects, listing: seq<Meta>, cutoff: int, next: nat) {
    && next <= |listing|
    && forall i :: 0 <= i < next && IsBackupName(listing[i].key) && listing[i].lastModified < cutoff ==>
         listing[i].key !in objects
  }

  lemma {:induction false} MetadataNames(a: string, b: string)
    ensures !IsBackupName(a + METADATA_SUFFIX)
    ensures a + METADATA_SUFFIX == b + METADATA_SUFFIX ==> a == b
  {
    var s := a + METADATA_SUFFIX;
    assert s[|s| - 1] == 'n' && ".dump.gz"[7] == 'z';
    assert |s| >= 8 ==> s[|s| - 8..][7] == s[|s| - 1];
    if s == b + METADATA_SUFFIX {
      SameTail(a, METADATA_SUFFIX, b, METADATA_SUFFIX);
    }
  }

  lemma {:induction false} StepOrdersPairs(y: System, e: Event)
    requires PairsOrdered(y) && Enabled(y, e)
    ensures PairsOrdered(Do(y, e))
  {
    var z := Do(y, e);
    forall b {:trigger b + METADATA_SUFFIX} | IsBackupName(b) && b + METADATA_SUFFIX in z.objects
      ensures b in z.used && b !in z.writing
      ensures b in z.objects ==> z.objects[b].modified <= z.objects[b + METADATA_SUFFIX].modified
    {
      MetadataNames(b, b);
      if e.WriteMetadata? {
        MetadataNames(e.name, b);
      }
    }
    if e.WriteMetadata? {
      MetadataNames(e.name, e.name);
    }
  }

  lemma {:induction false} StepKeepsPassOk(y: System, e: Event)
    requires PairsOrdered(y) && PassOk(y) && Enabled(y, e)
    ensures PassOk(Do(y, e))
  {
    match e
    case WriteMetadata(name, _) => MetadataNames(name, name);
    case List(listing, lists) => ListedPairs(y, lists, listing);
    case Visit => VisitKeepsPassed(y);
    case _ =>
  }

  lemma {:induction false} ListedPairs(y: System, lists: string -> bool, listing: seq<Meta>)
    requires PairsOrdered(y) && Snapshot(listing, y.objects, lists) && BackupBeforeMetadata(listing)
    ensures PassOk(y.(pass := Listed(listing)))
  {
    forall i, j | 0 <= i < |listing| && 0 <= j < |listing| &&
                  IsBackupName(listing[i].key) && listing[j].key == listing[i].key + METADATA_SUFFIX
      ensures listing[i].lastModified <= listing[j].lastModified
    {
      assert listing[i].key + METADATA_SUFFIX in y.objects;
    }
  }

  lemma {:induction false} VisitKeepsPassed(y: System)
    requires PassOk(y) && Enabled(y, Visit)
    ensures PassOk(Do(y, Visit))
  {
    assert PassListing(Do(y, Visit).pass) == PassListing(y.pass);
  }

  ghost predicate Inv(y: System) {
    PairsOrdered(y) && PassOk(y)
  }

  lemma {:induction false} HappeningKeepsInv(y: System, events: seq<Event>, z: System)
    requires Inv(y) && Happens(y, events, z)
    ensures Inv(z) && y.used <= z.used
    ensures forall b :: IsBackupName(b) && b in y.used && b !in y.objects ==> b !in z.objects
    decreases |events|
  {
    if events != [] {
      var e := events[0];
      StepOrdersPairs(y, e);
      StepKeepsPassOk(y, e);
      if e.WriteMetadata? {
        MetadataNames(e.name, e.name);
      }
      HappeningKeepsInv(Do(y, e), events[1..], z);
    }
  }

  /**
   From a store with ordered pairs, with distinct backup names, a monotone clock and deletes that
   work: the step that removes a backup's metadata is a pass visiting it, and if that pass's
   listing has the backup, the backup is already gone and stays gone. So it does not matter where
   the pass is cancelled. Metadata written after the listing was taken is not removed at all.
   */
  lemma {:induction false} PassNeverStripsABackup(y0: System, events: seq<Event>, y: System, e: Event,
                                                  later: seq<Event>, z: System, b: string)
    requires Inv(y0) && Happens(y0, events, y) && Enabled(y, e)
    requires IsBackupName(b) && b + METADATA_SUFFIX in y.objects && b + METADATA_SUFFIX !in Do(y, e).objects
    requires Happens(Do(y, e), later, z)
    ensures e.Visit? && y.pass.listing[y.pass.next].key == b + METADATA_SUFFIX
    ensures (exists i :: 0 <= i < |y.pass.listing| && y.pass.listing[i].key == b) ==>
      b !in y.objects && b !in z.objects
  {
    HappeningKeepsInv(y0, events, y);
    MetadataNames(b, b);
    var x := Do(y, e);
    assert e.Visit?;
    var listing, j := y.pass.listing, y.pass.next;
    StepOrdersPairs(y, e);
    StepKeepsPassOk(y, e);
    if i :| 0 <= i < |listing| && listing[i].key == b {
      assert i < j;
      assert listing[i].lastModified <= listing[j].lastModified < y.pass.cutoff;
      HappeningKeepsInv(x, later, z);
    }
  }

  // ---- what happens when nothing goes wrong ----

  lemma {:induction false} HappensFirst(y: System, e: Event, rest: seq<Event>, z: System)
    requires Enabled(y, e) && Happens(Do(y, e), rest, z)
    ensures Happens(y, [e] + rest, z)
  {
    assert ([e] + rest)[1..] == rest;
  }

  /** A run that succeeds leaves its backup and its metadata, stamped with the time of writing. */
  lemma {:induction false} BackupIsStored(y: System, b: string, size: nat, metadataSize: nat, later: nat)
    returns (z: System)
    requires IsBackupName(b) && b !in y.used && b !in y.writing && b !in y.written
    ensures var now := y.clock + later;
      Happens(y, [StartBackup(b), Tick(now), WriteSome(b, size), FinishBackup(b), WriteMetadata(b, metadataSize)], z)
    ensures var now := y.clock + later;
      && z == y.(clock := now, used := y.used + {b},
                 objects := y.objects[b := Object(size, now)][b + METADATA_SUFFIX := Object(metadataSize, now)])
  {
    var now := y.clock + later;
    var y1 := Do(y, StartBackup(b));
    var y2 := Do(y1, Tick(now));
    var y3 := Do(y2, WriteSome(b, size));
    var y4 := Do(y3, FinishBackup(b));
    z := Do(y4, WriteMetadata(b, metadataSize));
    HappensFirst(y4, WriteMetadata(b, metadataSize), [], z);
    HappensFirst(y3, FinishBackup(b), [WriteMetadata(b, metadataSize)], z);
    HappensFirst(y2, WriteSome(b, size), [FinishBackup(b), WriteMetadata(b, metadataSize)], z);
    HappensFirst(y1, Tick(now), [WriteSome(b, size), FinishBackup(b), WriteMetadata(b, metadataSize)], z);
    HappensFirst(y, StartBackup(b),
                 [Tick(now), WriteSome(b, size), FinishBackup(b), WriteMetadata(b, metadataSize)], z);
    assert y3.objects == y.objects[b := Object(size, now)];
    assert z.writing == y.writing && z.written == y.written;
  }

  /** From its first moment the backup is there to be listed, empty; a run that fails takes it away again. */
  lemma {:induction false} FailureIsUndone(y: System, b: string) returns (x: System, z: System)
    requires IsBackupName(b) && b !in y.used && b !in y.writing && b !in y.objects
    ensures Happens(y, [StartBackup(b)], x) && b in x.objects && x.objects[b] == Object(0, y.clock)
    ensures Happens(x, [FailBackup(b)], z) && z == y.(used := y.used + {b})
  {
    x := Do(y, StartBackup(b));
    z := Do(x, FailBackup(b));
    HappensFirst(y, StartBackup(b), [], x);
    HappensFirst(x, FailBackup(b), [], z);
    assert z.objects == y.objects && z.writing == y.writing;
  }

  function Visits(n: nat): (events: seq<Event>)
    ensures |events| == n
  {
    if n == 0 then [] else [Visit] + Visits(n - 1)
  }

  lemma {:induction false} VisitsHappen(y: System, n: nat)
    requires y.pass.Looping? && y.pass.next + n <= |y.pass.listing|
    ensures Happens(y, Visits(n), VisitAll(y, n))
    decreases n
  {
    if n > 0 {
      VisitFirst(y, n);
      VisitsHappen(Do(y, Visit), n - 1);
      HappensFirst(y, Visit, Visits(n - 1), VisitAll(y, n));
    }
  }

  lemma {:induction false} VisitFirst(y: System, n: nat)
    requires n > 0 && y.pass.Looping? && y.pass.next + n <= |y.pass.listing|
    ensures VisitAll(y, n) == VisitAll(Do(y, Visit), n - 1)
    decreases n
  {
    if n > 1 {
      VisitFirst(y, n - 1);
    }
  }

  lemma {:induction false} VisitsTouchObjectsOnly(y: System, n: nat)
    requires y.pass.Looping? && y.pass.next + n <= |y.pass.listing|
    ensures VisitAll(y, n) == y.(objects := VisitAll(y, n).objects, pass := VisitAll(y, n).pass)
    decreases n
  {
    if n > 0 {
      VisitsTouchObjectsOnly(y, n - 1);
    }
  }

  lemma {:induction false} PassStarts(y: System, listing: seq<Meta>, lists: string -> bool, retention: int)
    requires y.pass.Idle? && Snapshot(listing, y.objects, lists) && BackupBeforeMetadata(listing) && retention > 0
    ensures Happens(y, [List(listing, lists), ReadClock(retention)],
                    y.(pass := Looping(listing, y.clock - retention, 0)))
  {
    var y1 := y.(pass := Listed(listing));
    var x := y.(pass := Looping(listing, y.clock - retention, 0));
    HappensFirst(y1, ReadClock(retention), [], x);
    HappensFirst(y, List(listing, lists), [ReadClock(retention)], x);
  }

  lemma {:induction false} LoopRuns(x: System, n: nat) returns (z: System)
    requires x.pass.Looping? && x.pass.next == 0 && n == |x.pass.listing|
    ensures Happens(x, Visits(n), z) && Enabled(z, EndPass)
    ensures Do(z, EndPass) ==
      x.(pass := Idle, objects := Remaining(x.objects, false, Sweep(x.pass.listing, x.pass.cutoff, Always())))
  {
    z := VisitAll(x, n);
    VisitsHappen(x, n);
    VisitsAreASweep(x, n);
    VisitsTouchObjectsOnly(x, n);
    assert x.pass.listing[..n] == x.pass.listing;
  }

  /** A pass that nobody interrupts leaves what Runner.RunGC leaves, and everything else as it was. */
  lemma {:induction false} PassIsARun(y: System, listing: seq<Meta>, lists: string -> bool, retention: int)
    returns (x: System, z: System)
    requires y.pass.Idle? && Snapshot(listing, y.objects, lists) && BackupBeforeMetadata(listing) && retention > 0
    ensures Happens(y, [List(listing, lists), ReadClock(retention)], x)
    ensures Happens(x, Visits(|listing|), z)
    ensures Enabled(z, EndPass) && Do(z, EndPass) ==
      y.(objects := Remaining(y.objects, false, Sweep(listing, y.clock - retention, Always())))
  {
    PassStarts(y, listing, lists, retention);
    x := y.(pass := Looping(listing, y.clock - retention, 0));
    z := LoopRuns(x, |listing|);
  }
}
