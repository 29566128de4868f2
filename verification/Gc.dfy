/** One garbage collection pass for one spec (internal/gc/gc.go:15-190). Times are nanoseconds. */
module Gc {
  import opened Common

  datatype Object = Object(size: nat, modified: int)

  /** writer.BackupObjectMeta. */
  datatype Meta = Meta(key: string, lastModified: int, size: nat)

  type Objects = map<string, Object>

  class ObjectStore {
    var objects: Objects

    constructor (objects: Objects)
      ensures this.objects == objects
    {
      this.objects := objects;
    }

    /** Deleting an absent key succeeds in both kinds of store. */
    method DeleteObject(key: string, works: bool) returns (ok: bool)
      modifies this
      ensures ok == works
      ensures objects == if works then old(objects) - {key} else old(objects)
    {
      if works {
        objects := objects - {key};
      }
      ok := works;
    }
  }

  /** A listing: every object `lists` selects, once, as it was when the listing was taken. */
  ghost predicate Snapshot(listing: seq<Meta>, objects: Objects, lists: string -> bool) {
    && (forall i, j :: 0 <= i < j < |listing| ==> listing[i].key != listing[j].key)
    && (forall i :: 0 <= i < |listing| ==>
          && listing[i].key in objects && lists(listing[i].key)
          && objects[listing[i].key] == Object(listing[i].size, listing[i].lastModified))
    && (forall k :: k in objects && lists(k) ==> exists i :: 0 <= i < |listing| && listing[i].key == k)
  }

  function EffectiveRetention(specRetention: int, globalRetention: int): int {
    if specRetention > 0 then specRetention else globalRetention
  }

  // ---- what the loop over the listing does ----

  datatype Tally = Tally(deleted: seq<Meta>, failed: seq<string>)

  function Visit(t: Tally, m: Meta, cutoff: int, works: bool): Tally {
    if m.lastModified >= cutoff then t
    else if works then t.(deleted := t.deleted + [m])
    else t.(failed := t.failed + [m.key])
  }

  function Sweep(visited: seq<Meta>, cutoff: int, works: nat -> bool): Tally {
    if visited == [] then Tally([], [])
    else
      var k := |visited| - 1;
      Visit(Sweep(visited[..k], cutoff, works), visited[k], cutoff, works(k))
  }

  lemma {:induction false} SweepSnoc(objects: seq<Meta>, i: nat, cutoff: int, works: nat -> bool)
    requires i < |objects|
    ensures Sweep(objects[..i + 1], cutoff, works) ==
      Visit(Sweep(objects[..i], cutoff, works), objects[i], cutoff, works(i))
  {
    assert objects[..i + 1][..i] == objects[..i];
  }

  function Keys(metas: seq<Meta>): set<string> {
    set i | 0 <= i < |metas| :: metas[i].key
  }

  lemma {:induction false} WithoutOneMore(objects: Objects, gone: set<string>, k: string)
    ensures objects - (gone + {k}) == objects - gone - {k}
  {
  }

  function Sizes(metas: seq<Meta>): nat {
    if metas == [] then 0 else Sizes(metas[..|metas| - 1]) + metas[|metas| - 1].size
  }

  function Always(): nat -> bool {
    _ => true
  }

  datatype Outcome = NoRetention | ListingFailed | Cancelled | SomeFailed | Completed

  datatype Report = Report(outcome: Outcome, affected: nat, sizeFreed: nat, failedDeletes: seq<string>)

  /** The listing up to the first iteration that finds the context cancelled. */
  function Visited(listing: seq<Meta>, cancelAt: nat): seq<Meta> {
    if cancelAt < |listing| then listing[..cancelAt] else listing
  }

  function ReportOf(t: Tally, cancelled: bool): Report {
    Report(if cancelled then Cancelled else if t.failed != [] then SomeFailed else Completed,
           |t.deleted|, Sizes(t.deleted), t.failed)
  }

  function Remaining(objects: Objects, dryRun: bool, t: Tally): Objects {
    if dryRun then objects else objects - Keys(t.deleted)
  }

  lemma {:induction false} VisitOneMore(objects: Objects, dryRun: bool, t: Tally, m: Meta, cutoff: int, works: bool)
    ensures var u := Visit(t, m, cutoff, works);
      var hit := m.lastModified < cutoff && works;
      && Remaining(objects, dryRun, u) ==
           (if hit && !dryRun then Remaining(objects, dryRun, t) - {m.key} else Remaining(objects, dryRun, t))
      && |u.deleted| == |t.deleted| + (if hit then 1 else 0)
      && Sizes(u.deleted) == Sizes(t.deleted) + (if hit then m.size else 0)
  {
    KeysSnoc(t.deleted, m);
    WithoutOneMore(objects, Keys(t.deleted), m.key);
  }

  class Runner {
    const spec: Spec
    const store: ObjectStore
    const effectiveRetention: int
    const dryRun: bool

    constructor (spec: Spec, store: ObjectStore, globalRetention: int, dryRun: bool)
      ensures this.spec == spec && this.store == store && this.dryRun == dryRun
      ensures effectiveRetention == EffectiveRetention(spec.retention, globalRetention)
    {
      this.spec, this.store, this.dryRun := spec, store, dryRun;
      effectiveRetention := if spec.retention > 0 then spec.retention else globalRetention;
    }

    /**
     `listed` is what ListObjects returns, None if it errs; `works(i)` whether deleting the
     i-th listed object would succeed; from iteration `cancelAt` on the context is cancelled.
     */
    method RunGC(listed: Option<seq<Meta>>, now: int, cancelAt: nat, works: nat -> bool) returns (report: Report)
      modifies store
      ensures effectiveRetention <= 0 ==> store.objects == old(store.objects) && report == Report(NoRetention, 0, 0, [])
      ensures effectiveRetention > 0 && listed.None? ==>
        store.objects == old(store.objects) && report == Report(ListingFailed, 0, 0, [])
      ensures effectiveRetention > 0 && listed.Some? ==>
        var t := Sweep(Visited(listed.value, cancelAt), now - effectiveRetention, if dryRun then Always() else works);
        && report == ReportOf(t, cancelAt < |listed.value|)
        && store.objects == Remaining(old(store.objects), dryRun, t)
    {
      if effectiveRetention <= 0 {
        return Report(NoRetention, 0, 0, []);
      }
      if listed.None? {
        return Report(ListingFailed, 0, 0, []);
      }
      var objects := listed.value;
      var cutoff := now - effectiveRetention;
      var deleteCount, failedDeletes, totalSizeFreed := 0, [], 0;
      ghost var outcomes: nat -> bool := if dryRun then Always() else works;
      ghost var t := Tally([], []);
      for i := 0 to |objects|
        invariant i <= cancelAt
        invariant t == Sweep(objects[..i], cutoff, outcomes)
        invariant deleteCount == |t.deleted|
        invariant failedDeletes == t.failed
        invariant totalSizeFreed == Sizes(t.deleted)
        invariant store.objects == Remaining(old(store.objects), dryRun, t)
      {
        if i == cancelAt {
          return Report(Cancelled, deleteCount, totalSizeFreed, failedDeletes);
        }
        var obj := objects[i];
        SweepSnoc(objects, i, cutoff, outcomes);
        VisitOneMore(old(store.objects), dryRun, t, obj, cutoff, outcomes(i));
        t := Visit(t, obj, cutoff, outcomes(i));
        assert dryRun ==> outcomes(i);
        if obj.lastModified < cutoff {
          if !dryRun {
            var ok := store.DeleteObject(obj.key, works(i));
            if !ok {
              failedDeletes := failedDeletes + [obj.key];
              continue;
            }
          }
          deleteCount := deleteCount + 1;
          totalSizeFreed := totalSizeFreed + obj.size;
        }
      }
      assert objects[..|objects|] == objects;
      var outcome := if failedDeletes != [] then SomeFailed else Completed;
      report := Report(outcome, deleteCount, totalSizeFreed, failedDeletes);
    }
  }

  lemma {:induction false} KeysSnoc(metas: seq<Meta>, m: Meta)
    ensures Keys(metas + [m]) == Keys(metas) + {m.key}
    ensures Sizes(metas + [m]) == Sizes(metas) + m.size
  {
    assert (metas + [m])[..|metas|] == metas;
    forall k ensures k in Keys(metas + [m]) <==> k in Keys(metas) + {m.key} {
      if k in Keys(metas) {
        var i :| 0 <= i < |metas| && metas[i].key == k;
        assert (metas + [m])[i].key == k;
      }
      if k == m.key {
        assert (metas + [m])[|metas|].key == k;
      }
    }
  }
}
