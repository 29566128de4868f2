/** What a garbage collection pass does to a store, for every listing, failure pattern and point of cancellation. */
module GcProperties {
  import opened Common
  import opened Gc

  predicate ExpiredAt(visited: seq<Meta>, i: int, cutoff: int) {
    0 <= i < |visited| && visited[i].lastModified < cutoff
  }

  lemma {:induction false} OneMoreExpired(visited: seq<Meta>, cutoff: int, works: nat -> bool, k: string)
    requires visited != []
    ensures var n := |visited| - 1;
      var before := visited[..n];
      (exists i: nat :: ExpiredAt(visited, i, cutoff) && works(i) && visited[i].key == k) <==>
        || (exists i: nat :: ExpiredAt(before, i, cutoff) && works(i) && before[i].key == k)
        || (visited[n].lastModified < cutoff && works(n) && visited[n].key == k)
  {
    var n := |visited| - 1;
    var before := visited[..n];
    if i: nat :| ExpiredAt(before, i, cutoff) && works(i) && before[i].key == k {
      assert ExpiredAt(visited, i, cutoff) && visited[i].key == k;
    }
    if i: nat :| ExpiredAt(visited, i, cutoff) && works(i) && visited[i].key == k {
      assert i < n ==> ExpiredAt(before, i, cutoff) && before[i].key == k;
    }
    if visited[n].lastModified < cutoff && works(n) && visited[n].key == k {
      assert ExpiredAt(visited, n, cutoff);
    }
  }

  /** Deleted are exactly the visited objects older than the cutoff whose delete succeeded; the others failed. */
  lemma {:induction false} SweepExactly(visited: seq<Meta>, cutoff: int, works: nat -> bool)
    ensures var t := Sweep(visited, cutoff, works);
      && (forall k :: k in Keys(t.deleted) <==>
            exists i: nat :: ExpiredAt(visited, i, cutoff) && works(i) && visited[i].key == k)
      && (t.failed == [] <==> forall i: nat :: ExpiredAt(visited, i, cutoff) ==> works(i))
    decreases |visited|
  {
    if visited != [] {
      var n := |visited| - 1;
      var before := visited[..n];
      SweepExactly(before, cutoff, works);
      KeysSnoc(Sweep(before, cutoff, works).deleted, visited[n]);
      assert forall i: nat :: ExpiredAt(before, i, cutoff) <==> i < n && ExpiredAt(visited, i, cutoff);
      assert ExpiredAt(visited, n, cutoff) <==> visited[n].lastModified < cutoff;
      forall k ensures k in Keys(Sweep(visited, cutoff, works).deleted) <==>
                       exists i: nat :: ExpiredAt(visited, i, cutoff) && works(i) && visited[i].key == k
      {
        OneMoreExpired(visited, cutoff, works, k);
      }
    }
  }

  // ---- bytes ----

  ghost function TotalSize(objects: Objects): nat
    decreases |objects|
  {
    if objects == map[] then 0
    else
      var k :| k in objects;
      objects[k].size + TotalSize(objects - {k})
  }

  lemma {:induction false} TotalSizeWithout(objects: Objects, k: string)
    requires k in objects
    ensures TotalSize(objects) == objects[k].size + TotalSize(objects - {k})
    decreases |objects|
  {
    var first: string :| first in objects && TotalSize(objects) == objects[first].size + TotalSize(objects - {first});
    if first != k {
      TotalSizeWithout(objects - {first}, k);
      TotalSizeWithout(objects - {k}, first);
      assert objects - {first} - {k} == objects - {k} - {first};
    }
  }

  predicate Lists(visited: seq<Meta>, objects: Objects) {
    && (forall i, j :: 0 <= i < j < |visited| ==> visited[i].key != visited[j].key)
    && (forall i :: 0 <= i < |visited| ==>
          visited[i].key in objects && objects[visited[i].key] == Object(visited[i].size, visited[i].lastModified))
  }

  /** Total size before the pass is total size after it plus totalSizeFreed. */
  lemma {:induction false} SizeConserved(visited: seq<Meta>, objects: Objects, cutoff: int, works: nat -> bool)
    requires Lists(visited, objects)
    ensures var t := Sweep(visited, cutoff, works);
      TotalSize(objects) == TotalSize(objects - Keys(t.deleted)) + Sizes(t.deleted)
    decreases |visited|
  {
    if visited == [] {
      assert objects - Keys([]) == objects;
    } else {
      var n := |visited| - 1;
      var before := visited[..n];
      SizeConserved(before, objects, cutoff, works);
      SweepExactly(before, cutoff, works);
      var t := Sweep(before, cutoff, works);
      var m := visited[n];
      KeysSnoc(t.deleted, m);
      assert m.key !in Keys(t.deleted);
      TotalSizeWithout(objects - Keys(t.deleted), m.key);
      WithoutOneMore(objects, Keys(t.deleted), m.key);
    }
  }

  predicate Distinct(metas: seq<Meta>) {
    forall i, j :: 0 <= i < j < |metas| ==> metas[i].key != metas[j].key
  }

  lemma {:induction false} DeletedOnce(visited: seq<Meta>, cutoff: int, works: nat -> bool)
    requires Distinct(visited)
    ensures var t := Sweep(visited, cutoff, works);
      |Keys(t.deleted)| == |t.deleted| && Keys(t.deleted) <= Keys(visited)
    decreases |visited|
  {
    if visited != [] {
      var n := |visited| - 1;
      var before, m := visited[..n], visited[n];
      DeletedOnce(before, cutoff, works);
      KeysSnoc(before, m);
      assert before + [m] == visited;
      assert m.key !in Keys(before);
      KeysSnoc(Sweep(before, cutoff, works).deleted, m);
    }
  }

  lemma {:induction false} CountWithout(objects: Objects, gone: set<string>)
    requires gone <= objects.Keys
    ensures |objects| == |objects - gone| + |gone|
  {
    assert objects.Keys == (objects - gone).Keys + gone;
    assert |objects.Keys| == |objects| && |(objects - gone).Keys| == |objects - gone|;
  }

  /** Number of objects, as for their sizes. */
  lemma {:induction false} CountConserved(visited: seq<Meta>, objects: Objects, cutoff: int, works: nat -> bool)
    requires Lists(visited, objects)
    ensures var t := Sweep(visited, cutoff, works);
      |objects| == |objects - Keys(t.deleted)| + |t.deleted|
  {
    DeletedOnce(visited, cutoff, works);
    assert Keys(visited) <= objects.Keys;
    CountWithout(objects, Keys(Sweep(visited, cutoff, works).deleted));
  }

  /** The failed deletes are named, each once per object visited. */
  lemma {:induction false} FailuresNamed(visited: seq<Meta>, cutoff: int, works: nat -> bool)
    ensures forall k :: k in Sweep(visited, cutoff, works).failed <==>
      exists i: nat :: i < |visited| && visited[i].lastModified < cutoff && !works(i) && visited[i].key == k
    decreases |visited|
  {
    if visited != [] {
      var n := |visited| - 1;
      var before := visited[..n];
      FailuresNamed(before, cutoff, works);
      forall k
        ensures k in Sweep(visited, cutoff, works).failed <==>
          exists i: nat :: i < |visited| && visited[i].lastModified < cutoff && !works(i) && visited[i].key == k
      {
        if i: nat :| i < |before| && before[i].lastModified < cutoff && !works(i) && before[i].key == k {
          assert visited[i] == before[i];
        }
        if i: nat :| i < |visited| && visited[i].lastModified < cutoff && !works(i) && visited[i].key == k {
          assert i < n ==> before[i] == visited[i];
        }
      }
    }
  }

  /** The delete of a visited object with this key, older than the cutoff, has failed. */
  ghost predicate FailedAt(listing: seq<Meta>, cutoff: int, cancelAt: nat, works: nat -> bool, k: string) {
    exists i: nat ::
      i < |listing| && i < cancelAt && listing[i].lastModified < cutoff && !works(i) && listing[i].key == k
  }

  /**
   What a pass reports: whether it was cancelled, failed somewhere or completed; how many objects
   and bytes are gone from the store; and which deletes failed.
   */
  lemma {:induction false} ReportExactly(objects: Objects, listing: seq<Meta>, lists: string -> bool,
                                         cutoff: int, cancelAt: nat, works: nat -> bool)
    requires Snapshot(listing, objects, lists)
    ensures var t := Sweep(Visited(listing, cancelAt), cutoff, works);
      var after, report := objects - Keys(t.deleted), ReportOf(t, cancelAt < |listing|);
      && (report.outcome == Cancelled <==> cancelAt < |listing|)
      && (report.outcome == SomeFailed <==> cancelAt >= |listing| && report.failedDeletes != [])
      && (report.outcome == Completed <==> cancelAt >= |listing| && report.failedDeletes == [])
      && |objects| == |after| + report.affected && TotalSize(objects) == TotalSize(after) + report.sizeFreed
      && forall k :: k in report.failedDeletes <==> FailedAt(listing, cutoff, cancelAt, works, k)
  {
    var visited := Visited(listing, cancelAt);
    CountConserved(visited, objects, cutoff, works);
    SizeConserved(visited, objects, cutoff, works);
    FailuresNamed(visited, cutoff, works);
    forall k ensures k in Sweep(visited, cutoff, works).failed <==> FailedAt(listing, cutoff, cancelAt, works, k) {
      VisitedFailures(listing, cutoff, cancelAt, works, k);
    }
  }

  lemma {:induction false} VisitedFailures(listing: seq<Meta>, cutoff: int, cancelAt: nat, works: nat -> bool,
                                           k: string)
    ensures var visited := Visited(listing, cancelAt);
      FailedAt(listing, cutoff, cancelAt, works, k) <==>
        exists i: nat :: i < |visited| && visited[i].lastModified < cutoff && !works(i) && visited[i].key == k
  {
    var visited := Visited(listing, cancelAt);
    if i: nat :| i < |visited| && visited[i].lastModified < cutoff && !works(i) && visited[i].key == k {
      assert visited[i] == listing[i];
    }
    if i: nat :|
      i < |listing| && i < cancelAt && listing[i].lastModified < cutoff && !works(i) && listing[i].key == k
    {
      assert visited[i] == listing[i];
    }
  }

  /**
   One pass that is not a dry run, from any snapshot: an object disappears exactly if it was
   visited before the cancellation, is older than the retention and could be deleted; the bytes
   balance; and the pass reports failure, unless cancelled, exactly if some delete failed.
   */
  lemma {:induction false} PassExactly(objects: Objects, listing: seq<Meta>, lists: string -> bool,
                                       cutoff: int, cancelAt: nat, works: nat -> bool)
    requires Snapshot(listing, objects, lists)
    ensures var t := Sweep(Visited(listing, cancelAt), cutoff, works);
      var after := objects - Keys(t.deleted);
      && (forall k :: k in objects && k !in after <==>
            exists i: nat :: i < cancelAt && ExpiredAt(listing, i, cutoff) && works(i) && listing[i].key == k)
      && TotalSize(objects) == TotalSize(after) + Sizes(t.deleted)
      && (cancelAt >= |listing| ==>
            (ReportOf(t, false).outcome.SomeFailed? <==> exists i: nat :: ExpiredAt(listing, i, cutoff) && !works(i)))
  {
    var visited := Visited(listing, cancelAt);
    SweepExactly(visited, cutoff, works);
    SizeConserved(visited, objects, cutoff, works);
    assert forall i: nat :: ExpiredAt(visited, i, cutoff) <==> i < cancelAt && ExpiredAt(listing, i, cutoff);
    forall k ensures k in Keys(Sweep(visited, cutoff, works).deleted) <==>
      exists i: nat :: i < cancelAt && ExpiredAt(listing, i, cutoff) && works(i) && listing[i].key == k
    {
      if i: nat :| i < cancelAt && ExpiredAt(listing, i, cutoff) && works(i) && listing[i].key == k {
        assert ExpiredAt(visited, i, cutoff) && visited[i].key == k;
      }
      if i: nat :| ExpiredAt(visited, i, cutoff) && works(i) && visited[i].key == k {
        assert i < cancelAt && ExpiredAt(listing, i, cutoff) && listing[i].key == k;
      }
    }
  }

  /** A pass removes only listed objects older than the cutoff; if nothing stops it, it removes all of them. */
  lemma {:induction false} PassBounds(objects: Objects, listing: seq<Meta>, lists: string -> bool,
                                      cutoff: int, cancelAt: nat, works: nat -> bool)
    requires Snapshot(listing, objects, lists)
    ensures var after := objects - Keys(Sweep(Visited(listing, cancelAt), cutoff, works).deleted);
      && (forall k :: k in objects && k !in after ==> lists(k) && objects[k].modified < cutoff)
      && (cancelAt >= |listing| && (forall i: nat :: works(i)) ==>
            forall k :: k in after ==> !(lists(k) && after[k].modified < cutoff))
  {
    PassExactly(objects, listing, lists, cutoff, cancelAt, works);
    var after := objects - Keys(Sweep(Visited(listing, cancelAt), cutoff, works).deleted);
    forall k | k in after && lists(k)
      ensures cancelAt >= |listing| && (forall i: nat :: works(i)) ==> after[k].modified >= cutoff
    {
      var i :| 0 <= i < |listing| && listing[i].key == k;
      assert ExpiredAt(listing, i, cutoff) <==> after[k].modified < cutoff;
    }
  }

  /** After a complete pass without failures, a listing of what is left has nothing older than the cutoff. */
  lemma {:induction false} NothingLeftToDelete(objects: Objects, listing: seq<Meta>, again: seq<Meta>,
                                               lists: string -> bool, cutoff: int, works: nat -> bool)
    requires Snapshot(listing, objects, lists)
    requires Snapshot(again, objects - Keys(Sweep(listing, cutoff, Always()).deleted), lists)
    ensures Sweep(again, cutoff, works) == Tally([], [])
  {
    SweepExactly(listing, cutoff, Always());
    forall i | 0 <= i < |again| ensures again[i].lastModified >= cutoff {
      var k := again[i].key;
      var j :| 0 <= j < |listing| && listing[j].key == k;
      assert !ExpiredAt(listing, j, cutoff);
    }
    NothingExpired(again, cutoff, works);
  }

  lemma {:induction false} NothingExpired(visited: seq<Meta>, cutoff: int, works: nat -> bool)
    requires forall i :: 0 <= i < |visited| ==> visited[i].lastModified >= cutoff
    ensures Sweep(visited, cutoff, works) == Tally([], [])
    decreases |visited|
  {
    if visited != [] {
      NothingExpired(visited[..|visited| - 1], cutoff, works);
    }
  }

  lemma {:induction false} AlwaysCompletes(listing: seq<Meta>, cutoff: int)
    ensures ReportOf(Sweep(listing, cutoff, Always()), false).outcome.Completed?
  {
    SweepExactly(listing, cutoff, Always());
  }

  /** Exactly the listed objects last modified before `cutoff` are gone whose delete was reached and worked. */
  ghost predicate RemovedOlder(before: Objects, after: Objects, listing: seq<Meta>, cutoff: int,
                               cancelAt: nat, works: nat -> bool) {
    && (forall k :: k in after ==> k in before && after[k] == before[k])
    && (forall k :: k in before && k !in after <==>
          exists i: nat :: i < |listing| && i < cancelAt && listing[i].lastModified < cutoff && works(i)
                           && listing[i].key == k)
  }

  lemma {:induction false} SweepRemovesOlder(objects: Objects, after: Objects, listing: seq<Meta>,
                                             lists: string -> bool, cutoff: int, cancelAt: nat, works: nat -> bool)
    requires Snapshot(listing, objects, lists)
    requires after == Remaining(objects, false, Sweep(Visited(listing, cancelAt), cutoff, works))
    ensures RemovedOlder(objects, after, listing, cutoff, cancelAt, works)
  {
    PassExactly(objects, listing, lists, cutoff, cancelAt, works);
    assert forall i: nat :: ExpiredAt(listing, i, cutoff) <==> i < |listing| && listing[i].lastModified < cutoff;
  }

  method RunListed(runner: Runner, listing: seq<Meta>, now: int, cancelAt: nat, works: nat -> bool)
    returns (report: Report)
    requires !runner.dryRun
    modifies runner.store
    ensures var t := Sweep(Visited(listing, cancelAt), now - runner.effectiveRetention, works);
      runner.store.objects == if runner.effectiveRetention > 0 then Remaining(old(runner.store.objects), false, t)
                              else old(runner.store.objects)
  {
    report := runner.RunGC(Some(listing), now, cancelAt, works);
  }

  /**
   Whose retention wins: a positive one of the spec, whatever the global value; else a positive
   global one; else nothing is removed.
   */
  method PassByRetention(spec: Spec, store: ObjectStore, globalRetention: int, listing: seq<Meta>,
                         ghost lists: string -> bool, now: int, cancelAt: nat, works: nat -> bool)
    returns (report: Report)
    requires Snapshot(listing, store.objects, lists)
    modifies store
    ensures spec.retention > 0 ==>
      RemovedOlder(old(store.objects), store.objects, listing, now - spec.retention, cancelAt, works)
    ensures spec.retention <= 0 < globalRetention ==>
      RemovedOlder(old(store.objects), store.objects, listing, now - globalRetention, cancelAt, works)
    ensures spec.retention <= 0 && globalRetention <= 0 ==> store.objects == old(store.objects)
  {
    var runner := new Runner(spec, store, globalRetention, false);
    ghost var before := store.objects;
    report := RunListed(runner, listing, now, cancelAt, works);
    if runner.effectiveRetention > 0 {
      SweepRemovesOlder(before, store.objects, listing, lists, now - runner.effectiveRetention, cancelAt, works);
    }
  }

  /** A pass that is neither cancelled nor meets a failing delete. */
  method SmoothRun(runner: Runner, listing: seq<Meta>, now: int) returns (report: Report)
    requires runner.effectiveRetention > 0
    modifies runner.store
    ensures var t := Sweep(listing, now - runner.effectiveRetention, Always());
      && report == Report(Completed, |t.deleted|, Sizes(t.deleted), [])
      && runner.store.objects == Remaining(old(runner.store.objects), runner.dryRun, t)
  {
    AlwaysCompletes(listing, now - runner.effectiveRetention);
    report := runner.RunGC(Some(listing), now, |listing|, Always());
  }

  /**
   At one clock reading a dry run leaves the store, seen in `rehearsed`, alone and reports what the
   failure-free run after it then does.
   */
  method DryRunForecasts(rehearsal: Runner, runner: Runner, now: int, listing: seq<Meta>)
    returns (dry: Report, rehearsed: Objects, actual: Report)
    requires rehearsal.store == runner.store && rehearsal.dryRun && !runner.dryRun
    requires rehearsal.effectiveRetention == runner.effectiveRetention > 0
    modifies runner.store
    ensures rehearsed == old(runner.store.objects)
    ensures dry == actual
    ensures runner.store.objects ==
      rehearsed - Keys(Sweep(listing, now - runner.effectiveRetention, Always()).deleted)
  {
    ghost var t := Sweep(listing, now - runner.effectiveRetention, Always());
    dry := SmoothRun(rehearsal, listing, now);
    assert dry == Report(Completed, |t.deleted|, Sizes(t.deleted), []);
    rehearsed := runner.store.objects;
    assert rehearsed == Remaining(old(runner.store.objects), true, t) == old(runner.store.objects);
    actual := SmoothRun(runner, listing, now);
  }

  /** A second failure-free run at the same clock reading finds nothing left to do. */
  method SecondRunDoesNothing(runner: Runner, now: int, listing: seq<Meta>, again: seq<Meta>,
                              ghost lists: string -> bool)
    returns (first: Report, second: Report)
    requires !runner.dryRun && runner.effectiveRetention > 0
    requires Snapshot(listing, runner.store.objects, lists)
    requires var t := Sweep(listing, now - runner.effectiveRetention, Always());
      Snapshot(again, runner.store.objects - Keys(t.deleted), lists)
    modifies runner.store
    ensures TotalSize(old(runner.store.objects)) == TotalSize(runner.store.objects) + first.sizeFreed
    ensures second == Report(Completed, 0, 0, [])
  {
    ghost var cutoff := now - runner.effectiveRetention;
    ghost var after := Remaining(runner.store.objects, false, Sweep(listing, cutoff, Always()));
    Forecast(runner.store.objects, listing, again, lists, cutoff);
    first := SmoothRun(runner, listing, now);
    assert runner.store.objects == after;
    second := SmoothRun(runner, again, now);
  }

  lemma {:induction false} Forecast(objects: Objects, listing: seq<Meta>, again: seq<Meta>,
                                    lists: string -> bool, cutoff: int)
    requires Snapshot(listing, objects, lists)
    requires Snapshot(again, objects - Keys(Sweep(listing, cutoff, Always()).deleted), lists)
    ensures var t := Sweep(listing, cutoff, Always());
      var after := objects - Keys(t.deleted);
      && TotalSize(objects) == TotalSize(after) + Sizes(t.deleted)
      && Sweep(again, cutoff, Always()) == Tally([], [])
      && after - Keys([]) == after
  {
    SizeConserved(listing, objects, cutoff, Always());
    NothingLeftToDelete(objects, listing, again, lists, cutoff, Always());
  }
}
