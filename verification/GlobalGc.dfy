/** The nightly pass over every registered spec (main.go:146-187). */
module GlobalGc {
  import opened Common
  import opened GoStrings
  import opened Gc
  import GcProperties
  import Naming

  datatype Kind = Local | Remote

  /** writer.GetWriter: which store a spec's destination names (internal/writer/writer.go:59-79). */
  function StoreKind(dest: string): Option<Kind> {
    var d := ToLower(dest);
    if d == "" || d == "local" then Some(Local) else if d == "remote" then Some(Remote) else None
  }

  function ListsFor(kind: Kind, prefix: string): string -> bool {
    key => if kind.Remote? then Naming.RemoteLists(prefix, key) else Naming.LocalLists(prefix, key)
  }

  /** The spec's own garbage collection selects this object at time `now`. */
  predicate Claims(spec: Spec, globalRetention: int, kind: Kind, key: string, obj: Object, now: int) {
    && spec.enabled && StoreKind(spec.dest) == Some(kind)
    && EffectiveRetention(spec.retention, globalRetention) > 0
    && ListsFor(kind, spec.prefix)(key)
    && obj.modified < now - EffectiveRetention(spec.retention, globalRetention)
  }

  /**
   What the outside world does while one spec is processed: whether the context is already
   cancelled, whether the writer can be made and lists, the clock, when the loop over the
   listing finds the context cancelled, and which deletes work.
   */
  datatype Weather = Weather(
    cancelled: bool,
    writerOk: bool,
    listingOk: bool,
    now: int,
    cancelAt: Option<nat>,
    works: nat -> bool)

  ghost predicate Fair(w: Weather) {
    !w.cancelled && w.writerOk && w.listingOk && w.cancelAt.None? && forall i: nat :: w.works(i)
  }

  /** Something may be deleted: nothing has been cancelled, the writer could be made and the listing worked. */
  predicate CanAct(w: Weather) {
    !w.cancelled && w.writerOk && w.listingOk && w.cancelAt != Some(0)
  }

  /** ListObjects of either writer, in some order. */
  method ListObjects(store: ObjectStore, lists: string -> bool) returns (listing: seq<Meta>)
    ensures Snapshot(listing, store.objects, lists)
  {
    listing := [];
    var todo := store.objects.Keys;
    while todo != {}
      invariant todo <= store.objects.Keys
      invariant forall i :: 0 <= i < |listing| ==> listing[i].key !in todo
      invariant Snapshot(listing, store.objects - todo, lists)
    {
      var k :| k in todo;
      ghost var before := store.objects - todo;
      todo := todo - {k};
      assert forall j :: j in store.objects - todo <==> j in before || j == k;
      if lists(k) {
        ghost var listed := listing;
        listing := listing + [Meta(k, store.objects[k].modified, store.objects[k].size)];
        assert listing[|listing| - 1].key == k;
        assert forall i :: 0 <= i < |listed| ==> listing[i] == listed[i];
      }
    }
    assert store.objects - {} == store.objects;
  }

  /**
   From `before` to `after`, processing `spec` has removed nothing it does not claim, nothing at all if
   something stands in its way, and, if fair, all it claims.
   */
  ghost predicate Processed(kind: Kind, before: Objects, after: Objects, spec: Spec, globalRetention: int,
                            w: Weather, fair: bool) {
    && (forall k :: k in after ==> k in before && after[k] == before[k])
    && (forall k :: k in before && k !in after ==>
          CanAct(w) && Claims(spec, globalRetention, kind, k, before[k], w.now))
    && (fair ==> forall k :: k in after ==> !Claims(spec, globalRetention, kind, k, after[k], w.now))
  }

  function CancelIndex(w: Weather, listing: seq<Meta>): nat {
    if w.cancelAt.Some? then w.cancelAt.value else |listing|
  }

  /** What a pass over `listing` that is no dry run makes of the store. */
  function Swept(objects: Objects, listing: seq<Meta>, retention: int, w: Weather): Objects {
    objects - Keys(Sweep(Visited(listing, CancelIndex(w, listing)), w.now - retention, w.works).deleted)
  }

  lemma {:induction false} PassProcesses(kind: Kind, objects: Objects, listing: seq<Meta>, spec: Spec,
                                         globalRetention: int, w: Weather)
    requires spec.enabled && StoreKind(spec.dest) == Some(kind)
    requires Snapshot(listing, objects, ListsFor(kind, spec.prefix))
    ensures var retention := EffectiveRetention(spec.retention, globalRetention);
      retention > 0 && !w.cancelled && w.writerOk && w.listingOk ==>
        Processed(kind, objects, Swept(objects, listing, retention, w), spec, globalRetention, w, Fair(w))
  {
    var cutoff := w.now - EffectiveRetention(spec.retention, globalRetention);
    GcProperties.PassBounds(objects, listing, ListsFor(kind, spec.prefix), cutoff, CancelIndex(w, listing), w.works);
    assert objects - Keys([]) == objects;
  }

  method ListFor(spec: Spec, store: ObjectStore, kind: Kind, ghost globalRetention: int, ghost w: Weather)
    returns (listing: seq<Meta>)
    requires spec.enabled && StoreKind(spec.dest) == Some(kind)
    ensures var retention := EffectiveRetention(spec.retention, globalRetention);
      retention > 0 && !w.cancelled && w.writerOk && w.listingOk ==>
        var swept := Swept(store.objects, listing, retention, w);
        Processed(kind, store.objects, swept, spec, globalRetention, w, Fair(w))
  {
    listing := ListObjects(store, ListsFor(kind, spec.prefix));
    PassProcesses(kind, store.objects, listing, spec, globalRetention, w);
  }

  method RunOnce(runner: Runner, listing: seq<Meta>, w: Weather)
    modifies runner.store
    ensures runner.store.objects ==
      if runner.effectiveRetention > 0 && w.listingOk && !runner.dryRun
      then Swept(old(runner.store.objects), listing, runner.effectiveRetention, w)
      else old(runner.store.objects)
  {
    var report := runner.RunGC(if w.listingOk then Some(listing) else None, w.now, CancelIndex(w, listing), w.works);
  }

  /** The body of runGlobalGC's loop once the cancellation check has passed. */
  method ProcessSpec(spec: Spec, store: ObjectStore, kind: Kind, globalRetention: int, dryRun: bool, w: Weather)
    requires spec.enabled && StoreKind(spec.dest) == Some(kind) && !w.cancelled
    modifies store
    ensures dryRun ==> store.objects == old(store.objects)
    ensures Processed(kind, old(store.objects), store.objects, spec, globalRetention, w, !dryRun && Fair(w))
  {
    if !w.writerOk {
      return;
    }
    var runner := new Runner(spec, store, globalRetention, dryRun);
    var listing := ListFor(spec, store, kind, globalRetention, w);
    RunOnce(runner, listing, w);
  }

  // ---- the whole registry ----

  ghost predicate ClaimedBy(registry: map<string, Spec>, ids: set<string>, globalRetention: int,
                            env: string -> Weather, kind: Kind, key: string, obj: Object) {
    exists id :: id in ids && id in registry && CanAct(env(id))
      && Claims(registry[id], globalRetention, kind, key, obj, env(id).now)
  }

  /** `after` is `before` without objects claimed by some spec in `ids`; without all of them if `fair`. */
  ghost predicate Collected(registry: map<string, Spec>, ids: set<string>, globalRetention: int,
                            env: string -> Weather, kind: Kind, before: Objects, after: Objects, fair: bool) {
    && (forall k :: k in after ==> k in before && after[k] == before[k])
    && (forall k :: k in before && k !in after ==> ClaimedBy(registry, ids, globalRetention, env, kind, k, before[k]))
    && (fair ==> forall k :: k in after ==> !ClaimedBy(registry, ids, globalRetention, env, kind, k, after[k]))
  }

  lemma {:induction false} OneMore(registry: map<string, Spec>, ids: set<string>, globalRetention: int,
                                   env: string -> Weather, kind: Kind, before: Objects, middle: Objects, after: Objects,
                                   id: string, fair: bool)
    requires Collected(registry, ids, globalRetention, env, kind, before, middle, fair)
    requires id in registry
    requires Processed(kind, middle, after, registry[id], globalRetention, env(id), fair)
    ensures Collected(registry, ids + {id}, globalRetention, env, kind, before, after, fair)
  {
  }

  ghost predicate AllFair(registry: map<string, Spec>, env: string -> Weather) {
    forall id :: id in registry ==> Fair(env(id))
  }

  /**
   Go iterates over the registry in an arbitrary order. Whatever it is, and whatever goes wrong,
   an object only disappears if some enabled spec with positive effective retention claims it in
   its store at the time it is processed; if nothing goes wrong and it is no dry run, exactly then.
   */
  method RunGlobalGC(registry: map<string, Spec>, local: ObjectStore, remote: ObjectStore,
                     globalRetention: int, dryRun: bool, env: string -> Weather)
    requires local != remote
    modifies local, remote
    ensures var fair := !dryRun && AllFair(registry, env);
      && Collected(registry, registry.Keys, globalRetention, env, Local, old(local.objects), local.objects, fair)
      && Collected(registry, registry.Keys, globalRetention, env, Remote, old(remote.objects), remote.objects, fair)
    ensures dryRun ==> local.objects == old(local.objects) && remote.objects == old(remote.objects)
  {
    ghost var fair := !dryRun && AllFair(registry, env);
    var todo := registry.Keys;
    while todo != {}
      invariant todo <= registry.Keys
      invariant Collected(registry, registry.Keys - todo, globalRetention, env, Local,
                          old(local.objects), local.objects, fair)
      invariant Collected(registry, registry.Keys - todo, globalRetention, env, Remote,
                          old(remote.objects), remote.objects, fair)
      invariant dryRun ==> local.objects == old(local.objects) && remote.objects == old(remote.objects)
    {
      var id :| id in todo;
      var spec, w := registry[id], env(id);
      ghost var ids := registry.Keys - todo;
      ghost var local0, remote0 := local.objects, remote.objects;
      todo := todo - {id};
      assert registry.Keys - todo == ids + {id};
      if spec.enabled {
        if w.cancelled {
          assert !fair;
          LoosenIds(registry, ids, registry.Keys, globalRetention, env, Local, old(local.objects), local.objects);
          LoosenIds(registry, ids, registry.Keys, globalRetention, env, Remote, old(remote.objects), remote.objects);
          return;
        }
        var kind := StoreKind(spec.dest);
        if kind == Some(Local) {
          ProcessSpec(spec, local, Local, globalRetention, dryRun, w);
        } else if kind == Some(Remote) {
          ProcessSpec(spec, remote, Remote, globalRetention, dryRun, w);
        }
      }
      OneMore(registry, ids, globalRetention, env, Local, old(local.objects), local0, local.objects, id, fair);
      OneMore(registry, ids, globalRetention, env, Remote, old(remote.objects), remote0, remote.objects, id, fair);
    }
    assert registry.Keys - {} == registry.Keys;
  }

  lemma {:induction false} LoosenIds(registry: map<string, Spec>, ids: set<string>, more: set<string>,
                                     globalRetention: int, env: string -> Weather, kind: Kind,
                                     before: Objects, after: Objects)
    requires ids <= more && Collected(registry, ids, globalRetention, env, kind, before, after, false)
    ensures Collected(registry, more, globalRetention, env, kind, before, after, false)
  {
  }

  /** So two fair nights that start alike and read the same clocks end alike, in whatever orders they went. */
  lemma {:induction false} OrderDoesNotMatter(registry: map<string, Spec>, globalRetention: int, env: string -> Weather,
                                              kind: Kind, before: Objects, one: Objects, other: Objects)
    requires Collected(registry, registry.Keys, globalRetention, env, kind, before, one, true)
    requires Collected(registry, registry.Keys, globalRetention, env, kind, before, other, true)
    ensures one == other
    ensures forall k :: k in one <==>
      k in before && !ClaimedBy(registry, registry.Keys, globalRetention, env, kind, k, before[k])
  {
    forall k
      ensures k in one <==>
        k in before && !ClaimedBy(registry, registry.Keys, globalRetention, env, kind, k, before[k])
      ensures k in other <==>
        k in before && !ClaimedBy(registry, registry.Keys, globalRetention, env, kind, k, before[k])
    {
    }
  }

  // ---- the claims, spelled out ----

  /** Older than the spec's own retention if that is positive, else than a positive global one. */
  predicate OlderThanRetention(spec: Spec, globalRetention: int, obj: Object, now: int) {
    || (spec.retention > 0 && obj.modified < now - spec.retention)
    || (spec.retention <= 0 && globalRetention > 0 && obj.modified < now - globalRetention)
  }

  /**
   Which objects a spec claims: those in the store its destination names, in any case of letters,
   that its prefix lists there and that are older than its retention.
   */
  lemma {:induction false} ClaimsIff(spec: Spec, globalRetention: int, kind: Kind, key: string, obj: Object, now: int)
    ensures Claims(spec, globalRetention, kind, key, obj, now) <==>
      && spec.enabled && OlderThanRetention(spec, globalRetention, obj, now)
      && if kind.Remote? then ToLower(spec.dest) == "remote" && spec.prefix <= key
         else ToLower(spec.dest) in {"", "local"} && Naming.LocalLists(spec.prefix, key)
  {
  }

  /** A fair night removes from the bucket exactly these objects; the local store likewise. */
  lemma {:induction false} NightlyExactly(registry: map<string, Spec>, globalRetention: int, env: string -> Weather,
                                          before: Objects, after: Objects)
    requires AllFair(registry, env)
    requires Collected(registry, registry.Keys, globalRetention, env, Remote, before, after, true)
    ensures forall k :: k in before && k !in after <==>
      && k in before
      && exists id :: id in registry && registry[id].enabled && ToLower(registry[id].dest) == "remote"
           && registry[id].prefix <= k && OlderThanRetention(registry[id], globalRetention, before[k], env(id).now)
  {
    OrderDoesNotMatter(registry, globalRetention, env, Remote, before, after, after);
    forall id, k | id in registry && k in before
      ensures Claims(registry[id], globalRetention, Remote, k, before[k], env(id).now) <==>
        registry[id].enabled && ToLower(registry[id].dest) == "remote"
        && registry[id].prefix <= k && OlderThanRetention(registry[id], globalRetention, before[k], env(id).now)
    {
      ClaimsIff(registry[id], globalRetention, Remote, k, before[k], env(id).now);
    }
  }
}
