/**
 The webhook sender: a bounded queue between any number of producers and one worker
 (internal/webhook/webhook.go:141-276, 353-358).
 */
module Notifier {

  const CAPACITY: nat := 100

  datatype Item = Item(payload: nat, targetURL: string)

  /** What becomes of one Enqueue; a send on a closed channel panics even inside a select. */
  datatype Offer = NoTarget | Accepted | Dropped | Panicked

  function TargetURL(globalURL: string, specWebhook: string): string {
    if specWebhook != "" then specWebhook else globalURL
  }

  function Offered(queue: seq<Item>, closed: bool, item: Item): (Offer, seq<Item>) {
    if item.targetURL == "" then (NoTarget, queue)
    else if closed then (Panicked, queue)
    else if |queue| < CAPACITY then (Accepted, queue + [item])
    else (Dropped, queue)
  }

  datatype Worker = Receiving | Sending(item: Item) | Exited

  function InProgress(w: Worker): seq<Item> {
    if w.Sending? then [w.item] else []
  }

  class Sender {
    const globalURL: string
    var queue: seq<Item>
    var closed: bool
    var worker: Worker

    constructor (globalURL: string)
      ensures this.globalURL == globalURL && queue == [] && !closed && worker == Receiving
    {
      this.globalURL := globalURL;
      queue, closed, worker := [], false, Receiving;
    }

    method Enqueue(payload: nat, specWebhook: string) returns (result: Offer)
      modifies this`queue
      ensures (result, queue) == Offered(old(queue), closed, Item(payload, TargetURL(globalURL, specWebhook)))
      ensures result == NoTarget <==> specWebhook == "" && globalURL == ""
      ensures result == Dropped <==> (specWebhook != "" || globalURL != "") && !closed && |old(queue)| >= 100
      ensures result == Accepted ==>
        queue == old(queue) + [Item(payload, if specWebhook != "" then specWebhook else globalURL)]
      ensures result != Accepted ==> queue == old(queue)
    {
      var targetURL := globalURL;
      if specWebhook != "" {
        targetURL := specWebhook;
      }
      if targetURL == "" {
        return NoTarget;
      }
      var item := Item(payload, targetURL);
      if closed {
        return Panicked;
      }
      if |queue| < CAPACITY {
        queue := queue + [item];
        return Accepted;
      }
      return Dropped;
    }

    /**
     The worker from wherever it is, if nobody enqueues any more: it finishes the item it is
     sending, takes what is left in order, and exits.
     */
    method WorkUntilDrained() returns (processed: seq<Item>)
      requires closed && !worker.Exited?
      modifies this`queue, this`worker
      ensures processed == InProgress(old(worker)) + old(queue)
      ensures queue == [] && worker == Exited
    {
      processed := [];
      while worker != Exited
        invariant worker.Exited? ==> queue == []
        invariant processed + InProgress(worker) + queue == InProgress(old(worker)) + old(queue)
        decreases 2 * |queue| + |InProgress(worker)| + if worker.Exited? then 0 else 1
      {
        if worker.Sending? {
          processed := processed + [worker.item];
          worker := Receiving;
        } else if queue != [] {
          assert queue == [queue[0]] + queue[1..];
          worker, queue := Sending(queue[0]), queue[1..];
        } else {
          worker := Exited;
        }
      }
    }

    method Stop() returns (processed: seq<Item>)
      requires !closed && !worker.Exited?
      modifies this
      ensures closed && worker == Exited
      ensures processed == InProgress(old(worker)) + old(queue) && queue == []
    {
      closed := true;
      processed := WorkUntilDrained();
    }
  }

  // ---- producers, worker and Stop, interleaved ----

  datatype Stopping = NotCalled | Waiting | Returned

  datatype System = System(
    queue: seq<Item>,
    closed: bool,
    worker: Worker,
    stop: Stopping,
    crashed: bool,
    accepted: seq<Item>,   // in the order of their Enqueue calls
    processed: seq<Item>,  // in the order sendWithRetries returned
    offered: nat,          // Enqueue calls with a target URL
    dropped: nat)

  datatype Event =
    | Enqueue(item: Item)
    | Receive
    | Sent
    | SeeClosed
    | Stop
    | StopReturns

  const START := System([], false, Receiving, NotCalled, false, [], [], 0, 0)

  predicate Enabled(y: System, e: Event) {
    && !y.crashed
    && match e
       case Enqueue(_) => true
       case Receive => y.worker.Receiving? && y.queue != []
       case Sent => y.worker.Sending?
       case SeeClosed => y.worker.Receiving? && y.queue == [] && y.closed
       case Stop => true
       case StopReturns => y.stop.Waiting? && y.worker.Exited?
  }

  function Do(y: System, e: Event): System
    requires Enabled(y, e)
  {
    match e
    case Enqueue(item) =>
      var (offer, queue) := Offered(y.queue, y.closed, item);
      var counted := if offer.NoTarget? then y else y.(offered := y.offered + 1);
      (match offer
       case NoTarget => counted
       case Panicked => counted.(crashed := true)
       case Accepted => counted.(queue := queue, accepted := y.accepted + [item])
       case Dropped => counted.(dropped := y.dropped + 1))
    case Receive => y.(worker := Sending(y.queue[0]), queue := y.queue[1..])
    case Sent => y.(worker := Receiving, processed := y.processed + [y.worker.item])
    case SeeClosed => y.(worker := Exited)
    case Stop => if y.closed then y.(crashed := true) else y.(closed := true, stop := Waiting)
    case StopReturns => y.(stop := Returned)
  }

  predicate Happens(y: System, events: seq<Event>, z: System)
    decreases |events|
  {
    if events == [] then y == z else Enabled(y, events[0]) && Happens(Do(y, events[0]), events[1..], z)
  }

  ghost predicate Inv(y: System) {
    && y.accepted == y.processed + InProgress(y.worker) + y.queue
    && |y.queue| <= CAPACITY
    && (!y.crashed ==> y.offered == |y.accepted| + y.dropped)
    && (y.closed <==> !y.stop.NotCalled?)
    && (y.worker.Exited? ==> y.closed && y.queue == [])
    && (y.stop.Returned? ==> y.worker.Exited?)
    && (y.crashed ==> y.closed)
  }

  lemma {:induction false} StepKeepsInv(y: System, e: Event)
    requires Inv(y) && Enabled(y, e)
    ensures Inv(Do(y, e))
  {
    if e.Enqueue? {
      assert Do(y, e).queue == y.queue || Do(y, e).queue == y.queue + [e.item];
    } else if e.Receive? {
      assert y.queue == [y.queue[0]] + y.queue[1..];
    }
  }

  lemma {:induction false} HappeningKeepsInv(y: System, events: seq<Event>, z: System)
    requires Inv(y) && Happens(y, events, z)
    ensures Inv(z)
    decreases |events|
  {
    if events != [] {
      StepKeepsInv(y, events[0]);
      HappeningKeepsInv(Do(y, events[0]), events[1..], z);
    }
  }

  /**
   In every interleaving: what was accepted is what has been processed, then what is being
   processed, then what is queued, in order of acceptance; at most 100 are queued; every
   offer with a target is accepted or counted as dropped; and when Stop has returned, every
   accepted item has been processed exactly once.
   */
  lemma {:induction false} NothingLostOrReordered(events: seq<Event>, y: System)
    requires Happens(START, events, y)
    ensures y.accepted == y.processed + InProgress(y.worker) + y.queue
    ensures |y.queue| <= CAPACITY
    ensures !y.crashed ==> y.offered == |y.accepted| + y.dropped
    ensures y.stop.Returned? ==> y.processed == y.accepted
  {
    HappeningKeepsInv(START, events, y);
  }

  /**
   While the process lives, an Enqueue with a target is dropped if and only if 100 reports are
   queued, and otherwise accepted at the end of the queue; without a target it does nothing.
   */
  lemma {:induction false} DroppedIffFull(events: seq<Event>, y: System, item: Item)
    requires Happens(START, events, y) && !y.crashed && !y.closed
    ensures var z := Do(y, Enqueue(item));
      && !z.crashed
      && (z.dropped > y.dropped <==> item.targetURL != "" && |y.queue| == 100)
      && (z.accepted != y.accepted <==> item.targetURL != "" && |y.queue| < 100)
      && (z.accepted != y.accepted ==> z.accepted == y.accepted + [item] && z.queue == y.queue + [item])
      && (z.accepted == y.accepted ==> z.queue == y.queue)
  {
    HappeningKeepsInv(START, events, y);
  }

  /** Sends, or closes, a channel: what must not happen once the channel is closed. */
  predicate NeedsOpenChannel(e: Event) {
    e.Stop? || (e.Enqueue? && e.item.targetURL != "")
  }

  /**
   The process panics exactly if some Enqueue with a target URL, or a second Stop, comes after
   a Stop. The agent stops the sender before the scheduler (main.go:451-453, 474-475), so a job
   that ends in between does this.
   */
  lemma {:induction false} PanicsIff(y: System, events: seq<Event>, z: System)
    requires Happens(y, events, z) && !y.crashed
    ensures z.crashed <==>
      exists i :: 0 <= i < |events| && NeedsOpenChannel(events[i]) && (y.closed || Stop in events[..i])
    decreases |events|
  {
    if events != [] {
      var e := events[0];
      var x := Do(y, e);
      if x.crashed {
        assert NeedsOpenChannel(events[0]) && y.closed;
        assert events[1..] == [];
      } else {
        PanicsIff(x, events[1..], z);
        if z.crashed {
          var i :| 0 <= i < |events[1..]| && NeedsOpenChannel(events[1..][i]) && (x.closed || Stop in events[1..][..i]);
          assert events[i + 1] == events[1..][i];
          assert events[..i + 1] == [e] + events[1..][..i];
        }
        forall i | 0 <= i < |events| && NeedsOpenChannel(events[i]) && (y.closed || Stop in events[..i])
          ensures z.crashed
        {
          if i > 0 {
            assert events[i] == events[1..][i - 1];
            assert events[..i] == [e] + events[1..][..i - 1];
          }
        }
      }
    }
  }

  // ---- Stop returns ----

  /** Steps the worker and Stop still have to take. */
  function Outstanding(y: System): nat {
    2 * |y.queue| + |InProgress(y.worker)| + (if y.worker.Exited? then 0 else 1) + (if y.stop.Returned? then 0 else 1)
  }

  /** Once Stop has been called, the worker and Stop are never both blocked before Stop returns. */
  lemma {:induction false} StopNeverBlocks(y: System)
    requires Inv(y) && y.closed && !y.crashed && !y.stop.Returned?
    ensures exists e :: Enabled(y, e) && !NeedsOpenChannel(e) && !e.Enqueue?
  {
    var e := if y.worker.Sending? then Sent
             else if y.worker.Exited? then StopReturns
             else if y.queue != [] then Receive else SeeClosed;
    assert Enabled(y, e) && !NeedsOpenChannel(e) && !e.Enqueue?;
  }

  /**
   With no Enqueue after Stop, Stop returns: any continuation takes at most `Outstanding`
   steps, and one that cannot be continued has seen it return.
   */
  lemma {:induction false} StopReturnsEventually(y: System, events: seq<Event>, z: System)
    requires Inv(y) && y.closed && !y.crashed && Happens(y, events, z)
    requires forall i :: 0 <= i < |events| ==> !events[i].Enqueue? && !events[i].Stop?
    ensures |events| + Outstanding(z) == Outstanding(y)
    ensures (forall e :: Enabled(z, e) ==> e.Enqueue? || e.Stop?) ==> z.stop.Returned? && z.processed == z.accepted
    decreases |events|
  {
    if events == [] {
      if !z.stop.Returned? {
        StopNeverBlocks(z);
      }
    } else {
      StepKeepsInv(y, events[0]);
      StopReturnsEventually(Do(y, events[0]), events[1..], z);
    }
  }
}
