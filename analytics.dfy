/** The analytics event buffer (`queueAnalyticsEvent`/`processAnalyticsQueue`):
    events wait in a FIFO queue until the tracking script has loaded, and are
    then handed to `gtag` in front batches of at most ten, one batch per idle
    callback. */
module Analytics {
  import opened Optional

  const MaxBatch: nat := 10

  /** The argument list of one `gtag(...)` call. */
  datatype Event = Event(args: seq<string>)

  function Min(a: nat, b: nat): nat
  {
    if a <= b then a else b
  }

  /** `queue.splice(0, 10)`: the batch taken off the front and what stays behind. */
  function TakeBatch(q: seq<Event>): (split: (seq<Event>, seq<Event>))
    ensures split.0 + split.1 == q
    ensures |split.0| == Min(MaxBatch, |q|)
  {
    if |q| <= MaxBatch then (q, []) else (q[..MaxBatch], q[MaxBatch..])
  }

  /** The batches a queue `q` is delivered in when nothing is added meanwhile. */
  function Batches(q: seq<Event>): (bs: seq<seq<Event>>)
    ensures forall k :: 0 <= k < |bs| ==> 1 <= |bs[k]| <= MaxBatch
    decreases |q|
  {
    if q == [] then [] else [TakeBatch(q).0] + Batches(TakeBatch(q).1)
  }

  function Flatten(bs: seq<seq<Event>>): seq<Event>
  {
    if bs == [] then [] else bs[0] + Flatten(bs[1..])
  }

  /** Draining a queue delivers every event once, in queue order, in
      `ceil(n / 10)` batches, all full except possibly the last. */
  lemma {:induction false} BatchesPartitionQueue(q: seq<Event>)
    ensures Flatten(Batches(q)) == q
    ensures |Batches(q)| == (|q| + MaxBatch - 1) / MaxBatch
    ensures forall k :: 0 <= k < |Batches(q)| - 1 ==> |Batches(q)[k]| == MaxBatch
    decreases |q|
  {
    if q != [] {
      var (batch, rest) := TakeBatch(q);
      BatchesPartitionQueue(rest);
      assert Batches(q) == [batch] + Batches(rest);
      assert Flatten(Batches(q)) == batch + Flatten(Batches(rest));
      if rest != [] {
        assert |batch| == MaxBatch;
      }
    }
  }

  /** The page's analytics state: the buffered events, the two flags, the batch
      waiting for its idle callback, and the events already handed to `gtag`. */
  class AnalyticsQueue {
    var queue: seq<Event>
    var loaded: bool
    var processing: bool
    var scheduled: Option<seq<Event>>
    var sent: seq<Event>

    /** The batch taken off the queue but not yet delivered. */
    function InFlight(): seq<Event>
      reads this
    {
      if scheduled.Some? then scheduled.value else []
    }

    /** Every event ever queued, in order: delivered, in flight, waiting. */
    function Pipeline(): seq<Event>
      reads this
    {
      sent + InFlight() + queue
    }

    /** `isProcessing` is set exactly while a non-empty batch of at most ten
        waits for its idle callback; nothing is processed before the script has
        loaded; and once it has, events wait only while a batch is in flight. */
    predicate Valid()
      reads this
    {
      && (processing <==> scheduled.Some?)
      && (scheduled.Some? ==> 1 <= |scheduled.value| <= MaxBatch)
      && (!loaded ==> !processing)
      && (loaded && !processing ==> queue == [])
    }

    constructor ()
      ensures Valid() && queue == [] && !loaded && !processing && sent == [] && Pipeline() == []
    {
      queue, loaded, processing, scheduled, sent := [], false, false, None, [];
    }

    /** `processAnalyticsQueue()`: a no-op while a batch is in flight, before the
        script has loaded, or on an empty queue; otherwise it takes the front
        batch and schedules its delivery. Either way no event is lost or moved. */
    method ProcessQueue()
      requires (processing <==> scheduled.Some?) && (scheduled.Some? ==> 1 <= |scheduled.value| <= MaxBatch)
      requires !loaded ==> !processing
      modifies this
      ensures Pipeline() == old(Pipeline()) && sent == old(sent) && loaded == old(loaded)
      ensures old(processing || !loaded || queue == []) ==> queue == old(queue) && scheduled == old(scheduled) && processing == old(processing)
      ensures !old(processing || !loaded || queue == []) ==>
        && processing
        && scheduled == Some(TakeBatch(old(queue)).0)
        && queue == TakeBatch(old(queue)).1
      ensures (processing <==> scheduled.Some?) && (scheduled.Some? ==> 1 <= |scheduled.value| <= MaxBatch)
      ensures !loaded ==> !processing
      ensures loaded && old(queue) != [] ==> processing
    {
      if processing || !loaded || |queue| == 0 {
        return;
      }
      processing := true;
      var n := Min(MaxBatch, |queue|);
      var batch := queue[..n];
      queue := queue[n..];
      scheduled := Some(batch);
    }

    /** `queueAnalyticsEvent(...args)`: appends at the back, then starts a
        flush if none is in flight and the script has loaded. */
    method QueueEvent(e: Event)
      requires Valid()
      modifies this
      ensures Valid()
      ensures Pipeline() == old(Pipeline()) + [e]
      ensures sent == old(sent) && loaded == old(loaded)
      ensures old(processing) ==> processing && scheduled == old(scheduled) && queue == old(queue) + [e]
      ensures !old(loaded) ==> queue == old(queue) + [e] && !processing
    {
      queue := queue + [e];
      if !processing && loaded {
        ProcessQueue();
      }
    }

    /** The script's `onload`: the flag is set and a flush starts. */
    method OnScriptLoad()
      requires Valid()
      modifies this
      ensures Valid() && loaded
      ensures Pipeline() == old(Pipeline()) && sent == old(sent)
      ensures old(processing) ==> queue == old(queue) && scheduled == old(scheduled)
      ensures !old(processing) && old(queue) == [] ==> !processing && queue == []
      ensures !old(processing) && old(queue) != [] ==>
        scheduled == Some(TakeBatch(old(queue)).0) && queue == TakeBatch(old(queue)).1
    {
      loaded := true;
      ProcessQueue();
    }

    /** The idle callback of the batch in flight: each event is handed to
        `gtag` in order, the flag is cleared, and the next batch is taken if
        events are waiting. */
    method IdleFlush()
      requires Valid() && scheduled.Some?
      modifies this
      ensures Valid()
      ensures Pipeline() == old(Pipeline())
      ensures sent == old(sent) + old(scheduled.value) && loaded == old(loaded)
      ensures |InFlight()| + |queue| < old(|InFlight()| + |queue|)
      ensures old(queue) == [] ==> !processing && queue == []
      ensures old(queue) != [] ==> scheduled == Some(TakeBatch(old(queue)).0) && queue == TakeBatch(old(queue)).1
    {
      var batch := scheduled.value;
      for i := 0 to |batch|
        invariant sent == old(sent) + batch[..i]
        invariant queue == old(queue) && scheduled == old(scheduled)
        invariant processing == old(processing) && loaded == old(loaded)
      {
        sent := sent + [batch[i]];
      }
      processing := false;
      scheduled := None;
      if |queue| > 0 {
        ProcessQueue();
      }
    }

    /** The browser running idle callbacks until none is pending: everything
        queued so far reaches `gtag`, in order. */
    method RunIdleCallbacks()
      requires Valid()
      modifies this
      ensures Valid() && !processing && loaded == old(loaded) && Pipeline() == old(Pipeline())
      ensures loaded ==> sent == old(Pipeline()) && queue == []
      ensures !loaded ==> sent == old(sent) && queue == old(queue)
    {
      while scheduled.Some?
        invariant Valid() && Pipeline() == old(Pipeline()) && loaded == old(loaded)
        invariant !loaded ==> sent == old(sent) && queue == old(queue)
        decreases |InFlight()| + |queue|
      {
        IdleFlush();
      }
    }
  }
}
