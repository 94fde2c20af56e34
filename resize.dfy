/** The resize debounce: one `resizeTimeout` slot holding the handle of the
    animation frame that will rerun `initializePage` and `checkOffsets`; every
    resize cancels the frame in the slot and requests a new one. */
module Resize {
  import opened Optional

  /** The slot, the browser's next frame handle (handles start at 1), the
      frame callbacks requested and neither cancelled nor run, and how many
      times the page has been reinitialised. */
  datatype Frames = Frames(resizeTimeout: Option<nat>, nextHandle: nat, pending: set<nat>, runs: nat)

  /** At most one callback is pending, and it is the one in the slot. */
  predicate Debounced(f: Frames)
  {
    && f.nextHandle >= 1
    && (f.resizeTimeout.Some? ==> 1 <= f.resizeTimeout.value < f.nextHandle)
    && (f.pending == {} || (f.resizeTimeout.Some? && f.pending == {f.resizeTimeout.value}))
  }

  /** `if (resizeTimeout)`: a handle is truthy unless it is zero. */
  predicate SlotSet(f: Frames)
  {
    f.resizeTimeout.Some? && f.resizeTimeout.value != 0
  }

  /** One `resize` event. */
  function Resized(f: Frames): (g: Frames)
    ensures g.runs == f.runs && g.resizeTimeout == Some(f.nextHandle)
    ensures Debounced(f) ==> Debounced(g) && g.pending == {f.nextHandle}
  {
    var kept := if SlotSet(f) then f.pending - {f.resizeTimeout.value} else f.pending;
    Frames(Some(f.nextHandle), f.nextHandle + 1, kept + {f.nextHandle}, f.runs)
  }

  /** The frame callback with handle `h` runs: the page is reinitialised and
      audited once. The slot keeps the spent handle. */
  function Fired(f: Frames, h: nat): (g: Frames)
    requires h in f.pending
    ensures g.runs == f.runs + 1 && g.resizeTimeout == f.resizeTimeout
    ensures Debounced(f) ==> Debounced(g) && g.pending == {}
  {
    f.(pending := f.pending - {h}, runs := f.runs + 1)
  }

  /** `n` resize events in a row. */
  function Burst(f: Frames, n: nat): Frames
  {
    if n == 0 then f else Resized(Burst(f, n - 1))
  }

  /** However many resizes arrive before the next frame, exactly one callback
      is left pending, the last one requested, and nothing has run. */
  lemma {:induction false} BurstLeavesOneFrame(f: Frames, n: nat)
    requires Debounced(f) && n >= 1
    ensures var g := Burst(f, n);
      && Debounced(g)
      && g.pending == {f.nextHandle + n - 1}
      && g.runs == f.runs
      && g.nextHandle == f.nextHandle + n
  {
    if n > 1 {
      BurstLeavesOneFrame(f, n - 1);
    }
  }

  /** A burst of resizes followed by the frame reinitialises the page once. */
  lemma BurstRunsOnce(f: Frames, n: nat)
    requires Debounced(f) && n >= 1
    ensures var g := Burst(f, n);
      f.nextHandle + n - 1 in g.pending
      && Fired(g, f.nextHandle + n - 1).runs == f.runs + 1
      && Fired(g, f.nextHandle + n - 1).pending == {}
  {
    BurstLeavesOneFrame(f, n);
  }

  /** The module-level slot together with the browser's frame bookkeeping. */
  class ResizeDebouncer {
    var resizeTimeout: Option<nat>
    var nextHandle: nat
    var pending: set<nat>
    var runs: nat

    function State(): Frames
      reads this
    {
      Frames(resizeTimeout, nextHandle, pending, runs)
    }

    constructor ()
      ensures State() == Frames(None, 1, {}, 0) && Debounced(State())
    {
      resizeTimeout, nextHandle, pending, runs := None, 1, {}, 0;
    }

    /** `cancelAnimationFrame(handle)`. */
    method CancelFrame(handle: nat)
      modifies this
      ensures State() == old(State()).(pending := old(pending) - {handle})
    {
      pending := pending - {handle};
    }

    /** `requestAnimationFrame(callback)`. */
    method RequestFrame() returns (handle: nat)
      modifies this
      ensures handle == old(nextHandle)
      ensures State() == old(State()).(nextHandle := old(nextHandle) + 1, pending := old(pending) + {handle})
    {
      handle := nextHandle;
      nextHandle := nextHandle + 1;
      pending := pending + {handle};
    }

    /** The `resize` listener. */
    method OnResize()
      modifies this
      ensures State() == Resized(old(State()))
    {
      if resizeTimeout.Some? && resizeTimeout.value != 0 {
        CancelFrame(resizeTimeout.value);
      }
      var handle := RequestFrame();
      resizeTimeout := Some(handle);
    }

    /** The browser runs the pending frame callback `handle`. */
    method OnFrame(handle: nat)
      requires handle in pending
      modifies this
      ensures State() == Fired(old(State()), handle)
    {
      pending := pending - {handle};
      runs := runs + 1;
    }
  }
}
