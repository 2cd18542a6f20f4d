/** The one-slot waker of local-waker. */
module LocalWake {
  import opened Options

  /** A waker, known by the task it wakes; two wakers of one task are interchangeable. */
  datatype Waker = Waker(task: nat)

  class LocalWaker {
    var waker: Option<Waker>
    /** The tasks woken through this slot so far, in order. */
    ghost var woken: seq<Waker>

    constructor ()
      ensures waker.None? && woken == []
    {
      waker, woken := None, [];
    }

    /** Stores the waker, unless the stored one wakes the same task; `true` if one was stored. */
    method Register(w: Waker) returns (registered: bool)
      modifies this`waker
      ensures waker == Some(w) && (registered <==> old(waker).Some?)
    {
      registered := false;
      if waker.Some? {
        if w == waker.value { return true; }
        registered := true;
      }
      waker := Some(w);
    }

    method Take() returns (w: Option<Waker>)
      modifies this`waker
      ensures w == old(waker) && waker.None?
    {
      w, waker := waker, None;
    }

    /** Wakes the last task registered since the last wake, if any. */
    method Wake()
      modifies this
      ensures waker.None?
      ensures woken == old(woken) + if old(waker).Some? then [old(waker).value] else []
    {
      var w := Take();
      if w.Some? { woken := woken + [w.value]; }
    }
  }
}
