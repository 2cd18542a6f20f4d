/** Which listeners are registered while the accept thread is paused, said by what happened so far. */
module Pausing {
  import opened Options
  import opened Protocol

  /** What the accept thread does to registrations: it pauses, resumes or stops on an interest from the
      queue; it backs off from a listener after a resource error; or the deadline of one expires. */
  datatype ListenerOp = OnPause | OnResume | OnStop | BackedOff(l: nat) | Expired(l: nat)

  predicate IsPaused(h: seq<ListenerOp>) {
    h != [] &&
    match h[|h| - 1]
    case OnPause => true
    case OnResume => false
    case _ => IsPaused(h[..|h| - 1])
  }

  /** A listener's registration, and whether it has a retry deadline. */
  datatype Book = Book(registered: bool, waiting: bool)

  /** `deregister_all` skips a listener that has a deadline, and drops the deadline. */
  function Hushed(b: Book): Book { Book(b.registered && b.waiting, false) }

  function AfterListenerOp(b: Book, paused: bool, op: ListenerOp, l: nat): Book {
    match op
    case OnPause => if paused then b else Hushed(b)
    case OnStop => if paused then b else Hushed(b)
    case OnResume => if paused then b.(registered := true) else b
    case BackedOff(k) => if k == l then Book(false, true) else b
    case Expired(k) => if k == l && b.waiting then Book(b.registered || !paused, false) else b
  }

  /** The book of listener `l` after what happened since the start. */
  function BookOf(h: seq<ListenerOp>, l: nat): Book {
    if h == [] then Book(true, false)
    else
      var n := |h| - 1;
      AfterListenerOp(BookOf(h[..n], l), IsPaused(h[..n]), h[n], l)
  }

  lemma BookAppend(h: seq<ListenerOp>, op: ListenerOp, l: nat)
    ensures BookOf(h + [op], l) == AfterListenerOp(BookOf(h, l), IsPaused(h), op, l)
    ensures IsPaused(h + [op]) == if op.OnPause? then true else if op.OnResume? then false else IsPaused(h)
  {
    assert (h + [op])[..|h|] == h;
  }

  /** The interests behind a history, but for those that bring workers. */
  function Orders(h: seq<ListenerOp>): seq<Interest> {
    if h == [] then [] else Orders(h[..|h| - 1]) + OrderOf(h[|h| - 1])
  }

  function OrderOf(op: ListenerOp): seq<Interest> {
    match op
    case OnPause => [Pause]
    case OnResume => [Resume]
    case OnStop => [Stop]
    case _ => []
  }

  function OrdersIn(handled: seq<Interest>): seq<Interest> {
    if handled == [] then [] else OrdersIn(handled[..|handled| - 1]) + Order(handled[|handled| - 1])
  }

  function Order(i: Interest): seq<Interest> { if i.Pause? || i.Resume? || i.Stop? then [i] else [] }

  lemma OrdersAppend(h: seq<ListenerOp>, op: ListenerOp)
    ensures Orders(h + [op]) == Orders(h) + OrderOf(op)
  {
    assert (h + [op])[..|h|] == h;
  }

  lemma OrdersInAppend(handled: seq<Interest>, i: Interest)
    ensures OrdersIn(handled + [i]) == OrdersIn(handled) + Order(i)
  {
    assert (handled + [i])[..|handled|] == handled;
  }

  // ---------------------------------------------------------------- who is registered in a pause

  /** A pause that finds the thread running deregisters every listener without a deadline, and it stays
      so until a resume. */
  lemma {:induction false} PauseHushes(before: seq<ListenerOp>, since: seq<ListenerOp>, l: nat)
    requires !IsPaused(before) && !BookOf(before, l).waiting && OnResume !in since
    ensures var h := before + [OnPause] + since; IsPaused(h) && !BookOf(h, l).registered
    decreases |since|
  {
    if since == [] {
      assert before + [OnPause] + since == before + [OnPause];
      BookAppend(before, OnPause, l);
    } else {
      var n := |since| - 1;
      PauseHushes(before, since[..n], l);
      assert before + [OnPause] + since == before + [OnPause] + since[..n] + [since[n]];
      BookAppend(before + [OnPause] + since[..n], since[n], l);
    }
  }

  /** In a pause, the listener backed off, and its deadline has not expired. */
  ghost predicate LateError(h: seq<ListenerOp>, l: nat) {
    exists a :: 0 <= a < |h| && h[a] == BackedOff(l) && IsPaused(h[..a]) && NoneSince(h, a, {OnResume, Expired(l)})
  }

  /** A resume found that deadline, and registered the listener all the same; nothing changed since. */
  ghost predicate Both(h: seq<ListenerOp>, l: nat) {
    exists b :: 0 <= b < |h| && h[b] == OnResume && IsPaused(h[..b]) && LateError(h[..b], l)
                && NoneSince(h, b, {OnPause, OnStop, BackedOff(l), Expired(l)})
  }

  /** The pause after that passed over the listener because of its deadline. */
  ghost predicate Spared(h: seq<ListenerOp>, l: nat) {
    exists c :: 0 <= c < |h| && h[c] == OnPause && !IsPaused(h[..c]) && Both(h[..c], l)
                && NoneSince(h, c, {OnResume, BackedOff(l)})
  }

  predicate NoneSince(h: seq<ListenerOp>, k: nat, ops: set<ListenerOp>) {
    forall i :: k < i < |h| ==> h[i] !in ops
  }

  lemma LateErrorAppend(h: seq<ListenerOp>, op: ListenerOp, l: nat)
    ensures LateError(h + [op], l) <==>
            (op == BackedOff(l) && IsPaused(h)) || (LateError(h, l) && op !in {OnResume, Expired(l)})
  {
    var t := h + [op];
    assert t[..|h|] == h && t[|h|] == op;
    forall a | 0 <= a < |h| ensures t[..a] == h[..a] && t[a] == h[a] { }
    if op == BackedOff(l) && IsPaused(h) { assert NoneSince(t, |h|, {OnResume, Expired(l)}); }
    if LateError(h, l) && op !in {OnResume, Expired(l)} {
      var a :| 0 <= a < |h| && h[a] == BackedOff(l) && IsPaused(h[..a]) && NoneSince(h, a, {OnResume, Expired(l)});
      assert t[a] == BackedOff(l) && NoneSince(t, a, {OnResume, Expired(l)});
    }
    if LateError(t, l) {
      var a :| 0 <= a < |t| && t[a] == BackedOff(l) && IsPaused(t[..a]) && NoneSince(t, a, {OnResume, Expired(l)});
      if a < |h| { assert h[a] == BackedOff(l) && NoneSince(h, a, {OnResume, Expired(l)}); }
    }
  }

  lemma BothAppend(h: seq<ListenerOp>, op: ListenerOp, l: nat)
    ensures Both(h + [op], l) <==>
            || (op == OnResume && IsPaused(h) && LateError(h, l))
            || (Both(h, l) && op !in {OnPause, OnStop, BackedOff(l), Expired(l)})
  {
    var t, ends := h + [op], {OnPause, OnStop, BackedOff(l), Expired(l)};
    assert t[..|h|] == h && t[|h|] == op;
    forall b | 0 <= b < |h| ensures t[..b] == h[..b] && t[b] == h[b] { }
    if op == OnResume && IsPaused(h) && LateError(h, l) { assert NoneSince(t, |h|, ends); }
    if Both(h, l) && op !in ends {
      var b :| 0 <= b < |h| && h[b] == OnResume && IsPaused(h[..b]) && LateError(h[..b], l) && NoneSince(h, b, ends);
      assert t[b] == OnResume && NoneSince(t, b, ends);
    }
    if Both(t, l) {
      var b :| 0 <= b < |t| && t[b] == OnResume && IsPaused(t[..b]) && LateError(t[..b], l) && NoneSince(t, b, ends);
      if b < |h| { assert h[b] == OnResume && NoneSince(h, b, ends); }
    }
  }

  lemma SparedAppend(h: seq<ListenerOp>, op: ListenerOp, l: nat)
    ensures Spared(h + [op], l) <==>
            (op == OnPause && !IsPaused(h) && Both(h, l)) || (Spared(h, l) && op !in {OnResume, BackedOff(l)})
  {
    var t, ends := h + [op], {OnResume, BackedOff(l)};
    assert t[..|h|] == h && t[|h|] == op;
    forall c | 0 <= c < |h| ensures t[..c] == h[..c] && t[c] == h[c] { }
    if op == OnPause && !IsPaused(h) && Both(h, l) { assert NoneSince(t, |h|, ends); }
    if Spared(h, l) && op !in ends {
      var c :| 0 <= c < |h| && h[c] == OnPause && !IsPaused(h[..c]) && Both(h[..c], l) && NoneSince(h, c, ends);
      assert t[c] == OnPause && NoneSince(t, c, ends);
    }
    if Spared(t, l) {
      var c :| 0 <= c < |t| && t[c] == OnPause && !IsPaused(t[..c]) && Both(t[..c], l) && NoneSince(t, c, ends);
      if c < |h| { assert h[c] == OnPause && NoneSince(h, c, ends); }
    }
  }

  /** The exact law: in a pause, a listener is registered if and only if the pause passed it over, which
      takes a resource error in an earlier pause, and a resume and this pause before its deadline. */
  lemma {:induction false} RegisteredInPauseIff(h: seq<ListenerOp>, l: nat)
    ensures IsPaused(h) ==> (BookOf(h, l).registered <==> Spared(h, l)) && (BookOf(h, l).waiting <==> LateError(h, l))
    ensures !IsPaused(h) ==> (BookOf(h, l) == Book(true, true) <==> Both(h, l)) && !LateError(h, l) && !Spared(h, l)
    ensures IsPaused(h) ==> !Both(h, l)
    decreases |h|
  {
    if h != [] {
      var n := |h| - 1;
      var init, op := h[..n], h[n];
      RegisteredInPauseIff(init, l);
      BookAppend(init, op, l);
      LateErrorAppend(init, op, l);
      BothAppend(init, op, l);
      SparedAppend(init, op, l);
      assert h == init + [op];
    }
  }

  /** A resource error in a pause. */
  ghost predicate HadLateError(h: seq<ListenerOp>, l: nat) {
    exists a :: 0 <= a < |h| && h[a] == BackedOff(l) && IsPaused(h[..a])
  }

  lemma HadLateErrorBefore(h: seq<ListenerOp>, k: nat, l: nat)
    requires k <= |h| && HadLateError(h[..k], l)
    ensures HadLateError(h, l)
  {
    var a :| 0 <= a < k && h[..k][a] == BackedOff(l) && IsPaused(h[..k][..a]);
    assert h[..k][..a] == h[..a] && h[a] == BackedOff(l);
  }

  lemma SparedHadLateError(h: seq<ListenerOp>, l: nat)
    requires Spared(h, l)
    ensures HadLateError(h, l)
  {
    var c :| 0 <= c < |h| && Both(h[..c], l);
    BothHadLateError(h[..c], l);
    HadLateErrorBefore(h, c, l);
  }

  lemma BothHadLateError(h: seq<ListenerOp>, l: nat)
    requires Both(h, l)
    ensures HadLateError(h, l)
  {
    var b :| 0 <= b < |h| && LateError(h[..b], l);
    LateErrorWas(h[..b], l);
    HadLateErrorBefore(h, b, l);
  }

  lemma LateErrorWas(h: seq<ListenerOp>, l: nat)
    requires LateError(h, l)
    ensures HadLateError(h, l)
  {
    var a :| 0 <= a < |h| && h[a] == BackedOff(l) && IsPaused(h[..a]) && NoneSince(h, a, {OnResume, Expired(l)});
  }

  /** So without resource errors in a pause nothing is registered in a pause. */
  lemma NothingInPause(h: seq<ListenerOp>, l: nat)
    requires IsPaused(h) && !HadLateError(h, l)
    ensures !BookOf(h, l).registered
  {
    RegisteredInPauseIff(h, l);
    if Spared(h, l) { SparedHadLateError(h, l); }
  }

  /** Such a history: an error in a pause, and the next pause too soon after a resume. */
  lemma PauseMaySpare(l: nat)
    ensures var h := [OnPause, BackedOff(l), OnResume, OnPause]; IsPaused(h) && BookOf(h, l).registered
  {
    BookAppend([], OnPause, l);
    BookAppend([OnPause], BackedOff(l), l);
    BookAppend([OnPause, BackedOff(l)], OnResume, l);
    BookAppend([OnPause, BackedOff(l), OnResume], OnPause, l);
    assert [] + [OnPause] == [OnPause];
    assert [OnPause] + [BackedOff(l)] == [OnPause, BackedOff(l)];
    assert [OnPause, BackedOff(l)] + [OnResume] == [OnPause, BackedOff(l), OnResume];
    assert [OnPause, BackedOff(l), OnResume] + [OnPause] == [OnPause, BackedOff(l), OnResume, OnPause];
  }
}
