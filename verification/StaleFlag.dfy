/** Runs of the accept thread that go wrong, because a dead worker announces itself after its handle
    is gone. */
module StaleFlag {
  import opened Options
  import opened Protocol
  import opened ProtocolProofs
  import opened ProtocolTheorems
  import opened AcceptSteps
  import opened AcceptSearch
  import opened LimitRuns
  import opened ConnectionLimit

  /** `accept_one` can be called without any worker: the source indexes an empty vector. */
  lemma PanicIsReachable(limit: nat, sockets: nat)
    requires limit > 1 && sockets > 0
    ensures exists t :: Leads(Start(limit, 1, sockets), t, 1) && t.placing.Looking? && t.handles == []
  {
    var s0 := Start(limit, 1, sockets);
    var s := OnlyWorkerGone(limit, sockets);
    var t := NoticeThenConnection(s, 0);
    LeadsOn(s0, s, t, 1, 0);
  }

  /** A notification is read, and one more connection arrives. */
  lemma NoticeThenConnection(s: State, v: nat) returns (t: State)
    requires Still(s) && v < |s.workers| && s.workers[v].due > 0
    ensures Leads(s, t, 0) && t.placing.Looking? && t.handles == s.handles && t.next == s.next
    ensures t.bits == s.bits + {s.workers[v].idx}
  {
    NoticeIsRead(s, v);
    var w := s.workers[v];
    var u := s.(workers := s.workers[v := w.(due := w.due - 1)], bits := s.bits + {w.idx},
                signalled := false, awake := true, draining := true);
    TakesUp(u, Conn(1, 0));
    t := u.(listeners := u.listeners[0 := Listener(0, true, true)], serving := Some(0), placing := Looking(Conn(1, 0)));
    LeadsOn(s, u, t, 0, 0);
  }

  /** The refused connection is forced on a worker that is full, and the thread comes to rest. */
  lemma ForcedToRest(s: State) returns (t: State)
    requires s.send.Free? && s.placing.Looking? && s.bits == {} && s.next < |s.handles| && s.serving == Some(0)
    requires forall h :: h in s.handles ==> Has(s, h, s.limit) && s.workers[h.wid].alive && s.limit > 0
    requires s.queue == [] && !s.awake && !s.draining && s.taken == {}
    requires s.listeners != [] && s.listeners[0] == Listener(0, false, true)
    ensures Leads(s, t, 0) && Still(t) && t.handles == s.handles && t.bits == {} && t.next < |t.handles|
    ensures |t.workers| == |s.workers|
    ensures forall w :: 0 <= w < |s.workers| ==>
              t.workers[w].due == s.workers[w].due && t.workers[w].idx == s.workers[w].idx
  {
    LeadsNowhere(s);
    var a := s.(next := NextIndex(s.next, |s.handles|), placing := Forcing(s.placing.conn));
    assert Next(s, Skip) == a;
    OneStep(s, s, 0, Skip);
    var h := a.handles[a.next];
    assert h in s.handles && Has(s, h, s.limit);
    var b := Next(a, Inc);
    OneStep(s, a, 0, Inc);
    var c := Next(b, Put);
    OneStep(s, b, 0, Put);
    assert c.send == Landed(h, false);
    var d := Next(c, Settle);
    OneStep(s, c, 0, Settle);
    t := Next(d, Leave);
    OneStep(s, d, 0, Leave);
  }

  /** The server reaches a state in which the search of `accept_one` goes round for ever: all workers
      are filled but for one place; its worker serves a connection and dies; the next connection is
      refused there while that connection ends, and is forced on another worker; then the
      notification of the dead worker is read, and one more connection arrives. */
  lemma SpinningIsReachable(limit: nat, threads: nat, sockets: nat)
    requires limit > 1 && threads > 1 && sockets > 0
    ensures exists t :: Leads(Start(limit, threads, sockets), t, 1) && Spinning(t) && t.next < |t.handles|
                        && !SearchEnds(t.handles, t.next, t.bits, Dead(t))
  {
    var s0 := Start(limit, threads, sockets);
    var s, k, a := DiesServing(limit, threads, sockets);
    var h := s.handles[k];
    RefusesLate(a);
    var b := DroppedLate(a);
    LeadsOn(s0, a, b, 1, 0);
    OthersStillFull(s, k, b);
    var c := ForcedToRest(b);
    LeadsOn(s0, b, c, 1, 0);
    var t := NoticeWithoutHandle(c, h.wid);
    LeadsOn(s0, c, t, 1, 0);
    LeadsInv(limit, threads, sockets, t, 1);
    DistinctHandles(t);
    StaleFlagSpins(t.handles, t.next, t.bits, Dead(t));
  }

  lemma OthersStillFull(s: State, k: nat, c: State)
    requires LastPlace(s, k) && |s.handles| >= 2 && c.limit == s.limit && |c.workers| == |s.workers|
    requires c.handles == SwapRemove(s.handles, k) && s.handles[k].wid < |s.workers|
    requires forall w :: 0 <= w < |s.workers| && w != s.handles[k].wid ==> c.workers[w] == s.workers[w]
    ensures forall h :: h in c.handles ==>
              Has(c, h, c.limit) && c.workers[h.wid].alive && h.idx != s.handles[k].idx
  {
    forall h | h in c.handles ensures Has(c, h, c.limit) && c.workers[h.wid].alive && h.idx != s.handles[k].idx {
      var j :| 0 <= j < |c.handles| && c.handles[j] == h;
      var i := if j == k then |s.handles| - 1 else j;
      assert i != k && s.handles[i] == h && Has(s, h, s.limit) && h in s.handles && Marks(s, h);
      assert s.handles[i].wid != s.handles[k].wid && s.handles[i].idx != s.handles[k].idx;
    }
  }

  /** A notification is read whose id has no handle, and one more connection arrives. */
  lemma NoticeWithoutHandle(s: State, v: nat) returns (t: State)
    requires Still(s) && v < |s.workers| && s.workers[v].due > 0 && s.bits == {} && s.next < |s.handles|
    requires forall h :: h in s.handles ==> h.idx != s.workers[v].idx
    ensures Leads(s, t, 0) && Spinning(t) && t.next < |t.handles|
  {
    t := NoticeThenConnection(s, v);
  }
}
