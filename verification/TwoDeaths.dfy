/** With a limit of one it takes two deaths to stop the accept thread for good: a connection is forced
    on a worker whose notification is on its way, which is then marked while it is full. */
module TwoDeaths {
  import opened Options
  import opened Protocol
  import opened ProtocolProofs
  import opened ProtocolTheorems
  import opened AcceptSteps
  import opened AcceptSearch
  import opened LimitRuns
  import opened ConnectionLimit
  import opened StaleFlag

  /** A worker that lives, with one connection in its channel, and nothing received yet. */
  predicate Waits(w: Worker) {
    w.alive && w.raw == 2 && |w.got| == 1 && w.taken == 0 && w.guards == 0 && w.due == 0
  }

  ghost predicate AllWait(s: State) {
    && Distinct(s.handles) && s.limit == 1
    && forall h :: h in s.handles ==> h.wid < |s.workers| && s.workers[h.wid].idx == h.idx && Waits(s.workers[h.wid])
  }

  /** A connection was refused, no flag is left, and all workers are full. */
  ghost predicate Refusal(s: State) {
    && AllWait(s) && s.next < |s.handles|
    && s.send.Free? && s.placing.Looking? && s.bits == {} && s.serving == Some(0)
    && s.queue == [] && !s.awake && !s.draining && s.taken == {}
    && s.listeners != [] && s.listeners[0] == Listener(0, false, true)
  }

  /** The worker that the connection will be forced on. */
  function Target(s: State): Handle
    requires s.next < |s.handles|
  {
    s.handles[NextIndex(s.next, |s.handles|)]
  }

  function With(s: State, h: Handle, w: Worker): State
    requires h.wid < |s.workers|
  {
    s.(workers := s.workers[h.wid := w])
  }

  lemma WithTwice(s: State, h: Handle, v: Worker, w: Worker)
    requires h.wid < |s.workers|
    ensures With(With(s, h, v), h, w) == With(s, h, w)
  {
    assert s.workers[h.wid := v][h.wid := w] == s.workers[h.wid := w];
  }

  /** A worker receives a connection. */
  lemma ReceivesOne(s: State, h: Handle)
    requires h.wid < |s.workers|
    requires var w := s.workers[h.wid]; w.alive && w.taken < |w.got|
    ensures var w := s.workers[h.wid];
            Leads(s, With(s, h, w.(taken := w.taken + 1, guards := w.guards + 1)), 0)
  {
    var w := s.workers[h.wid];
    LeadsNowhere(s);
    assert Next(s, Receive(h.wid)) == With(s, h, w.(taken := w.taken + 1, guards := w.guards + 1));
    OneStep(s, s, 0, Receive(h.wid));
  }

  /** A full worker is done with its connection, so that a notification is due. */
  lemma DropMakesRoom(s: State, h: Handle)
    requires s.limit == 1 && h.wid < |s.workers|
    requires var w := s.workers[h.wid]; w.raw == 2 && w.guards == 1 && w.due == 0
    ensures Leads(s, With(s, h, s.workers[h.wid].(raw := 1, guards := 0, due := 1)), 0)
  {
    LeadsNowhere(s);
    assert AfterDrop(s, h.wid) == With(s, h, s.workers[h.wid].(raw := 1, guards := 0, due := 1));
    OneStep(s, s, 0, DropGuard(h.wid));
  }

  lemma ServesItsOne(s: State, h: Handle)
    requires s.limit == 1 && h.wid < |s.workers| && Waits(s.workers[h.wid])
    ensures Leads(s, With(s, h, s.workers[h.wid].(raw := 1, taken := 1, due := 1)), 0)
  {
    var w := s.workers[h.wid];
    var v, u := w.(taken := 1, guards := 1), w.(raw := 1, taken := 1, due := 1);
    ReceivesOne(s, h);
    DropMakesRoom(With(s, h, v), h);
    WithTwice(s, h, v, u);
    LeadsOn(s, With(s, h, v), With(s, h, u), 0, 0);
  }

  /** The connection is forced on it, and the thread comes to rest. */
  lemma ForcedOn(s: State, h: Handle, conn: Conn)
    requires s.limit == 1 && s.next < |s.handles| && s.handles[s.next] == h && h.wid < |s.workers|
    requires s.send.Free? && s.placing == Forcing(conn) && s.bits == {} && s.serving == Some(0) && s.listeners != []
    requires s.workers[h.wid].alive && s.workers[h.wid].raw == 1
    ensures var w := s.workers[h.wid];
            Leads(s, With(s, h, w.(raw := 2, got := w.got + [conn])).(
                       deliveries := s.deliveries + [Delivery(conn, h.wid)],
                       next := NextIndex(s.next, |s.handles|), placing := Nothing, serving := None), 0)
  {
    var w := s.workers[h.wid];
    LeadsNowhere(s);
    var a := With(s, h, w.(raw := 2)).(send := Counted(h, conn, true));
    assert Next(s, Inc) == a;
    OneStep(s, s, 0, Inc);
    var b := With(s, h, w.(raw := 2, got := w.got + [conn])).(
      deliveries := s.deliveries + [Delivery(conn, h.wid)], send := Landed(h, true));
    WithTwice(s, h, w.(raw := 2), w.(raw := 2, got := w.got + [conn]));
    assert Next(a, Put) == b;
    OneStep(s, a, 0, Put);
    var c := b.(next := NextIndex(s.next, |s.handles|), send := Free, placing := Nothing);
    assert s.bits - {h.idx} == s.bits;
    assert Next(b, Settle) == c;
    OneStep(s, b, 0, Settle);
    assert Next(c, Leave) == c.(serving := None);
    OneStep(s, c, 0, Leave);
  }

  /** While one worker is full and another notification of it is due. */
  lemma ForcedWhileDue(s: State) returns (t: State)
    requires Refusal(s)
    ensures Leads(s, t, 0) && Still(t) && t.next < |t.handles|
    ensures var h := Target(s);
            && h in s.handles && var w := s.workers[h.wid];
            t == With(s, h, w.(taken := 1, got := w.got + [s.placing.conn], due := 1)).(
                   deliveries := t.deliveries, next := t.next, placing := Nothing, serving := None)
  {
    var h, conn := Target(s), s.placing.conn;
    var w := s.workers[h.wid];
    LeadsNowhere(s);
    var a := s.(next := NextIndex(s.next, |s.handles|), placing := Forcing(conn));
    assert Next(s, Skip) == a;
    OneStep(s, s, 0, Skip);
    ServesItsOne(a, h);
    var v := w.(raw := 1, taken := 1, due := 1);
    var b := With(a, h, v);
    LeadsOn(s, a, b, 0, 0);
    ForcedOn(b, h, conn);
    var u := v.(raw := 2, got := v.got + [conn]);
    WithTwice(a, h, v, u);
    t := With(a, h, u).(deliveries := a.deliveries + [Delivery(conn, h.wid)],
                        next := NextIndex(a.next, |a.handles|), placing := Nothing, serving := None);
    LeadsOn(s, b, t, 0, 0);
  }

  /** The worker takes the connection, and its notification is read although it is full. */
  lemma MarkedWhileFull(s: State, h: Handle)
    requires Still(s) && s.bits == {} && h.wid < |s.workers|
    requires var w := s.workers[h.wid]; w.alive && w.due == 1 && w.taken == 1 && |w.got| == 2 && w.guards == 0
    ensures Leads(s, With(s, h, s.workers[h.wid].(taken := 2, guards := 1, due := 0)).(
                       bits := {s.workers[h.wid].idx}, signalled := false), 0)
  {
    var w := s.workers[h.wid];
    var v := w.(taken := 2, guards := 1);
    ReceivesOne(s, h);
    MarkedAtRest(With(s, h, v), h);
    WithTwice(s, h, v, v.(due := 0));
    LeadsOn(s, With(s, h, v), With(s, h, v.(due := 0)).(bits := {w.idx}, signalled := false), 0, 0);
  }

  /** A notification is read, and nothing else. */
  lemma MarkedAtRest(s: State, h: Handle)
    requires Still(s) && s.bits == {} && h.wid < |s.workers| && s.workers[h.wid].due == 1
    ensures Leads(s, With(s, h, s.workers[h.wid].(due := 0)).(bits := {s.workers[h.wid].idx}, signalled := false), 0)
  {
    var w := s.workers[h.wid];
    NoticeIsRead(s, h.wid);
    var b := With(s, h, w.(due := 0)).(bits := {w.idx}, signalled := false, awake := true, draining := true);
    assert s.bits + {w.idx} == b.bits;
    assert Next(b, QueueEmpty) == b.(awake := false, draining := false);
    OneStep(s, b, 0, QueueEmpty);
  }

  /** A full worker that is marked dies; the next connection is refused there, and then its guard drops. */
  lemma DiesFull(s: State, k: nat) returns (t: State)
    requires Still(s) && s.next < |s.handles| && k < |s.handles| && s.bits == {s.handles[k].idx} && s.limit == 1
    requires Distinct(s.handles) && s.handles[k].wid < |s.workers|
    requires var w := s.workers[s.handles[k].wid]; w.alive && w.raw == 2 && w.guards == 1 && w.due == 0
    ensures Leads(s, t, 1)
    ensures var h, rest := s.handles[k], SwapRemove(s.handles, k);
            t == With(s, h, s.workers[h.wid].(alive := false, raw := 1, guards := 0, due := 1)).(
                   handles := rest, next := if |rest| <= k then 0 else k, faults := s.faults + [h.idx], bits := {},
                   placing := if rest == [] then Nothing else Looking(Conn(0, 0)), serving := Some(0))
  {
    var h := s.handles[k];
    var w := s.workers[h.wid];
    var a := DiesMarked(s, k);
    Refuses(a);
    var b := Dropped(a);
    LeadsOn(s, a, b, 1, 0);
    assert {h.idx} - {h.idx} == {};
    WithTwice(s, h, w.(alive := false), w.(alive := false, raw := 1, guards := 0, due := 1));
    t := Next(b, DropGuard(h.wid));
    OneStep(s, b, 1, DropGuard(h.wid));
  }

  /** Its notification finds no handle: the thread goes round for ever, or has no worker to index. */
  lemma LateNotice(s: State, h: Handle) returns (t: State)
    requires h.wid < |s.workers| && s.workers[h.wid].due > 0 && s.workers[h.wid].idx == h.idx && s.limit == 1
    requires s.send.Free? && s.bits == {} && s.serving == Some(0)
    requires s.queue == [] && !s.awake && !s.draining && s.taken == {}
    requires s.listeners != [] && s.listeners[0] == Listener(0, false, true)
    requires if s.handles == [] then s.placing.Nothing? else s.placing.Looking? && s.next < |s.handles|
    requires forall g :: g in s.handles ==> Has(s, g, 1) && s.workers[g.wid].alive && g.idx != h.idx
    ensures Leads(s, t, 0) && Halting(t)
  {
    if s.handles == [] {
      LeadsNowhere(s);
      var a := s.(serving := None);
      assert Next(s, Leave) == a;
      OneStep(s, s, 0, Leave);
      t := NoticeThenConnection(a, h.wid);
      LeadsOn(s, a, t, 0, 0);
    } else {
      var a := ForcedToRest(s);
      t := NoticeWithoutHandle(a, h.wid);
      LeadsOn(s, a, t, 0, 0);
    }
  }

  /** After a refusal one more death is enough. */
  lemma OneMoreDeath(s: State) returns (t: State)
    requires Refusal(s)
    ensures Leads(s, t, 1) && Halting(t)
  {
    var h := Target(s);
    var a := ForcedWhileDue(s);
    MarkedWhileFull(a, h);
    var b := With(a, h, a.workers[h.wid].(taken := 2, guards := 1, due := 0)).(bits := {h.idx}, signalled := false);
    LeadsOn(s, a, b, 0, 0);
    var k := NextIndex(s.next, |s.handles|);
    var c := DiesFull(b, k);
    LeadsOn(s, b, c, 0, 1);
    RestIsFull(s, k, c);
    t := LateNotice(c, h);
    LeadsOn(s, c, t, 1, 0);
  }

  lemma RestIsFull(s: State, k: nat, c: State)
    requires AllWait(s) && k < |s.handles| && c.handles == SwapRemove(s.handles, k) && |c.workers| == |s.workers|
    requires forall w :: 0 <= w < |s.workers| && w != s.handles[k].wid ==> c.workers[w] == s.workers[w]
    ensures forall g :: g in c.handles ==> Has(c, g, 1) && c.workers[g.wid].alive && g.idx != s.handles[k].idx
  {
    SwapRemoveDrops(s.handles, k);
    assert s.handles[k] in s.handles;
  }

  /** With a limit of one, two workers or more and two deaths. */
  lemma TwoDeathsHalt(threads: nat, sockets: nat)
    requires threads > 1 && sockets > 0
    ensures exists t :: Leads(Start(1, threads, sockets), t, 2) && Halting(t)
  {
    var s0 := Start(1, threads, sockets);
    var s, k := FillsButOne(1, threads, sockets);
    LeadsInv(1, threads, sockets, s, 0);
    var b := DiesWithTheLastPlace(s, k);
    LeadsOn(s0, s, b, 0, 1);
    Refuses(b);
    var c := Dropped(b);
    LeadsOn(s0, b, c, 1, 0);
    OthersWait(threads, sockets, s, k, c);
    assert c.bits == {};
    var t := OneMoreDeath(c);
    LeadsOn(s0, c, t, 1, 1);
  }

  /** A worker that was filled from the start. */
  lemma FilledWaits(threads: nat, sockets: nat, s: State, h: Handle)
    requires OnlyFills(Start(1, threads, sockets), s) && Inv(s) && s.send.Free?
    requires h in s.handles && Marks(s, h) && Has(s, h, 1)
    ensures Waits(s.workers[h.wid]) && s.workers[h.wid].idx == h.idx
  {
    assert ConservedAt(s, h.wid) && HandleOk(s, h);
    assert Start(1, threads, sockets).workers[h.wid] == FreshWorker(h.wid);
  }

  lemma OthersWait(threads: nat, sockets: nat, s: State, k: nat, c: State)
    requires LastPlace(s, k) && OnlyFills(Start(1, threads, sockets), s) && Inv(s) && s.limit == 1
    requires c.limit == s.limit && |c.workers| == |s.workers|
    requires c.handles == SwapRemove(s.handles, k) && s.handles[k].wid < |s.workers|
    requires forall w :: 0 <= w < |s.workers| && w != s.handles[k].wid ==> c.workers[w] == s.workers[w]
    ensures AllWait(c)
  {
    DistinctHandles(s);
    forall h | h in c.handles
      ensures h.wid < |c.workers| && c.workers[h.wid].idx == h.idx && Waits(c.workers[h.wid])
    {
      var j :| 0 <= j < |c.handles| && c.handles[j] == h;
      var i := if j == k then |s.handles| - 1 else j;
      assert i != k && s.handles[i] == h && Has(s, h, s.limit) && h in s.handles && Marks(s, h);
      assert s.handles[i].wid != s.handles[k].wid;
      FilledWaits(threads, sockets, s, h);
    }
    RemovalKeepsDistinct(s.handles, k);
  }
}
