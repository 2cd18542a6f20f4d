/** Runs of the protocol, put together from shorter ones, and how the accept thread fills its
    workers one connection at a time. */
module LimitRuns {
  import opened Options
  import opened Protocol
  import opened ProtocolProofs
  import opened ProtocolTheorems
  import opened AcceptSteps

  // ---------------------------------------------------------------- runs

  /** How many workers die in a run. */
  function Deaths(steps: seq<Step>): nat {
    if steps == [] then 0 else Deaths(steps[..|steps| - 1]) + DeathsOf(steps[|steps| - 1])
  }

  function DeathsOf(step: Step): nat { if step.Die? then 1 else 0 }

  /** Some run leads from `s` to `t`, and in it `d` workers die. */
  ghost predicate Leads(s: State, t: State, d: nat) {
    exists steps :: After(s, steps) == Some(t) && Deaths(steps) == d
  }

  lemma LeadsNowhere(s: State)
    ensures Leads(s, s, 0)
  {
    assert After(s, []) == Some(s) && Deaths([]) == 0;
  }

  lemma OneStep(s: State, t: State, d: nat, step: Step)
    requires Leads(s, t, d) && Enabled(t, step)
    ensures Leads(s, Next(t, step), d + DeathsOf(step))
  {
    var steps :| After(s, steps) == Some(t) && Deaths(steps) == d;
    AfterAppend(s, steps, t, step);
    assert (steps + [step])[..|steps|] == steps;
    assert Deaths(steps + [step]) == d + DeathsOf(step);
  }

  lemma {:induction false} AfterConcat(s: State, a: seq<Step>, t: State, b: seq<Step>)
    requires After(s, a) == Some(t)
    ensures After(s, a + b) == After(t, b) && Deaths(a + b) == Deaths(a) + Deaths(b)
    decreases |b|
  {
    if b == [] {
      assert a + b == a;
    } else {
      var n := |b| - 1;
      AfterConcat(s, a, t, b[..n]);
      assert (a + b)[..|a + b| - 1] == a + b[..n] && (a + b)[|a + b| - 1] == b[n];
    }
  }

  lemma LeadsOn(s: State, t: State, u: State, d: nat, e: nat)
    requires Leads(s, t, d) && Leads(t, u, e)
    ensures Leads(s, u, d + e)
  {
    var a :| After(s, a) == Some(t) && Deaths(a) == d;
    var b :| After(t, b) == Some(u) && Deaths(b) == e;
    AfterConcat(s, a, t, b);
  }

  // ---------------------------------------------------------------- one connection arrives

  /** Nothing is going on, and listener 0 waits for connections. */
  ghost predicate Still(s: State) {
    && Resting(s) && s.queue == [] && !s.awake && !s.draining && s.taken == {}
    && s.listeners != [] && s.listeners[0] == Listener(0, false, true)
  }

  /** A connection arrives at listener 0, its event is taken, and the thread begins to place it. */
  lemma Arrival(s: State, conn: Conn)
    requires conn.token == 0
    requires Still(s) && s.bits != {}
    ensures Leads(s, s.(placing := Looking(conn), serving := Some(0)), 0)
  {
    var t := s.(listeners := s.listeners[0 := Listener(1, false, true)], serving := Some(0));
    ConnectionArrives(s);
    assert t.listeners[0 := Listener(0, false, true)] == s.listeners;
    assert Next(t, TakeConn(conn)) == s.(placing := Looking(conn), serving := Some(0));
    OneStep(s, t, 0, TakeConn(conn));
  }

  lemma ConnectionArrives(s: State)
    requires Still(s)
    ensures Leads(s, s.(listeners := s.listeners[0 := Listener(1, false, true)], serving := Some(0)), 0)
  {
    LeadsNowhere(s);
    var s1 := s.(listeners := s.listeners[0 := Listener(1, true, true)]);
    assert Next(s, Arrive(0)) == s1;
    OneStep(s, s, 0, Arrive(0));
    var s2 := s.(listeners := s.listeners[0 := Listener(1, false, true)], taken := {0});
    assert s1.taken + {0} == {0} && s1.listeners[0 := Listener(1, false, true)] == s2.listeners;
    assert Next(s1, TakeEvent(0)) == s2;
    OneStep(s, s1, 0, TakeEvent(0));
    assert s2.taken - {0} == {} && s2.(serving := Some(0), taken := {}) == s2.(taken := {}, serving := Some(0));
    OneStep(s, s2, 0, Serve(0));
  }

  /** The index of the first worker marked available. */
  function Chosen(s: State): nat
    requires s.next < |s.handles|
  {
    Ring(s.next, FirstMarked(s.handles, s.bits, s.next), |s.handles|)
  }

  /** The search passes over the workers that are not marked. */
  lemma {:induction false} SkipToMarked(s: State)
    requires s.send.Free? && s.placing.Looking? && s.bits != {} && s.next < |s.handles|
    requires FirstMarked(s.handles, s.bits, s.next) < |s.handles|
    ensures Leads(s, s.(next := Chosen(s)), 0)
    ensures s.handles[Chosen(s)].idx in s.bits
    decreases FirstMarked(s.handles, s.bits, s.next)
  {
    assert Ring(s.next, 0, |s.handles|) == s.next;
    LeadsNowhere(s);
    if FirstMarked(s.handles, s.bits, s.next) == 0 {
      assert s.(next := s.next) == s;
    } else {
      assert !Marked(s.handles, s.bits, s.next, 0);
      SkipOne(s.handles, s.bits, s.next);
      var t := s.(next := Ring(s.next, 1, |s.handles|));
      assert Enabled(s, Skip) && Next(s, Skip) == t;
      OneStep(s, s, 0, Skip);
      SkipToMarked(t);
      LeadsOn(s, t, s.(next := Chosen(s)), 0, 0);
    }
  }

  /** A worker that lives takes the connection. */
  function Placed(s: State): State
    requires s.next < |s.handles| && s.handles[s.next].wid < |s.workers| && s.placing.Looking?
  {
    var h := s.handles[s.next];
    var w := s.workers[h.wid];
    s.(workers := s.workers[h.wid := w.(raw := w.raw + 1, got := w.got + [s.placing.conn])],
       deliveries := s.deliveries + [Delivery(s.placing.conn, h.wid)],
       bits := if w.raw == s.limit then s.bits - {h.idx} else s.bits,
       next := NextIndex(s.next, |s.handles|), placing := Nothing, serving := None)
  }

  /** The send in between: counted, then in the channel. */
  function CountedFor(s: State): State
    requires s.next < |s.handles| && s.handles[s.next].wid < |s.workers| && s.placing.Looking?
  {
    var h := s.handles[s.next];
    var w := s.workers[h.wid];
    s.(workers := s.workers[h.wid := w.(raw := w.raw + 1)], send := Counted(h, s.placing.conn, w.raw == s.limit))
  }

  function LandedFor(s: State): State
    requires s.next < |s.handles| && s.handles[s.next].wid < |s.workers| && s.placing.Looking?
  {
    var h := s.handles[s.next];
    var w := s.workers[h.wid];
    s.(workers := s.workers[h.wid := w.(raw := w.raw + 1, got := w.got + [s.placing.conn])],
       deliveries := s.deliveries + [Delivery(s.placing.conn, h.wid)], send := Landed(h, w.raw == s.limit))
  }

  lemma LandsIn(s: State)
    requires s.send.Free? && s.placing.Looking? && MaySend(s) && s.workers[s.handles[s.next].wid].alive
    ensures Enabled(s, Inc) && Next(s, Inc) == CountedFor(s)
    ensures Enabled(CountedFor(s), Put) && Next(CountedFor(s), Put) == LandedFor(s)
  {
    var h, t := s.handles[s.next], CountedFor(s);
    assert AfterPut(t).workers == LandedFor(s).workers;
  }

  lemma SettlesAs(s: State)
    requires s.send.Free? && s.placing.Looking? && MaySend(s) && s.workers[s.handles[s.next].wid].alive
    requires s.serving == Some(0) && s.listeners != [] && s.listeners[0].backlog == 0
    ensures var t := Placed(s).(serving := Some(0));
            && Enabled(LandedFor(s), Settle) && Next(LandedFor(s), Settle) == t
            && Enabled(t, Leave) && Next(t, Leave) == Placed(s)
  {
  }

  lemma Place(s: State)
    requires s.send.Free? && s.placing.Looking? && MaySend(s) && s.workers[s.handles[s.next].wid].alive
    requires s.serving == Some(0) && s.listeners != [] && s.listeners[0].backlog == 0
    ensures Leads(s, Placed(s), 0)
  {
    LeadsNowhere(s);
    LandsIn(s);
    SettlesAs(s);
    OneStep(s, s, 0, Inc);
    OneStep(s, CountedFor(s), 0, Put);
    OneStep(s, LandedFor(s), 0, Settle);
    OneStep(s, Placed(s).(serving := Some(0)), 0, Leave);
  }

  // ---------------------------------------------------------------- filling workers

  /** A handle leads to a living worker, which is marked exactly if it is below the limit. */
  ghost predicate Marks(s: State, h: Handle) {
    && h.wid < |s.workers| && s.workers[h.wid].alive && s.workers[h.wid].raw >= 1
    && Count(s.workers[h.wid]) <= s.limit
    && (h.idx in s.bits <==> Count(s.workers[h.wid]) < s.limit)
  }

  /** Nothing is going on, all workers held live, and the flags are as they should be. */
  ghost predicate Calm(s: State) {
    && Still(s) && s.handles != [] && s.next < |s.handles|
    && (forall h :: h in s.handles ==> Marks(s, h))
    && s.bits <= HandleIds(s.handles)
    && (forall j, k :: 0 <= j < k < |s.handles| ==> s.handles[j].idx != s.handles[k].idx)
    && (forall j, k :: 0 <= j < k < |s.handles| ==> s.handles[j].wid != s.handles[k].wid)
  }

  /** The places left with the workers of some handles. */
  function Room(s: State, hs: seq<Handle>): nat
    requires forall h :: h in hs ==> h.wid < |s.workers| && Count(s.workers[h.wid]) <= s.limit
  {
    if hs == [] then 0
    else
      var h := hs[|hs| - 1];
      assert h in hs;
      Room(s, hs[..|hs| - 1]) + s.limit - Count(s.workers[h.wid])
  }

  /** What placing connections leaves alone. */
  ghost predicate OnlyFills(s: State, t: State) {
    && t.handles == s.handles && t.limit == s.limit && |t.workers| == |s.workers|
    && t == s.(workers := t.workers, deliveries := t.deliveries, bits := t.bits, next := t.next)
    && (forall w :: 0 <= w < |s.workers| ==>
          && t.workers[w].alive == s.workers[w].alive && t.workers[w].taken == s.workers[w].taken
          && t.workers[w].guards == s.workers[w].guards && t.workers[w].due == s.workers[w].due
          && t.workers[w].idx == s.workers[w].idx)
    && forall w :: 0 <= w < |s.workers| && (forall h :: h in s.handles ==> h.wid != w) ==> t.workers[w] == s.workers[w]
  }

  lemma {:induction false} RoomSame(s: State, t: State, hs: seq<Handle>)
    requires forall h :: h in hs ==> h.wid < |s.workers| && Count(s.workers[h.wid]) <= s.limit
    requires |t.workers| == |s.workers| && t.limit == s.limit
    requires forall h :: h in hs ==> t.workers[h.wid].raw == s.workers[h.wid].raw
    ensures forall h :: h in hs ==> Count(t.workers[h.wid]) <= t.limit
    ensures Room(t, hs) == Room(s, hs)
  {
    if hs != [] {
      assert hs[|hs| - 1] in hs;
      RoomSame(s, t, hs[..|hs| - 1]);
    }
  }

  /** One connection more for one of the workers takes one place. */
  lemma {:induction false} RoomLess(s: State, t: State, hs: seq<Handle>, k: nat)
    requires k < |hs| && |t.workers| == |s.workers| && t.limit == s.limit
    requires forall h :: h in hs ==> h.wid < |s.workers| && Count(s.workers[h.wid]) <= s.limit
    requires forall j, k :: 0 <= j < k < |hs| ==> hs[j].wid != hs[k].wid
    requires t.workers[hs[k].wid].raw == s.workers[hs[k].wid].raw + 1 && Count(s.workers[hs[k].wid]) < s.limit
    requires forall j :: 0 <= j < |hs| && j != k ==> t.workers[hs[j].wid].raw == s.workers[hs[j].wid].raw
    ensures forall h :: h in hs ==> Count(t.workers[h.wid]) <= t.limit
    ensures Room(t, hs) + 1 == Room(s, hs)
    decreases |hs|
  {
    var n := |hs| - 1;
    assert hs[n] in hs && hs[k] in hs;
    if k == n {
      assert forall h :: h in hs[..n] ==> t.workers[h.wid].raw == s.workers[h.wid].raw;
      RoomSame(s, t, hs[..n]);
    } else {
      RoomLess(s, t, hs[..n], k);
    }
  }

  /** Some worker is marked exactly if there is room, and a worker below its limit has a place. */
  lemma {:induction false} RoomAtLeast(s: State, hs: seq<Handle>, k: nat)
    requires k < |hs|
    requires forall h :: h in hs ==> h.wid < |s.workers| && Count(s.workers[h.wid]) <= s.limit
    ensures Room(s, hs) >= s.limit - Count(s.workers[hs[k].wid])
    ensures forall j :: 0 <= j < k ==>
              Room(s, hs) >= s.limit - Count(s.workers[hs[j].wid]) + s.limit - Count(s.workers[hs[k].wid])
    decreases |hs|
  {
    var n := |hs| - 1;
    assert hs[n] in hs && hs[k] in hs;
    if k < n {
      RoomAtLeast(s, hs[..n], k);
    } else {
      forall j | 0 <= j < k
        ensures Room(s, hs) >= s.limit - Count(s.workers[hs[j].wid]) + s.limit - Count(s.workers[hs[k].wid])
      {
        RoomAtLeast(s, hs[..n], j);
      }
    }
  }

  lemma {:induction false} SomeRoom(s: State, hs: seq<Handle>) returns (k: nat)
    requires forall h :: h in hs ==> h.wid < |s.workers| && Count(s.workers[h.wid]) <= s.limit
    requires Room(s, hs) > 0
    ensures k < |hs| && Count(s.workers[hs[k].wid]) < s.limit
    decreases |hs|
  {
    var n := |hs| - 1;
    assert hs[n] in hs;
    if Count(s.workers[hs[n].wid]) < s.limit { k := n; } else { k := SomeRoom(s, hs[..n]); }
  }

  /** With room, the search finds a worker that lives and has a place. */
  lemma FindsRoom(s: State)
    requires Calm(s) && Room(s, s.handles) > 0
    ensures s.bits != {} && FirstMarked(s.handles, s.bits, s.next) < |s.handles|
    ensures var h := s.handles[Chosen(s)];
            h.idx in s.bits && Marks(s, h) && Count(s.workers[h.wid]) < s.limit
  {
    var k := SomeRoom(s, s.handles);
    assert s.handles[k] in s.handles && Marks(s, s.handles[k]);
    NoneMarked(s.handles, s.bits, s.next);
    assert s.handles[Chosen(s)] in s.handles;
  }

  /** One more connection is placed. */
  lemma FillOne(s: State, conn: Conn) returns (t: State)
    requires conn.token == 0
    requires Calm(s) && Room(s, s.handles) > 0
    ensures Leads(s, t, 0) && Calm(t) && OnlyFills(s, t)
    ensures Room(t, t.handles) + 1 == Room(s, s.handles)
  {
    FindsRoom(s);
    Arrival(s, conn);
    var a := s.(placing := Looking(conn), serving := Some(0));
    SkipToMarked(a);
    var b := a.(next := Chosen(s));
    LeadsOn(s, a, b, 0, 0);
    Place(b);
    t := Placed(b);
    LeadsOn(s, b, t, 0, 0);
    FilledOne(s, conn, t);
  }

  /** What placing one connection does. */
  lemma FilledOne(s: State, conn: Conn, t: State)
    requires conn.token == 0
    requires Calm(s) && Room(s, s.handles) > 0
    requires FirstMarked(s.handles, s.bits, s.next) < |s.handles| && Marks(s, s.handles[Chosen(s)])
    requires Count(s.workers[s.handles[Chosen(s)].wid]) < s.limit
    requires t == Placed(s.(placing := Looking(conn), serving := Some(0), next := Chosen(s)))
    ensures Calm(t) && OnlyFills(s, t)
    ensures Room(t, t.handles) + 1 == Room(s, s.handles)
  {
    var k := Chosen(s);
    var h := s.handles[k];
    assert forall j :: 0 <= j < |s.handles| && j != k ==> s.handles[j].wid != h.wid && s.handles[j].idx != h.idx;
    forall g | g in t.handles ensures Marks(t, g) {
      var j :| 0 <= j < |s.handles| && s.handles[j] == g;
      assert Marks(s, g);
    }
    RoomLess(s, t, s.handles, k);
  }

  /** Any number of connections, while there is room. */
  lemma {:induction false} Fill(s: State, n: nat) returns (t: State)
    requires Calm(s) && Room(s, s.handles) >= n
    ensures Leads(s, t, 0) && Calm(t) && OnlyFills(s, t)
    ensures Room(t, t.handles) + n == Room(s, s.handles)
    decreases n
  {
    if n == 0 {
      t := s;
      LeadsNowhere(s);
    } else {
      var u := FillOne(s, Conn(n, 0));
      t := Fill(u, n - 1);
      LeadsOn(s, u, t, 0, 0);
      OnlyFillsTwice(s, u, t);
    }
  }

  lemma OnlyFillsTwice(s: State, u: State, t: State)
    requires OnlyFills(s, u) && OnlyFills(u, t)
    ensures OnlyFills(s, t)
  {
  }

  lemma StartIsCalm(limit: nat, threads: nat, sockets: nat)
    requires limit > 0 && threads > 0 && sockets > 0
    ensures Calm(Start(limit, threads, sockets))
    ensures Room(Start(limit, threads, sockets), Start(limit, threads, sockets).handles) >= limit
  {
    var s := Start(limit, threads, sockets);
    forall h | h in s.handles ensures Marks(s, h) {
      assert h.idx in HandleIds(s.handles);
    }
    assert s.handles[0] == Handle(0, 0);
    RoomAtLeast(s, s.handles, 0);
  }
}
