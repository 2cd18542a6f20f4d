/** Exactly when the connection limit holds: in every run with at most so many deaths. */
module ConnectionLimit {
  import opened Options
  import opened Protocol
  import opened ProtocolProofs
  import opened ProtocolTheorems
  import opened AcceptSteps
  import opened LimitRuns

  ghost predicate Within(s: State) {
    forall w :: 0 <= w < |s.workers| ==> Count(s.workers[w]) <= s.limit
  }

  /** In every run with at most `d` deaths every worker stays within the limit. */
  ghost predicate LimitHolds(limit: nat, threads: nat, sockets: nat, d: nat)
    requires limit > 0
  {
    forall t, e: nat :: e <= d && Leads(Start(limit, threads, sockets), t, e) ==> Within(t)
  }

  // ---------------------------------------------------------------- no deaths

  lemma {:induction false} NobodyDied(s: State, steps: seq<Step>)
    requires AllAlive(s) && After(s, steps).Some? && Deaths(steps) == 0
    ensures AllAlive(After(s, steps).value)
    decreases |steps|
  {
    if steps != [] {
      var n := |steps| - 1;
      NobodyDied(s, steps[..n]);
      OnlyDeathsKill(After(s, steps[..n]).value, steps[n]);
    }
  }

  lemma OnlyDeathsKill(s: State, step: Step)
    requires AllAlive(s) && Enabled(s, step) && !step.Die?
    ensures AllAlive(Next(s, step))
  {
    WhereWorkersComeFrom(s, step);
    if SendStep(step) { SendKeepsLives(s, step); }
    else if WorkerStep(step) { WorkersKeepLives(s, step); }
    else { OtherStepsLeaveWorkers(s, step); }
  }

  lemma WorkersKeepLives(s: State, step: Step)
    requires AllAlive(s) && Enabled(s, step) && WorkerStep(step) && !step.Die?
    ensures AllAlive(Next(s, step))
  {
  }

  // ---------------------------------------------------------------- one worker at a time, limit one

  /** One server index, and a limit of one. */
  ghost predicate Single(s: State) { s.limit == 1 && |s.servers| == 1 }

  predicate Current(s: State, w: nat) { s.handles != [] && s.handles[0].wid == w }

  /** A worker that the accept thread does not hold has nothing to do, and nothing to tell. */
  predicate Idles(w: Worker) { w.raw == 1 && w.guards == 0 && w.due == 0 }

  /** Marked, and not by a send that has counted. */
  predicate OnOffer(s: State) { 0 in s.bits && (s.send.Free? || s.send.Undone?) }

  /** The one token of the worker that is held. */
  predicate TokenOf(s: State, w: nat)
    requires w < |s.workers|
  {
    && One(OnOffer(s)) + s.workers[w].due + Notices(s.queue, 0) + One(Count(s.workers[w]) == 1) == 1
    && Count(s.workers[w]) <= 1
  }

  /** At any time one worker at most has connections or notifications, and it has one token. */
  ghost predicate Solo(s: State) {
    && Single(s) && |s.handles| <= 1
    && (forall x: Interest :: x in s.queue && x.WorkerAvailable? ==> x.idx == 0)
    && (forall w :: 0 <= w < |s.workers| && !Current(s, w) ==> Idles(s.workers[w]))
    && (if s.handles == [] then
          s.bits == {} && Notices(s.queue, 0) == 0 && s.placing.Nothing? && s.send.Free?
        else
          && s.handles[0].wid < |s.workers| && TokenOf(s, s.handles[0].wid)
          && s.bits <= {0} && !s.placing.Forcing? && (s.placing.Looking? ==> 0 in s.bits)
          && ((s.send.Counted? || s.send.Landed?) ==> s.send.full)
          && (!s.send.Free? ==> s.send.to == s.handles[0] && s.placing.Looking?))
  }

  lemma AllAreZero(s: State)
    requires Inv(s) && Single(s)
    ensures forall h :: h in s.handles ==> h.idx == 0 && h.wid < |s.workers|
    ensures forall w :: 0 <= w < |s.workers| ==> s.workers[w].idx == 0
  {
    forall h | h in s.handles ensures h.idx == 0 && h.wid < |s.workers| { assert HandleOk(s, h); }
  }

  lemma SoloSend(s: State, step: Step)
    requires Inv(s) && Solo(s) && Enabled(s, step) && SendStep(step)
    ensures Solo(Next(s, step))
  {
    AllAreZero(s);
    assert s.handles != [] ==> ConservedAt(s, s.handles[0].wid);
    assert s.handles != [] ==> s.handles[0] in s.handles;
    match step
    case Skip =>
    case Inc =>
    case Put =>
    case Settle =>
    case Undo =>
    case Remove => SoloRemove(s);
  }

  lemma SoloRemove(s: State)
    requires Inv(s) && Solo(s) && Enabled(s, Remove)
    ensures Solo(Next(s, Remove))
  {
    AllAreZero(s);
    assert ConservedAt(s, s.handles[0].wid);
    assert s.handles[0] in s.handles;
    var t := Next(s, Remove);
    assert t.handles == [];
    assert s.bits - {0} == {};
  }

  lemma SoloDrop(s: State, w: nat)
    requires Inv(s) && Solo(s) && Enabled(s, DropGuard(w))
    ensures Solo(Next(s, DropGuard(w)))
  {
    assert ConservedAt(s, w);
  }

  lemma SoloNotify(s: State, w: nat)
    requires Inv(s) && Solo(s) && Enabled(s, Notify(w))
    ensures Solo(Next(s, Notify(w)))
  {
    AllAreZero(s);
    NoticesPush(s.queue, WorkerAvailable(s.workers[w].idx), 0);
  }

  lemma SoloReceive(s: State, w: nat)
    requires Inv(s) && Solo(s) && Enabled(s, Receive(w))
    ensures Solo(Next(s, Receive(w)))
  {
    assert ConservedAt(s, w);
  }

  lemma SoloDie(s: State, w: nat)
    requires Inv(s) && Solo(s) && Enabled(s, Die(w))
    ensures Solo(Next(s, Die(w)))
  {
  }

  lemma SoloWorker(s: State, step: Step)
    requires Inv(s) && Solo(s) && Enabled(s, step) && WorkerStep(step)
    ensures Solo(Next(s, step))
  {
    match step
    case Receive(w) => SoloReceive(s, w);
    case DropGuard(w) => SoloDrop(s, w);
    case Notify(w) => SoloNotify(s, w);
    case Die(w) => SoloDie(s, w);
  }

  lemma SoloPop(s: State)
    requires Inv(s) && Solo(s) && Enabled(s, Pop)
    ensures Solo(Next(s, Pop))
  {
    AllAreZero(s);
    match s.queue[0]
    case NewWorker(h) =>
      assert NewWorker(h) in s.queue && HandleOk(s, h);
      assert Places(s, 0) <= 1;
      assert s.handles == [];
    case WorkerAvailable(i) => assert s.queue[0] in s.queue;
    case _ =>
  }


  lemma SoloStart(s: State)
    requires Inv(s) && Solo(s) && Enabled(s, ServerStart)
    ensures Solo(Next(s, ServerStart))
  {
    NoticesPush(s.queue, NewWorker(Handle(|s.workers|, s.restarting.value)), 0);
  }

  lemma SoloCommand(s: State, c: Interest)
    requires Inv(s) && Solo(s) && Enabled(s, ServerCommand(c))
    ensures Solo(Next(s, ServerCommand(c)))
  {
    NoticesPush(s.queue, c, 0);
  }

  lemma SoloServer(s: State, step: Step)
    requires Inv(s) && Solo(s) && Enabled(s, step) && ServerStep(step)
    ensures Solo(Next(s, step))
  {
    match step
    case ServerTake =>
    case ServerStart => SoloStart(s);
    case ServerGiveUp =>
    case ServerCommand(c) => SoloCommand(s, c);
  }

  lemma SoloEvent(s: State, step: Step)
    requires Inv(s) && Solo(s) && Enabled(s, step)
    requires !SendStep(step) && !WorkerStep(step) && !ServerStep(step) && !step.Pop?
    ensures Solo(Next(s, step))
  {
    match step
    case TakeWake =>
    case TakeEvent(_) =>
    case Drain =>
    case QueueEmpty =>
    case Serve(_) =>
    case TakeConn(_) => AllAreZero(s);
    case Leave =>
    case Register(_) =>
    case Deregister(_) =>
    case Signal =>
    case Arrive(_) =>
    case Tick(_) =>
  }

  lemma StepKeepsSolo(s: State, step: Step)
    requires Inv(s) && Solo(s) && Enabled(s, step)
    ensures Solo(Next(s, step))
  {
    if SendStep(step) { SoloSend(s, step); }
    else if WorkerStep(step) { SoloWorker(s, step); }
    else if ServerStep(step) { SoloServer(s, step); }
    else if step.Pop? { SoloPop(s); }
    else { SoloEvent(s, step); }
  }

  lemma StartIsSolo(sockets: nat)
    ensures Solo(Start(1, 1, sockets))
  {
    var s := Start(1, 1, sockets);
    assert s.handles == [Handle(0, 0)] && HandleIds(s.handles) == {0};
  }

  lemma {:induction false} SoloRun(sockets: nat, steps: seq<Step>)
    requires After(Start(1, 1, sockets), steps).Some?
    ensures var t := After(Start(1, 1, sockets), steps).value; Inv(t) && Solo(t)
    decreases |steps|
  {
    EveryRunKeepsInv(1, 1, sockets, steps);
    if steps == [] {
      StartIsSolo(sockets);
    } else {
      var n := |steps| - 1;
      SoloRun(sockets, steps[..n]);
      StepKeepsSolo(After(Start(1, 1, sockets), steps[..n]).value, steps[n]);
    }
  }

  lemma SoloIsWithin(s: State)
    requires Solo(s)
    ensures Within(s)
  {
    forall w | 0 <= w < |s.workers| ensures Count(s.workers[w]) <= s.limit {
      if !Current(s, w) { assert Idles(s.workers[w]); }
    }
  }

  // ---------------------------------------------------------------- two workers

  /** The worker of a handle has so many connections. */
  predicate Has(s: State, h: Handle, n: int) { h.wid < |s.workers| && Count(s.workers[h.wid]) == n }

  /** One place is left in all, with the worker of handle `k`. */
  ghost predicate LastPlace(s: State, k: nat) {
    && Calm(s) && k < |s.handles| && s.bits == {s.handles[k].idx} && Has(s, s.handles[k], s.limit - 1)
    && forall j :: 0 <= j < |s.handles| && j != k ==> Has(s, s.handles[j], s.limit)
  }

  lemma FillsButOne(limit: nat, threads: nat, sockets: nat) returns (s: State, k: nat)
    requires limit > 0 && threads > 0 && sockets > 0
    ensures Leads(Start(limit, threads, sockets), s, 0) && LastPlace(s, k)
    ensures OnlyFills(Start(limit, threads, sockets), s)
  {
    var s0 := Start(limit, threads, sockets);
    StartIsCalm(limit, threads, sockets);
    s := Fill(s0, Room(s0, s0.handles) - 1);
    k := SomeRoom(s, s.handles);
    LastOne(s, k);
  }

  lemma LastOne(s: State, k: nat)
    requires Calm(s) && Room(s, s.handles) == 1
    requires k < |s.handles| && Count(s.workers[s.handles[k].wid]) < s.limit
    ensures LastPlace(s, k)
  {
    RoomAtLeast(s, s.handles, k);
    assert s.handles[k] in s.handles && Marks(s, s.handles[k]);
    forall j | 0 <= j < |s.handles| && j != k
      ensures Has(s, s.handles[j], s.limit) && s.handles[j].idx !in s.bits
    {
      RoomAtLeast(s, s.handles, if j < k then k else j);
      assert s.handles[j] in s.handles && Marks(s, s.handles[j]);
    }
    forall i | i in s.bits ensures i == s.handles[k].idx {
      var h :| h in s.handles && h.idx == i;
    }
  }

  /** The state in which the dead worker of handle `next` has just been looked up. */
  ghost predicate MeetsDead(s: State) {
    && s.send.Free? && s.placing.Looking? && s.serving == Some(0) && s.next < |s.handles|
    && var h := s.handles[s.next];
       h.wid < |s.workers| && !s.workers[h.wid].alive && s.workers[h.wid].raw >= 1 && h.idx in s.bits
  }

  /** The connection is refused, and the handle dropped. */
  function Dropped(s: State): State
    requires s.next < |s.handles|
  {
    AfterRemove(s.(send := Undone(s.handles[s.next])))
  }

  lemma RefusedIn(s: State)
    requires MeetsDead(s)
    ensures var (h, t) := (s.handles[s.next], CountedFor(s));
            && Enabled(s, Inc) && Next(s, Inc) == t
            && Enabled(t, Put) && Next(t, Put) == t.(send := Refused(h))
  {
  }

  lemma UndoneIn(s: State)
    requires MeetsDead(s)
    ensures var (h, t) := (s.handles[s.next], CountedFor(s).(send := Refused(s.handles[s.next])));
            && Enabled(t, Undo) && Next(t, Undo) == s.(send := Undone(h))
            && Enabled(s.(send := Undone(h)), Remove) && Next(s.(send := Undone(h)), Remove) == Dropped(s)
  {
    var h, t := s.handles[s.next], CountedFor(s).(send := Refused(s.handles[s.next]));
    assert t.workers[h.wid := s.workers[h.wid]] == s.workers;
  }

  lemma Refuses(s: State)
    requires MeetsDead(s)
    ensures Leads(s, Dropped(s), 0)
  {
    LeadsNowhere(s);
    RefusedIn(s);
    UndoneIn(s);
    var h := s.handles[s.next];
    OneStep(s, s, 0, Inc);
    OneStep(s, CountedFor(s), 0, Put);
    OneStep(s, CountedFor(s).(send := Refused(h)), 0, Undo);
    OneStep(s, s.(send := Undone(h)), 0, Remove);
  }

  /** With no flag left, the connection is forced on the worker after the next one. */
  lemma Forces(s: State)
    requires s.send.Free? && s.placing.Looking? && s.bits == {} && s.next < |s.handles|
    requires forall h :: h in s.handles ==> h.wid < |s.workers|
    ensures var h := s.handles[NextIndex(s.next, |s.handles|)];
            exists t :: Leads(s, t, 0) && |t.workers| == |s.workers| && t.limit == s.limit
                        && t.workers[h.wid].raw == s.workers[h.wid].raw + 1
  {
    LeadsNowhere(s);
    var s1 := s.(next := NextIndex(s.next, |s.handles|), placing := Forcing(s.placing.conn));
    assert Next(s, Skip) == s1;
    OneStep(s, s, 0, Skip);
    var h := s1.handles[s1.next];
    assert h in s.handles;
    var t := Next(s1, Inc);
    OneStep(s, s1, 0, Inc);
    assert t.workers[h.wid].raw == s.workers[h.wid].raw + 1;
  }

  /** The worker with the last place dies, and the next connection gets to it. */
  lemma DiesWithTheLastPlace(s: State, k: nat) returns (t: State)
    requires LastPlace(s, k)
    ensures Leads(s, t, 1) && MeetsDead(t)
    ensures var w := s.handles[k].wid;
            && w < |s.workers|
            && t == s.(workers := s.workers[w := s.workers[w].(alive := false)],
                       placing := Looking(Conn(0, 0)), serving := Some(0), next := k)
  {
    assert s.handles[k] in s.handles && Marks(s, s.handles[k]);
    t := DiesMarked(s, k);
  }

  /** The only worker marked dies, and the next connection gets to it. */
  lemma DiesMarked(s: State, k: nat) returns (t: State)
    requires Still(s) && s.next < |s.handles| && k < |s.handles| && s.bits == {s.handles[k].idx}
    requires Distinct(s.handles) && s.handles[k].wid < |s.workers|
    requires s.workers[s.handles[k].wid].alive && s.workers[s.handles[k].wid].raw >= 1
    ensures Leads(s, t, 1) && MeetsDead(t)
    ensures var w := s.handles[k].wid;
            t == s.(workers := s.workers[w := s.workers[w].(alive := false)],
                    placing := Looking(Conn(0, 0)), serving := Some(0), next := k)
  {
    var h := s.handles[k];
    LeadsNowhere(s);
    var dead := s.(workers := s.workers[h.wid := s.workers[h.wid].(alive := false)]);
    assert Next(s, Die(h.wid)) == dead;
    OneStep(s, s, 0, Die(h.wid));
    Arrival(dead, Conn(0, 0));
    var a := dead.(placing := Looking(Conn(0, 0)), serving := Some(0));
    LeadsOn(s, dead, a, 1, 0);
    OnlyOneMarked(a, k);
    SkipToMarked(a);
    t := a.(next := k);
    LeadsOn(s, a, t, 1, 0);
  }

  lemma OnlyOneMarked(s: State, k: nat)
    requires s.next < |s.handles| && k < |s.handles| && Distinct(s.handles) && s.bits == {s.handles[k].idx}
    ensures FirstMarked(s.handles, s.bits, s.next) < |s.handles| && Chosen(s) == k
  {
    NoneMarked(s.handles, s.bits, s.next);
    assert s.handles[k] in s.handles;
    var c := Chosen(s);
    assert s.handles[c].idx == s.handles[k].idx;
    assert !(c < k) && !(k < c);
  }

  /** With two workers or more, one death is enough: all are filled but for one place, its worker
      dies, and the next connection is refused there and forced on a full worker. */
  lemma OneOfManyDies(limit: nat, threads: nat, sockets: nat)
    requires limit > 0 && threads >= 2 && sockets > 0
    ensures exists t :: Leads(Start(limit, threads, sockets), t, 1) && !Within(t)
  {
    var s0 := Start(limit, threads, sockets);
    var s, k := FillsButOne(limit, threads, sockets);
    var b := DiesWithTheLastPlace(s, k);
    LeadsOn(s0, s, b, 0, 1);
    Refuses(b);
    var c := Dropped(b);
    LeadsOn(s0, b, c, 1, 0);
    OthersAreFull(s, k, c);
    assert c.bits == {};
    ForcesBeyond(c);
    var t :| Leads(c, t, 0) && !Within(t);
    LeadsOn(s0, c, t, 1, 0);
  }

  lemma ForcesBeyond(s: State)
    requires s.send.Free? && s.placing.Looking? && s.bits == {} && s.next < |s.handles|
    requires forall h :: h in s.handles ==> Has(s, h, s.limit)
    ensures exists t :: Leads(s, t, 0) && !Within(t)
  {
    Forces(s);
    var h := s.handles[NextIndex(s.next, |s.handles|)];
    assert h in s.handles;
    var t :| Leads(s, t, 0) && |t.workers| == |s.workers| && t.limit == s.limit
             && t.workers[h.wid].raw == s.workers[h.wid].raw + 1;
    assert Count(t.workers[h.wid]) == t.limit + 1;
  }

  lemma OthersAreFull(s: State, k: nat, c: State)
    requires LastPlace(s, k) && c.limit == s.limit
    requires c.handles == SwapRemove(s.handles, k) && |c.workers| == |s.workers|
    requires forall w :: 0 <= w < |s.workers| ==> c.workers[w].raw == s.workers[w].raw
    ensures forall h :: h in c.handles ==> Has(c, h, c.limit)
  {
    forall h | h in c.handles ensures Has(c, h, c.limit) {
      var j :| 0 <= j < |c.handles| && c.handles[j] == h;
      var i := if j == k then |s.handles| - 1 else j;
      assert s.handles[i] == h && Has(s, h, s.limit);
    }
  }

  // ---------------------------------------------------------------- a late notification

  lemma LeadsInv(limit: nat, threads: nat, sockets: nat, t: State, d: nat)
    requires limit > 0 && Leads(Start(limit, threads, sockets), t, d)
    ensures Inv(t) && t.limit == limit
  {
    var steps :| After(Start(limit, threads, sockets), steps) == Some(t) && Deaths(steps) == d;
    EveryRunKeepsInv(limit, threads, sockets, steps);
    LimitIsFixed(limit, threads, sockets, steps);
  }

  /** The refused worker's guard drops while the refused connection is still counted: the count
      passes the limit on the way down, so a notification is due. */
  function DroppedLate(s: State): State
    requires s.next < |s.handles| && s.handles[s.next].wid < |s.workers|
    requires s.workers[s.handles[s.next].wid].raw > 0 && s.workers[s.handles[s.next].wid].guards > 0
  {
    var v := s.handles[s.next].wid;
    var w := s.workers[v];
    Dropped(s).(workers := s.workers[v := w.(raw := w.raw - 1, guards := w.guards - 1, due := w.due + 1)])
  }

  /** A dead worker with one place left and a guard alive. */
  ghost predicate MeetsDeadWithGuard(s: State) {
    MeetsDead(s) && var w := s.workers[s.handles[s.next].wid]; w.guards > 0 && w.raw == s.limit > 1
  }

  /** The refused connection is counted, and the guard has dropped. */
  function LateDrop(s: State): State
    requires MeetsDeadWithGuard(s)
  {
    var h := s.handles[s.next];
    var w := s.workers[h.wid];
    s.(workers := s.workers[h.wid := w.(guards := w.guards - 1, due := w.due + 1)], send := Refused(h))
  }

  lemma DropsIn(s: State)
    requires MeetsDeadWithGuard(s)
    ensures var t := CountedFor(s).(send := Refused(s.handles[s.next]));
            var v := s.handles[s.next].wid;
            Enabled(t, DropGuard(v)) && Next(t, DropGuard(v)) == LateDrop(s)
  {
    var t, h := CountedFor(s).(send := Refused(s.handles[s.next])), s.handles[s.next];
    assert AfterDrop(t, h.wid).workers == LateDrop(s).workers;
  }

  lemma UndoneLate(s: State)
    requires MeetsDeadWithGuard(s)
    ensures var t := LateDrop(s);
            var u := DroppedLate(s).(handles := s.handles, next := s.next, faults := s.faults, bits := s.bits,
                                     placing := s.placing, send := Undone(s.handles[s.next]));
            && Enabled(t, Undo) && Next(t, Undo) == u
            && Enabled(u, Remove) && Next(u, Remove) == DroppedLate(s)
  {
    var t, h := LateDrop(s), s.handles[s.next];
    var w := t.workers[h.wid];
    assert t.workers[h.wid := w.(raw := w.raw - 1)] == DroppedLate(s).workers;
  }

  lemma RefusesLate(s: State)
    requires MeetsDeadWithGuard(s)
    ensures Leads(s, DroppedLate(s), 0)
  {
    LeadsNowhere(s);
    RefusedIn(s);
    DropsIn(s);
    UndoneLate(s);
    var h := s.handles[s.next];
    OneStep(s, s, 0, Inc);
    OneStep(s, CountedFor(s), 0, Put);
    OneStep(s, CountedFor(s).(send := Refused(h)), 0, DropGuard(h.wid));
    OneStep(s, LateDrop(s), 0, Undo);
    var u := DroppedLate(s).(handles := s.handles, next := s.next, faults := s.faults, bits := s.bits,
                             placing := s.placing, send := Undone(h));
    OneStep(s, u, 0, Remove);
  }

  /** All workers are filled but for one place; its worker serves a connection and dies, and the next
      connection meets it. */
  lemma DiesServing(limit: nat, threads: nat, sockets: nat) returns (s: State, k: nat, t: State)
    requires limit > 1 && threads > 0 && sockets > 0
    ensures Leads(Start(limit, threads, sockets), t, 1) && MeetsDeadWithGuard(t)
    ensures LastPlace(s, k) && OnlyFills(Start(limit, threads, sockets), s)
    ensures var v := s.handles[k].wid;
            && v < |s.workers| && s.workers[v].due == 0
            && t == s.(workers := s.workers[v := s.workers[v].(alive := false, taken := 1, guards := 1)],
                       placing := Looking(Conn(0, 0)), serving := Some(0), next := k)
  {
    var s0 := Start(limit, threads, sockets);
    s, k := FillsButOne(limit, threads, sockets);
    LeadsInv(limit, threads, sockets, s, 0);
    var h := s.handles[k];
    assert h in s.handles && Marks(s, h) && ConservedAt(s, h.wid);
    assert s0.workers[h.wid] == FreshWorker(h.wid);
    var w := s.workers[h.wid];
    var u := s.(workers := s.workers[h.wid := w.(taken := w.taken + 1, guards := w.guards + 1)]);
    assert Next(s, Receive(h.wid)) == u;
    OneStep(s0, s, 0, Receive(h.wid));
    StillLastPlace(s, k, u);
    t := DiesWithTheLastPlace(u, k);
    LeadsOn(s0, u, t, 0, 1);
    assert t.workers == s.workers[h.wid := w.(alive := false, taken := 1, guards := 1)];
  }

  lemma StillLastPlace(s: State, k: nat, u: State)
    requires LastPlace(s, k)
    requires u == s.(workers := u.workers) && |u.workers| == |s.workers|
    requires forall w :: 0 <= w < |s.workers| ==>
               u.workers[w].raw == s.workers[w].raw && u.workers[w].alive == s.workers[w].alive
    ensures LastPlace(u, k)
  {
    forall h | h in u.handles ensures Marks(u, h) { assert Marks(s, h); }
    forall j | 0 <= j < |u.handles| && j != k ensures Has(u, u.handles[j], u.limit) {
      assert Has(s, s.handles[j], s.limit);
    }
    assert Has(s, s.handles[k], s.limit - 1);
  }

  /** The due notification is queued, the thread woken, and the notification read. */
  lemma NoticeIsRead(s: State, v: nat)
    requires Still(s) && v < |s.workers| && s.workers[v].due > 0
    ensures var w := s.workers[v];
            Leads(s, s.(workers := s.workers[v := w.(due := w.due - 1)], bits := s.bits + {w.idx},
                        signalled := false, awake := true, draining := true), 0)
  {
    var w := s.workers[v];
    LeadsNowhere(s);
    NoticeIsQueued(s, v);
    var s2 := s.(workers := s.workers[v := w.(due := w.due - 1)], queue := [WorkerAvailable(w.idx)], signalled := true);
    var s3 := s2.(signalled := false, awake := true);
    assert Next(s2, TakeWake) == s3;
    OneStep(s, s2, 0, TakeWake);
    var s4 := s3.(draining := true);
    assert Next(s3, Drain) == s4;
    OneStep(s, s3, 0, Drain);
    assert s4.queue[1..] == [];
    assert Next(s4, Pop) == s4.(queue := [], bits := s.bits + {w.idx});
    OneStep(s, s4, 0, Pop);
  }

  lemma NoticeIsQueued(s: State, v: nat)
    requires Still(s) && v < |s.workers| && s.workers[v].due > 0
    ensures var w := s.workers[v];
            Leads(s, s.(workers := s.workers[v := w.(due := w.due - 1)], queue := [WorkerAvailable(w.idx)],
                        signalled := true), 0)
  {
    var w := s.workers[v];
    LeadsNowhere(s);
    var s1 := s.(workers := s.workers[v := w.(due := w.due - 1)], queue := [WorkerAvailable(w.idx)],
                 waking := s.waking + 1);
    assert s.queue + [WorkerAvailable(w.idx)] == [WorkerAvailable(w.idx)];
    assert Next(s, Notify(v)) == s1;
    OneStep(s, s, 0, Notify(v));
    assert Next(s1, Signal) == s1.(waking := s.waking, signalled := true);
    OneStep(s, s1, 0, Signal);
  }

  /** A scan after the notification takes up a connection that has arrived. */
  lemma TakesUp(s: State, conn: Conn)
    requires conn.token == 0
    requires Resting(s) && s.draining && s.bits != {} && s.listeners != [] && s.listeners[0] == Listener(0, false, true)
    ensures Leads(s, s.(listeners := s.listeners[0 := Listener(0, true, true)], serving := Some(0),
                        placing := Looking(conn)), 0)
  {
    LeadsNowhere(s);
    var s1 := s.(listeners := s.listeners[0 := Listener(1, true, true)]);
    assert Next(s, Arrive(0)) == s1;
    OneStep(s, s, 0, Arrive(0));
    var s2 := s1.(serving := Some(0));
    assert Next(s1, Serve(0)) == s2;
    OneStep(s, s1, 0, Serve(0));
    var t := s.(listeners := s.listeners[0 := Listener(0, true, true)], serving := Some(0), placing := Looking(conn));
    assert s2.listeners[0 := Listener(0, true, true)] == t.listeners;
    assert Next(s2, TakeConn(conn)) == t;
    OneStep(s, s2, 0, TakeConn(conn));
  }

  // ---------------------------------------------------------------- one worker

  /** The only worker is gone, its connection dropped, and its notification still to come. */
  lemma OnlyWorkerGone(limit: nat, sockets: nat) returns (s: State)
    requires limit > 1 && sockets > 0
    ensures Leads(Start(limit, 1, sockets), s, 1) && Still(s) && s.limit == limit
    ensures s.handles == [] && s.next == 0 && s.bits == {} && s.faults == [0] && s.restarting.None? && !s.stopping
    ensures s.servers == [0] && |s.workers| == 1 && s.workers[0].due == 1 && s.workers[0].idx == 0
    ensures s.waking == 0
  {
    var s0 := Start(limit, 1, sockets);
    var a, k, b := DiesServing(limit, 1, sockets);
    assert s0.handles == [Handle(0, 0)] && s0.servers == [0] && s0.workers == [FreshWorker(0)];
    RefusesLate(b);
    var c := DroppedLate(b);
    LeadsOn(s0, b, c, 1, 0);
    assert c.handles == [] && c.bits == {};
    s := c.(serving := None);
    assert Next(c, Leave) == s;
    OneStep(s0, c, 1, Leave);
  }

  /** The server replaces the worker, and the accept thread takes the new handle. */
  lemma Replaced(s: State) returns (t: State)
    requires Still(s) && s.handles == [] && s.next == 0 && s.bits == {} && s.faults == [0] && s.restarting.None?
    requires !s.stopping && s.servers == [0] && |s.workers| == 1 && s.limit > 0
    ensures Leads(s, t, 0) && Calm(t) && t.handles == [Handle(1, 0)]
    ensures t.limit == s.limit && t.workers == s.workers + [FreshWorker(0)]
  {
    var a := NewWorkerQueued(s);
    t := NewWorkerTaken(a);
    LeadsOn(s, a, t, 0, 0);
  }

  lemma NewWorkerTaken(s: State) returns (t: State)
    requires Resting(s) && s.signalled && !s.awake && !s.draining && s.taken == {}
    requires s.queue == [NewWorker(Handle(1, 0))] && s.handles == [] && s.next == 0 && s.bits == {} && s.limit > 0
    requires |s.workers| == 2 && s.workers[1] == FreshWorker(0)
    requires s.listeners != [] && s.listeners[0] == Listener(0, false, true)
    ensures Leads(s, t, 0) && Calm(t) && t.handles == [Handle(1, 0)]
    ensures t.limit == s.limit && t.workers == s.workers
  {
    var h := Handle(1, 0);
    LeadsNowhere(s);
    var b := s.(signalled := false, awake := true);
    assert Next(s, TakeWake) == b;
    OneStep(s, s, 0, TakeWake);
    var c := b.(draining := true);
    assert Next(b, Drain) == c;
    OneStep(s, b, 0, Drain);
    var d := c.(queue := [], bits := {0}, handles := [h]);
    assert c.queue[1..] == [] && c.bits + {0} == {0} && c.handles + [h] == [h];
    assert Next(c, Pop) == d;
    OneStep(s, c, 0, Pop);
    t := d.(awake := false, draining := false);
    assert Next(d, QueueEmpty) == t;
    OneStep(s, d, 0, QueueEmpty);
    assert h in t.handles;
    assert forall g :: g in t.handles ==> Marks(t, g);
  }

  lemma NewWorkerQueued(s: State) returns (t: State)
    requires Still(s) && s.faults == [0] && s.restarting.None? && !s.stopping && s.servers == [0] && |s.workers| == 1
    ensures Leads(s, t, 0)
    ensures t == s.(faults := [], servers := [1], workers := s.workers + [FreshWorker(0)],
                    queue := [NewWorker(Handle(1, 0))], signalled := true)
  {
    LeadsNowhere(s);
    var a := s.(restarting := Some(0), faults := []);
    assert s.faults[1..] == [];
    assert Next(s, ServerTake) == a;
    OneStep(s, s, 0, ServerTake);
    t := s.(faults := [], servers := [1], workers := s.workers + [FreshWorker(0)],
            queue := [NewWorker(Handle(1, 0))], signalled := true);
    var b := t.(signalled := s.signalled, waking := s.waking + 1);
    assert s.queue + [NewWorker(Handle(1, 0))] == b.queue && s.servers[0 := 1] == [1];
    assert Next(a, ServerStart) == b;
    OneStep(s, a, 0, ServerStart);
    assert Next(b, Signal) == t;
    OneStep(s, b, 0, Signal);
  }

  /** With one worker and a limit above one, one death is enough as well: the replacement is filled,
      and then the notification of its predecessor is read. */
  lemma OnlyOneDies(limit: nat, sockets: nat)
    requires limit > 1 && sockets > 0
    ensures exists t :: Leads(Start(limit, 1, sockets), t, 1) && !Within(t)
  {
    var s0 := Start(limit, 1, sockets);
    var s := OnlyWorkerGone(limit, sockets);
    var a := Replaced(s);
    LeadsOn(s0, s, a, 1, 0);
    var b := Fill(a, Room(a, a.handles));
    LeadsOn(s0, a, b, 1, 0);
    ReplacementIsFull(s, a, b);
    Overfills(b);
    var t :| Leads(b, t, 0) && !Within(t);
    LeadsOn(s0, b, t, 1, 0);
  }

  /** A due notification for the id of a full worker makes the accept thread overfill it. */
  lemma Overfills(s: State)
    requires Still(s) && s.handles == [Handle(1, 0)] && s.next == 0 && Has(s, Handle(1, 0), s.limit)
    requires s.workers[0].due > 0 && s.workers[0].idx == 0
    ensures exists t :: Leads(s, t, 0) && !Within(t)
  {
    NoticeIsRead(s, 0);
    var w := s.workers[0];
    var c := s.(workers := s.workers[0 := w.(due := w.due - 1)], bits := s.bits + {w.idx},
                signalled := false, awake := true, draining := true);
    TakesUp(c, Conn(1, 0));
    var d := c.(listeners := c.listeners[0 := Listener(0, true, true)], serving := Some(0),
                placing := Looking(Conn(1, 0)));
    LeadsOn(s, c, d, 0, 0);
    assert MaySend(d);
    var t := CountedFor(d);
    assert Next(d, Inc) == t;
    OneStep(s, d, 0, Inc);
    assert Count(t.workers[1]) == t.limit + 1;
  }

  lemma ReplacementIsFull(s: State, a: State, b: State)
    requires |s.workers| == 1 && s.workers[0].due == 1 && s.workers[0].idx == 0
    requires a.workers == s.workers + [FreshWorker(0)] && a.handles == [Handle(1, 0)]
    requires OnlyFills(a, b) && Calm(b) && Room(b, b.handles) == 0
    ensures b.workers[0] == s.workers[0] && Has(b, Handle(1, 0), b.limit) && b.next == 0
  {
    OthersUntouched(a, b);
    OnlyOneIsFull(b);
  }

  lemma OthersUntouched(a: State, b: State)
    requires OnlyFills(a, b) && a.handles == [Handle(1, 0)] && |a.workers| == 2
    ensures b.handles == a.handles && b.workers[0] == a.workers[0]
  {
    assert forall h :: h in a.handles ==> h == Handle(1, 0);
  }

  lemma OnlyOneIsFull(s: State)
    requires Calm(s) && |s.handles| == 1 && Room(s, s.handles) == 0
    ensures Has(s, s.handles[0], s.limit) && s.next == 0
  {
    assert s.handles[0] in s.handles && Marks(s, s.handles[0]);
    RoomAtLeast(s, s.handles, 0);
  }

  // ---------------------------------------------------------------- the boundary

  lemma NobodyToExceed(limit: nat, sockets: nat, t: State, d: nat)
    requires limit > 0 && Leads(Start(limit, 0, sockets), t, d)
    ensures t.workers == []
  {
    var steps :| After(Start(limit, 0, sockets), steps) == Some(t) && Deaths(steps) == d;
    LeadsInv(limit, 0, sockets, t, d);
    ServersAreFixed(limit, 0, sockets, steps);
  }

  lemma {:induction false} ServersAreFixed(limit: nat, threads: nat, sockets: nat, steps: seq<Step>)
    requires limit > 0 && After(Start(limit, threads, sockets), steps).Some?
    ensures |After(Start(limit, threads, sockets), steps).value.servers| == threads
    decreases |steps|
  {
    if steps != [] {
      var n := |steps| - 1;
      ServersAreFixed(limit, threads, sockets, steps[..n]);
      StepGrows(After(Start(limit, threads, sockets), steps[..n]).value, steps[n]);
    }
  }

  /** When the limit cannot be exceeded at all. */
  predicate Safe(limit: nat, threads: nat) { threads == 0 || (threads == 1 && limit == 1) }

  lemma SafeOnes(limit: nat, threads: nat, sockets: nat, d: nat)
    requires limit > 0 && (d == 0 || Safe(limit, threads))
    ensures LimitHolds(limit, threads, sockets, d)
  {
    var s0 := Start(limit, threads, sockets);
    forall t, e: nat | e <= d && Leads(s0, t, e) ensures Within(t) {
      var steps :| After(s0, steps) == Some(t) && Deaths(steps) == e;
      LeadsInv(limit, threads, sockets, t, e);
      if threads == 0 {
        NobodyToExceed(limit, sockets, t, e);
      } else if threads == 1 && limit == 1 {
        SoloRun(sockets, steps);
        SoloIsWithin(t);
      } else {
        NobodyDied(s0, steps);
        forall w | 0 <= w < |t.workers| ensures Count(t.workers[w]) <= t.limit { assert OneToken(t, w); }
      }
    }
  }

  /** The exact boundary: in all runs with at most `d` deaths every worker stays within the limit, if
      and only if nobody may die, or there is no worker, or one worker with a limit of one. */
  lemma LimitHoldsIff(limit: nat, threads: nat, sockets: nat, d: nat)
    requires limit > 0 && sockets > 0
    ensures LimitHolds(limit, threads, sockets, d) <==> d == 0 || Safe(limit, threads)
  {
    if d == 0 || Safe(limit, threads) {
      SafeOnes(limit, threads, sockets, d);
    } else {
      if threads >= 2 { OneOfManyDies(limit, threads, sockets); } else { OnlyOneDies(limit, sockets); }
      var t :| Leads(Start(limit, threads, sockets), t, 1) && !Within(t);
    }
  }
}
