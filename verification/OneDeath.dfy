/** With a limit of one, a single death does not stop the accept thread: the dead worker has nothing to
    announce once its handle is gone. */
module OneDeath {
  import opened Options
  import opened Protocol
  import opened ProtocolProofs
  import opened ProtocolTheorems
  import opened AcceptSteps
  import opened AcceptSearch
  import opened LimitRuns
  import opened ConnectionLimit

  // ---------------------------------------------------------------- what holds after one death

  ghost predicate Held(s: State, w: nat) { exists h :: h in s.handles && h.wid == w }

  /** Every flag, and every notification on its way, is for a worker that is held. */
  ghost predicate FlagsHaveHandles(s: State) {
    && s.bits <= HandleIds(s.handles)
    && (forall i: Interest :: i in s.queue && i.WorkerAvailable? ==> i.idx in HandleIds(s.handles))
    && (s.placing.Looking? ==> s.handles != [])
  }

  /** A send that was not forced goes to a worker that is marked. */
  ghost predicate SendsToMarked(s: State) {
    s.placing.Looking? && (s.send.Counted? || s.send.Refused? || s.send.Undone?) ==> s.send.to.idx in s.bits
  }

  /** A worker that is not held has nothing to do. */
  ghost predicate OthersIdle(s: State) {
    forall w :: 0 <= w < |s.workers| && !Held(s, w) ==> Idles(s.workers[w])
  }

  /** The one that died is one of the first workers, and no handle to it is on its way. */
  ghost predicate OnlyDead(s: State, v: nat) {
    && v < |s.workers| && s.workers[v].idx == v
    && (forall w :: 0 <= w < |s.workers| ==> (s.workers[w].alive <==> w != v))
    && forall h :: NewWorker(h) in s.queue ==> h.wid != v
  }

  /** Marked, and not by a send that has reached the limit or was refused. */
  predicate StillOffered(s: State, v: nat) {
    v in s.bits && !((FullSend(s) || s.send.Refused?) && s.send.to.wid == v)
  }

  /** The dead worker has its one token, and its connection is being placed with those marked, as long
      as its handle is held. */
  ghost predicate Unreported(s: State, v: nat)
    requires v < |s.workers|
  {
    && One(StillOffered(s, v)) + s.workers[v].due + Notices(s.queue, v) + One(Count(s.workers[v]) == 1) == 1
    && Count(s.workers[v]) <= 1
    && !s.placing.Forcing? && (s.placing.Looking? ==> s.bits != {})
    && s.faults == [] && s.restarting.None? && forall i :: i in s.queue ==> !i.NewWorker?
  }

  ghost predicate OneDead(s: State, v: nat) {
    && s.limit == 1 && FlagsHaveHandles(s) && SendsToMarked(s) && OthersIdle(s) && OnlyDead(s, v)
    && (Held(s, v) ==> Unreported(s, v))
  }

  lemma OneDeadGoesOn(s: State, v: nat)
    requires OneDead(s, v)
    ensures !Halting(s)
  {
    if s.bits != {} {
      var i :| i in s.bits;
      var h :| h in s.handles && h.idx == i;
    }
  }

  // ---------------------------------------------------------------- the death

  lemma DeathOfOne(s: State, v: nat)
    requires Inv(s) && AllAlive(s) && s.limit == 1 && SendsToMarked(s) && Enabled(s, Die(v))
    ensures OneDead(Next(s, Die(v)), v)
  {
    var t := Next(s, Die(v));
    assert OneToken(s, v) && ConservedAt(s, v);
    forall w | 0 <= w < |t.workers| ensures Held(t, w) { assert Handle(w, w) in t.handles; }
    FlagsWhileAlive(s);
  }

  lemma FlagsWhileAlive(s: State)
    requires Inv(s) && AllAlive(s)
    ensures FlagsHaveHandles(s)
  {
    forall i | 0 <= i < |s.workers| ensures i in HandleIds(s.handles) {
      assert Handle(i, i) in s.handles && Handle(i, i).idx == i;
    }
    if s.placing.Looking? {
      var i :| i in s.bits;
      assert Handle(i, i) in s.handles;
    }
  }

  lemma AliveGoesOn(s: State)
    requires Inv(s) && AllAlive(s)
    ensures !Halting(s)
  {
    FlagsWhileAlive(s);
    if s.bits != {} {
      var i :| i in s.bits;
      var h :| h in s.handles && h.idx == i;
    }
  }

  // ---------------------------------------------------------------- steps

  lemma StepKeepsSendsToMarked(s: State, step: Step)
    requires NextOk(s) && SendsToMarked(s) && Enabled(s, step)
    ensures SendsToMarked(Next(s, step))
  {
    if SendStep(step) { SendKeepsMarked(s, step); }
    else if step.Pop? { PopSource(s); }
    else if step.TakeConn? { TakeConnSource(s, step.conn); }
    else {
      OtherStepsLeaveNext(s, step);
      BitsStay(s, step);
    }
  }

  lemma SendKeepsMarked(s: State, step: Step)
    requires SendsToMarked(s) && Enabled(s, step) && SendStep(step)
    ensures SendsToMarked(Next(s, step))
  {
    match step
    case Skip =>
    case Inc =>
    case Put =>
    case Settle =>
    case Undo =>
    case Remove =>
  }

  lemma BitsStay(s: State, step: Step)
    requires Enabled(s, step) && !SendStep(step) && !step.Pop?
    ensures Next(s, step).bits == s.bits
  {
    match step
    case TakeWake =>
    case TakeEvent(_) =>
    case Drain =>
    case QueueEmpty =>
    case Serve(_) =>
    case TakeConn(_) =>
    case Leave =>
    case Register(_) =>
    case Deregister(_) =>
    case Receive(_) =>
    case DropGuard(_) =>
    case Notify(_) =>
    case Die(_) =>
    case Signal =>
    case ServerTake =>
    case ServerStart =>
    case ServerGiveUp =>
    case ServerCommand(_) =>
    case Arrive(_) =>
    case Tick(_) =>
  }

  lemma LivesStay(s: State, step: Step)
    requires Enabled(s, step) && !step.Die?
    ensures |s.workers| <= |Next(s, step).workers|
    ensures forall w :: 0 <= w < |s.workers| ==>
              && Next(s, step).workers[w].alive == s.workers[w].alive
              && Next(s, step).workers[w].idx == s.workers[w].idx
  {
    StepGrows(s, step);
    if SendStep(step) { SendKeepsLives(s, step); }
    else if WorkerStep(step) { WorkersStayAlive(s, step); }
    else { OtherStepsLeaveWorkers(s, step); }
  }

  lemma WorkersStayAlive(s: State, step: Step)
    requires Enabled(s, step) && WorkerStep(step) && !step.Die?
    ensures forall w :: 0 <= w < |s.workers| ==>
              w < |Next(s, step).workers| && Next(s, step).workers[w].alive == s.workers[w].alive
  {
    match step
    case Receive(_) =>
    case DropGuard(_) =>
    case Notify(_) =>
  }

  lemma StepKeepsOnlyDead(s: State, step: Step, v: nat)
    requires OnlyDead(s, v) && Enabled(s, step) && !step.Die?
    ensures OnlyDead(Next(s, step), v)
  {
    LivesStay(s, step);
    WhereWorkersComeFrom(s, step);
    WhereNewWorkersComeFrom(s, step);
  }

  /** Only what the accept thread drops is no longer held. */
  lemma StaysHeld(s: State, step: Step, w: nat)
    requires Enabled(s, step) && !step.Remove? && Held(s, w)
    ensures Held(Next(s, step), w)
  {
    var h :| h in s.handles && h.wid == w;
    if step.Pop? { assert s.handles <= Next(s, step).handles; } else { OtherStepsLeaveHandles(s, step); }
    assert h in Next(s, step).handles;
  }

  lemma DeadIsNotHeldAgain(s: State, step: Step, v: nat)
    requires OnlyDead(s, v) && Enabled(s, step) && Held(Next(s, step), v)
    ensures Held(s, v)
  {
    WhereHandlesComeFrom(s, step);
    var h :| h in Next(s, step).handles && h.wid == v;
    assert h in s.handles;
  }

  // ---------------------------------------------------------------- workers that are not held

  lemma IdleStays(s: State, step: Step, w: nat)
    requires WellFormed(s) && Conserved(s) && Enabled(s, step) && !step.Die?
    requires w < |s.workers| && !Held(s, w) && Idles(s.workers[w])
    ensures w < |Next(s, step).workers| && Idles(Next(s, step).workers[w])
  {
    assert ConservedAt(s, w);
    if SendStep(step) { SendLeavesIdle(s, step, w); }
    else if !WorkerStep(step) { OtherStepsLeaveWorkers(s, step); }
  }

  lemma SendLeavesIdle(s: State, step: Step, w: nat)
    requires WellFormed(s) && Enabled(s, step) && SendStep(step) && w < |s.workers| && !Held(s, w)
    ensures w < |Next(s, step).workers| && Next(s, step).workers[w] == s.workers[w]
  {
    if step.Inc? { assert s.handles[s.next] in s.handles; }
    match step
    case Skip =>
    case Inc =>
    case Put =>
    case Settle =>
    case Undo =>
    case Remove =>
  }

  lemma StepKeepsOthersIdle(s: State, step: Step, v: nat)
    requires Inv(s) && OneDead(s, v) && Enabled(s, step) && !step.Die? && !step.Remove?
    ensures OthersIdle(Next(s, step))
  {
    var t := Next(s, step);
    WhereWorkersComeFrom(s, step);
    forall w | 0 <= w < |t.workers| && !Held(t, w) ensures Idles(t.workers[w]) {
      if w < |s.workers| {
        if Held(s, w) { StaysHeld(s, step, w); }
        IdleStays(s, step, w);
      }
    }
  }

  // ---------------------------------------------------------------- flags

  lemma LookingSource(s: State, step: Step)
    requires Enabled(s, step) && Next(s, step).placing.Looking?
    ensures s.placing.Looking? || step.TakeConn?
  {
    if SendStep(step) { SendsGoOnLooking(s, step); }
    else if step.Pop? { PopSource(s); }
    else if !step.TakeConn? { OtherStepsLeaveNext(s, step); }
  }

  lemma SendsGoOnLooking(s: State, step: Step)
    requires Enabled(s, step) && SendStep(step) && Next(s, step).placing.Looking?
    ensures s.placing.Looking?
  {
    match step
    case Skip =>
    case Inc =>
    case Put =>
    case Settle =>
    case Undo =>
    case Remove =>
  }

  lemma IdsStay(s: State, step: Step)
    requires Enabled(s, step) && !step.Remove?
    ensures HandleIds(s.handles) <= HandleIds(Next(s, step).handles)
    ensures s.handles != [] ==> Next(s, step).handles != []
  {
    if step.Pop? { assert s.handles <= Next(s, step).handles; } else { OtherStepsLeaveHandles(s, step); }
  }

  lemma StepKeepsFlags(s: State, step: Step, v: nat)
    requires Inv(s) && OneDead(s, v) && Enabled(s, step) && !step.Remove?
    ensures FlagsHaveHandles(Next(s, step))
  {
    var t := Next(s, step);
    IdsStay(s, step);
    FlagsFound(s, step, v);
    NoticesFound(s, step, v);
    if t.placing.Looking? {
      LookingSource(s, step);
      if step.TakeConn? { var i :| i in s.bits; }
    }
  }

  lemma FlagsFound(s: State, step: Step, v: nat)
    requires OneDead(s, v) && Enabled(s, step) && !step.Remove?
    ensures Next(s, step).bits <= HandleIds(Next(s, step).handles)
  {
    IdsStay(s, step);
    if step.Pop? { PopFlags(s, v); } else { BitSource(s, step); }
  }

  lemma PopFlags(s: State, v: nat)
    requires OneDead(s, v) && Enabled(s, Pop)
    ensures Next(s, Pop).bits <= HandleIds(Next(s, Pop).handles)
  {
    var t := Next(s, Pop);
    assert s.queue[0] in s.queue;
    assert s.handles <= t.handles;
    if s.queue[0].NewWorker? { assert s.queue[0].handle == t.handles[|s.handles|]; }
  }

  lemma NoticesFound(s: State, step: Step, v: nat)
    requires Inv(s) && OneDead(s, v) && Enabled(s, step) && !step.Remove?
    ensures forall i: Interest :: i in Next(s, step).queue && i.WorkerAvailable? ==>
              i.idx in HandleIds(Next(s, step).handles)
  {
    IdsStay(s, step);
    QueueSource(s, step);
    if step.Notify? { NotifierIsHeld(s, step.w); }
  }

  lemma NotifierIsHeld(s: State, w: nat)
    requires WellFormed(s) && OthersIdle(s) && w < |s.workers| && s.workers[w].due > 0
    ensures s.workers[w].idx in HandleIds(s.handles)
  {
    assert Held(s, w);
    var h :| h in s.handles && h.wid == w;
    assert HandleOk(s, h);
  }

  // ---------------------------------------------------------------- the dead worker's token

  lemma OnlyOneOfItsId(s: State, v: nat, h: Handle)
    requires Inv(s) && OnlyDead(s, v) && Held(s, v) && h in s.handles && h.idx == v
    ensures h.wid == v
  {
    var g :| g in s.handles && g.wid == v;
    DistinctHandles(s);
    assert HandleOk(s, g);
    SameIdSameHandle(s.handles, g, h);
  }

  lemma SkipKeepsUnreported(s: State, v: nat)
    requires OneDead(s, v) && Held(s, v) && Enabled(s, Skip)
    ensures Unreported(Next(s, Skip), v)
  {
  }

  lemma IncKeepsUnreported(s: State, v: nat)
    requires Inv(s) && OneDead(s, v) && Held(s, v) && Enabled(s, Inc)
    ensures v < |Next(s, Inc).workers| && Unreported(Next(s, Inc), v)
  {
    assert ConservedAt(s, v);
    assert HandleOk(s, s.handles[s.next]);
  }

  lemma PutKeepsUnreported(s: State, v: nat)
    requires Inv(s) && OneDead(s, v) && Held(s, v) && Enabled(s, Put)
    ensures v < |Next(s, Put).workers| && Unreported(Next(s, Put), v)
  {
    assert ConservedAt(s, v);
    assert HandleOk(s, s.send.to);
  }

  lemma UndoKeepsUnreported(s: State, v: nat)
    requires Inv(s) && OneDead(s, v) && Held(s, v) && Enabled(s, Undo)
    ensures v < |Next(s, Undo).workers| && Unreported(Next(s, Undo), v)
  {
    assert ConservedAt(s, v);
    assert HandleOk(s, s.send.to);
  }

  lemma SettleKeepsUnreported(s: State, v: nat)
    requires Inv(s) && OneDead(s, v) && Held(s, v) && Enabled(s, Settle)
    ensures Unreported(Next(s, Settle), v)
  {
    assert HandleOk(s, s.send.to);
    if s.send.to.idx == v { OnlyOneOfItsId(s, v, s.send.to); }
  }

  lemma NotifyKeepsUnreported(s: State, w: nat, v: nat)
    requires Inv(s) && OneDead(s, v) && Held(s, v) && Enabled(s, Notify(w))
    ensures Unreported(Next(s, Notify(w)), v)
  {
    NoticesPush(s.queue, WorkerAvailable(s.workers[w].idx), v);
    assert Held(s, w);
    var h :| h in s.handles && h.wid == w;
    assert HandleOk(s, h);
    if h.idx == v { OnlyOneOfItsId(s, v, h); }
  }

  lemma DropKeepsUnreported(s: State, w: nat, v: nat)
    requires Inv(s) && OneDead(s, v) && Held(s, v) && Enabled(s, DropGuard(w))
    ensures Unreported(Next(s, DropGuard(w)), v)
  {
    assert ConservedAt(s, v);
  }

  lemma WorkerKeepsUnreported(s: State, step: Step, v: nat)
    requires Inv(s) && OneDead(s, v) && Held(s, v) && Enabled(s, step) && WorkerStep(step) && !step.Die?
    ensures v < |Next(s, step).workers| && Unreported(Next(s, step), v)
  {
    match step
    case Receive(_) =>
    case DropGuard(w) => DropKeepsUnreported(s, w, v);
    case Notify(w) => NotifyKeepsUnreported(s, w, v);
  }

  lemma PopKeepsUnreported(s: State, v: nat)
    requires Inv(s) && OneDead(s, v) && Held(s, v) && Enabled(s, Pop)
    ensures Unreported(Next(s, Pop), v)
  {
    assert s.queue[0] in s.queue;
  }

  lemma CommandKeepsUnreported(s: State, c: Interest, v: nat)
    requires Inv(s) && OneDead(s, v) && Held(s, v) && Enabled(s, ServerCommand(c))
    ensures Unreported(Next(s, ServerCommand(c)), v)
  {
    NoticesPush(s.queue, c, v);
  }

  lemma TakeConnKeepsUnreported(s: State, conn: Conn, v: nat)
    requires OneDead(s, v) && Held(s, v) && Enabled(s, TakeConn(conn))
    ensures Unreported(Next(s, TakeConn(conn)), v)
  {
  }

  predicate EventStep(step: Step) {
    !SendStep(step) && !WorkerStep(step) && !ServerStep(step) && !step.Pop? && !step.TakeConn?
  }

  lemma EventsLeaveQueue(s: State, step: Step)
    requires Enabled(s, step) && EventStep(step)
    ensures var t := Next(s, step); t.queue == s.queue && t.faults == s.faults && t.restarting == s.restarting
  {
    match step
    case TakeWake =>
    case TakeEvent(_) =>
    case Drain =>
    case QueueEmpty =>
    case Serve(_) =>
    case Leave =>
    case Register(_) =>
    case Deregister(_) =>
    case Signal =>
    case Arrive(_) =>
    case Tick(_) =>
  }

  lemma EventKeepsUnreported(s: State, step: Step, v: nat)
    requires OneDead(s, v) && Held(s, v) && Enabled(s, step) && EventStep(step)
    ensures v < |Next(s, step).workers| && Unreported(Next(s, step), v)
  {
    EventsLeaveWorkers(s, step);
    EventsLeaveQueue(s, step);
    OtherStepsLeaveNext(s, step);
    BitsStay(s, step);
  }

  lemma StepKeepsUnreported(s: State, step: Step, v: nat)
    requires Inv(s) && OneDead(s, v) && Held(s, v) && Enabled(s, step) && !step.Remove? && !step.Die?
    ensures v < |Next(s, step).workers| && Unreported(Next(s, step), v)
  {
    if SendStep(step) { SendKeepsUnreported(s, step, v); }
    else if WorkerStep(step) { WorkerKeepsUnreported(s, step, v); }
    else if ServerStep(step) { ServerKeepsUnreported(s, step, v); }
    else if step.Pop? { PopKeepsUnreported(s, v); }
    else if step.TakeConn? { TakeConnKeepsUnreported(s, step.conn, v); }
    else { EventKeepsUnreported(s, step, v); }
  }

  lemma SendKeepsUnreported(s: State, step: Step, v: nat)
    requires Inv(s) && OneDead(s, v) && Held(s, v) && Enabled(s, step) && SendStep(step) && !step.Remove?
    ensures v < |Next(s, step).workers| && Unreported(Next(s, step), v)
  {
    match step
    case Skip => SkipKeepsUnreported(s, v);
    case Inc => IncKeepsUnreported(s, v);
    case Put => PutKeepsUnreported(s, v);
    case Settle => SettleKeepsUnreported(s, v);
    case Undo => UndoKeepsUnreported(s, v);
  }

  /** The server has nothing to restart yet. */
  lemma ServerKeepsUnreported(s: State, step: Step, v: nat)
    requires Inv(s) && OneDead(s, v) && Held(s, v) && Enabled(s, step) && ServerStep(step)
    ensures v < |Next(s, step).workers| && Unreported(Next(s, step), v)
  {
    if step.ServerCommand? { CommandKeepsUnreported(s, step.command, v); }
  }

  // ---------------------------------------------------------------- the handle of the dead worker goes

  /** With its handle goes its flag, and nothing of it is left. */
  lemma NothingIsLeft(s: State, v: nat)
    requires Inv(s) && OneDead(s, v) && Enabled(s, Remove)
    ensures s.send.to in s.handles && s.send.to.wid == v && s.send.to.idx == v && Idles(s.workers[v])
    ensures forall i :: i in s.queue ==> i != WorkerAvailable(v)
  {
    assert HandleOk(s, s.send.to) && Held(s, v) && ConservedAt(s, v);
    NoNotices(s.queue, v);
  }

  lemma {:induction false} NoNotices(q: seq<Interest>, i: nat)
    ensures Notices(q, i) == 0 ==> forall x :: x in q ==> x != WorkerAvailable(i)
  {
    if q != [] {
      NoNotices(q[1..], i);
      assert q == [q[0]] + q[1..];
    }
  }

  lemma RemoveKeepsOneDead(s: State, v: nat)
    requires Inv(s) && OneDead(s, v) && Enabled(s, Remove)
    ensures OneDead(Next(s, Remove), v)
  {
    var t := Next(s, Remove);
    NothingIsLeft(s, v);
    DistinctHandles(s);
    OthersStayHeld(s, v);
    StepKeepsOnlyDead(s, Remove, v);
    SendKeepsMarked(s, Remove);
    SwapRemoveKeepsIds(s.handles, s.next, HandleIds(s.handles));
  }

  lemma OthersStayHeld(s: State, v: nat)
    requires Inv(s) && OneDead(s, v) && Enabled(s, Remove) && s.send.to.wid == v && Distinct(s.handles)
    requires s.send.to.idx == v
    ensures var t := Next(s, Remove);
            && !Held(t, v) && t.workers == s.workers
            && (forall h :: h in s.handles && h.idx != v ==> h in t.handles)
            && forall w :: 0 <= w < |s.workers| && w != v && Held(s, w) ==> Held(t, w)
  {
    var t := Next(s, Remove);
    SwapRemoveDrops(s.handles, s.next);
    forall h | h in s.handles && h.idx != v ensures h in t.handles {
      SurvivesRemoval(s.handles, s.next, h);
    }
    forall h | h in t.handles ensures h.wid != v { assert HandleOk(s, h); }
    forall w | 0 <= w < |s.workers| && w != v && Held(s, w) ensures Held(t, w) {
      var h :| h in s.handles && h.wid == w;
      assert HandleOk(s, h) && HandleOk(s, s.send.to);
      assert h in t.handles;
    }
  }

  lemma SurvivesRemoval(hs: seq<Handle>, k: nat, h: Handle)
    requires k < |hs| && h in hs && h.idx != hs[k].idx
    ensures h in SwapRemove(hs, k)
  {
    var j :| 0 <= j < |hs| && hs[j] == h;
    var r := SwapRemove(hs, k);
    assert j < |r| ==> r[j] == h;
    assert j == |hs| - 1 && k < |r| ==> r[k] == h;
  }

  // ---------------------------------------------------------------- runs

  lemma StepKeepsOneDead(s: State, step: Step, v: nat)
    requires Inv(s) && OneDead(s, v) && Enabled(s, step) && !step.Die?
    ensures OneDead(Next(s, step), v)
  {
    if step.Remove? {
      RemoveKeepsOneDead(s, v);
    } else {
      StepGrows(s, step);
      StepKeepsFlags(s, step, v);
      StepKeepsSendsToMarked(s, step);
      StepKeepsOthersIdle(s, step, v);
      StepKeepsOnlyDead(s, step, v);
      if Held(Next(s, step), v) {
        DeadIsNotHeldAgain(s, step, v);
        StepKeepsUnreported(s, step, v);
      }
    }
  }

  /** What a run with at most one death keeps, if the limit is one. */
  ghost predicate AfterDeaths(s: State, d: nat) {
    && Inv(s) && s.limit == 1 && SendsToMarked(s)
    && (d == 0 ==> AllAlive(s))
    && (d == 1 ==> exists v :: OneDead(s, v))
  }

  lemma StepKeepsAfterDeaths(s: State, step: Step, d: nat)
    requires AfterDeaths(s, d) && Enabled(s, step) && d + DeathsOf(step) <= 1
    ensures AfterDeaths(Next(s, step), d + DeathsOf(step))
  {
    StepKeepsInv(s, step);
    StepGrows(s, step);
    StepKeepsSendsToMarked(s, step);
    if step.Die? {
      DeathOfOne(s, step.w);
    } else if d == 0 {
      OnlyDeathsKill(s, step);
    } else {
      var v :| OneDead(s, v);
      StepKeepsOneDead(s, step, v);
    }
  }

  lemma {:induction false} RunsWithOneDeath(threads: nat, sockets: nat, steps: seq<Step>)
    requires After(Start(1, threads, sockets), steps).Some? && Deaths(steps) <= 1
    ensures AfterDeaths(After(Start(1, threads, sockets), steps).value, Deaths(steps))
    decreases |steps|
  {
    if steps == [] {
      StartInv(1, threads, sockets);
    } else {
      var n := |steps| - 1;
      RunsWithOneDeath(threads, sockets, steps[..n]);
      StepKeepsAfterDeaths(After(Start(1, threads, sockets), steps[..n]).value, steps[n], Deaths(steps[..n]));
    }
  }

  /** With a limit of one, no run with at most one death stops the accept thread for good. */
  lemma OneDeathGoesOn(threads: nat, sockets: nat, steps: seq<Step>)
    requires After(Start(1, threads, sockets), steps).Some? && Deaths(steps) <= 1
    ensures !Halting(After(Start(1, threads, sockets), steps).value)
  {
    RunsWithOneDeath(threads, sockets, steps);
    var t := After(Start(1, threads, sockets), steps).value;
    if Deaths(steps) == 0 {
      AliveGoesOn(t);
    } else {
      var v :| OneDead(t, v);
      OneDeadGoesOn(t, v);
    }
  }
}
