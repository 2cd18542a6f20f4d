/** Theorems about every run of the back-pressure protocol. */
module ProtocolTheorems {
  import opened Options
  import opened Protocol
  import opened ProtocolProofs

  // ---------------------------------------------------------------- runs without a dead worker

  /** While no worker has died, the threads are the ones the server started with. */
  ghost predicate FaultFree(s: State) {
    && AllAlive(s)
    && |s.workers| == |s.servers|
    && (forall w :: 0 <= w < |s.workers| ==> s.workers[w].idx == w && Handle(w, w) in s.handles)
    && (forall i: Interest :: i in s.queue ==> !i.NewWorker? && (i.WorkerAvailable? ==> i.idx < |s.workers|))
    && s.faults == [] && s.restarting.None?
    && !s.send.Refused? && !s.send.Undone?
    && !s.placing.Forcing? && (s.placing.Looking? ==> s.bits != {})
    && (forall i :: i in s.bits ==> i < |s.workers|)
  }

  lemma QueueSource(s: State, step: Step)
    requires Enabled(s, step)
    ensures forall i :: i in Next(s, step).queue ==>
              || i in s.queue
              || (step.Notify? && i == WorkerAvailable(s.workers[step.w].idx))
              || (step.ServerStart? && i.NewWorker?)
              || (step.ServerCommand? && i == step.command)
  {
  }

  lemma BitSource(s: State, step: Step)
    requires Enabled(s, step)
    ensures forall i :: i in Next(s, step).bits ==>
              i in s.bits || (step.Pop? && (s.queue[0] == WorkerAvailable(i) || s.queue[0].NewWorker?))
  {
  }

  lemma FaultFreeServer(s: State, step: Step)
    requires WellFormed(s) && FaultFree(s) && Enabled(s, step) && AllAlive(Next(s, step))
    ensures var t := Next(s, step);
            && t.faults == [] && t.restarting.None? && !t.send.Refused? && !t.send.Undone?
            && !t.placing.Forcing? && (t.placing.Looking? ==> t.bits != {})
            && |t.workers| == |t.servers|
            && (forall h :: h in s.handles ==> h in t.handles)
  {
    if step.Pop? { assert s.handles <= Next(s, step).handles; }
  }

  lemma FaultFreeStays(s: State, step: Step)
    requires WellFormed(s) && FaultFree(s) && Enabled(s, step) && AllAlive(Next(s, step))
    ensures FaultFree(Next(s, step))
  {
    FaultFreeServer(s, step);
    StepGrows(s, step);
    WhereWorkersComeFrom(s, step);
    QueueSource(s, step);
    BitSource(s, step);
    if step.Pop? { assert s.queue[0] in s.queue; }
  }

  // ---------------------------------------------------------------- one token per worker

  /** How many notifications for a worker are in the queue. */
  function Notices(q: seq<Interest>, i: nat): nat {
    if q == [] then 0 else (if q[0] == WorkerAvailable(i) then 1 else 0) + Notices(q[1..], i)
  }

  lemma {:induction false} NoticesPush(q: seq<Interest>, x: Interest, i: nat)
    ensures Notices(q + [x], i) == Notices(q, i) + if x == WorkerAvailable(i) then 1 else 0
    decreases |q|
  {
    if q == [] {
      assert (q + [x])[1..] == [];
    } else {
      assert (q + [x])[1..] == q[1..] + [x];
      NoticesPush(q[1..], x, i);
    }
  }

  function One(b: bool): nat { if b then 1 else 0 }

  /** Available to the accept thread, and not by a send that is about to take that back. */
  predicate Offered(s: State, w: nat) { w in s.bits && !(FullSend(s) && s.send.to.wid == w) }

  /** Of three things exactly one: the worker is on offer, one notification for it is on its way,
      or it is at its limit. */
  predicate OneToken(s: State, w: nat)
    requires w < |s.workers|
  {
    && One(Offered(s, w)) + s.workers[w].due + Notices(s.queue, w) + One(Count(s.workers[w]) == s.limit) == 1
    && Count(s.workers[w]) <= s.limit
  }

  ghost predicate Tokens(s: State) { forall w :: 0 <= w < |s.workers| ==> OneToken(s, w) }

  lemma SendKeepsToken(s: State, step: Step, w: nat)
    requires WellFormed(s) && FaultFree(s) && Enabled(s, step) && SendStep(step)
    requires w < |s.workers| && OneToken(s, w)
    ensures OneToken(Next(s, step), w)
  {
    if step.Inc? { assert HandleOk(s, s.handles[s.next]); }
    else if !step.Skip? { assert HandleOk(s, s.send.to); }
  }

  lemma GuardKeepsToken(s: State, step: Step, w: nat)
    requires WellFormed(s) && FaultFree(s) && Enabled(s, step)
    requires step.Receive? || step.DropGuard? || step.Notify? || step.Die?
    requires w < |s.workers| && OneToken(s, w)
    ensures OneToken(Next(s, step), w)
  {
    if step.Notify? { NoticesPush(s.queue, WorkerAvailable(s.workers[step.w].idx), w); }
  }

  lemma QueueKeepsToken(s: State, step: Step, w: nat)
    requires WellFormed(s) && FaultFree(s) && Enabled(s, step) && (step.Pop? || step.ServerCommand?)
    requires w < |s.workers| && OneToken(s, w)
    ensures OneToken(Next(s, step), w)
  {
    if step.Pop? { assert s.queue[0] in s.queue; }
    else { NoticesPush(s.queue, step.command, w); }
  }

  lemma OtherStepsLeaveTokens(s: State, step: Step)
    requires FaultFree(s) && Enabled(s, step)
    requires !SendStep(step) && !step.Pop? && !step.ServerCommand?
    requires !step.Receive? && !step.DropGuard? && !step.Notify? && !step.Die?
    ensures var t := Next(s, step);
            t.workers == s.workers && t.queue == s.queue && t.bits == s.bits && t.send == s.send && t.limit == s.limit
  {
  }

  lemma StepKeepsToken(s: State, step: Step, w: nat)
    requires WellFormed(s) && FaultFree(s) && Enabled(s, step)
    requires w < |s.workers| && OneToken(s, w)
    ensures w < |Next(s, step).workers| && OneToken(Next(s, step), w)
  {
    if SendStep(step) { SendKeepsToken(s, step, w); }
    else if step.Pop? || step.ServerCommand? { QueueKeepsToken(s, step, w); }
    else if step.Receive? || step.DropGuard? || step.Notify? || step.Die? { GuardKeepsToken(s, step, w); }
    else {
      OtherStepsLeaveTokens(s, step);
      var t := Next(s, step);
      assert Offered(t, w) == Offered(s, w);
    }
  }

  lemma StepKeepsTokens(s: State, step: Step)
    requires WellFormed(s) && FaultFree(s) && Tokens(s) && Enabled(s, step)
    ensures Tokens(Next(s, step))
  {
    WhereWorkersComeFrom(s, step);
    forall w | 0 <= w < |Next(s, step).workers| ensures OneToken(Next(s, step), w) {
      StepKeepsToken(s, step, w);
    }
  }

  // ---------------------------------------------------------------- wake-ups and deliveries

  /** A queue that is not empty has a wake-up pending, a producer about to send one, or an accept
      thread that is already draining it. */
  predicate WakeUpOnItsWay(s: State) { s.queue != [] ==> s.signalled || s.waking > 0 || s.awake }

  lemma StepKeepsWakeUp(s: State, step: Step)
    requires WakeUpOnItsWay(s) && Enabled(s, step)
    ensures WakeUpOnItsWay(Next(s, step))
  {
  }

  /** The connections delivered to one worker, in order. */
  function DeliveredTo(ds: seq<Delivery>, w: nat): seq<Conn> {
    if ds == [] then []
    else DeliveredTo(ds[..|ds| - 1], w) + if ds[|ds| - 1].wid == w then [ds[|ds| - 1].conn] else []
  }

  /** A worker's channel carries exactly what was sent to it, in order. */
  ghost predicate ChannelsFaithful(s: State) {
    && (forall w :: 0 <= w < |s.workers| ==> s.workers[w].got == DeliveredTo(s.deliveries, w))
    && (forall k :: 0 <= k < |s.deliveries| ==> s.deliveries[k].wid < |s.workers|)
  }

  lemma {:induction false} NothingDelivered(ds: seq<Delivery>, w: nat)
    requires forall k :: 0 <= k < |ds| ==> ds[k].wid < w
    ensures DeliveredTo(ds, w) == []
    decreases |ds|
  {
    if ds != [] { NothingDelivered(ds[..|ds| - 1], w); }
  }

  lemma OnlyPutDelivers(s: State, step: Step)
    requires Enabled(s, step)
    ensures var t := Next(s, step);
            if step.Put? && s.workers[s.send.to.wid].alive then
              && t.deliveries == s.deliveries + [Delivery(s.send.conn, s.send.to.wid)]
              && |t.workers| == |s.workers|
              && forall w :: 0 <= w < |s.workers| ==>
                   t.workers[w].got == s.workers[w].got + if w == s.send.to.wid then [s.send.conn] else []
            else
              && t.deliveries == s.deliveries
              && forall w :: 0 <= w < |s.workers| ==> w < |t.workers| && t.workers[w].got == s.workers[w].got
  {
  }

  lemma StepKeepsChannels(s: State, step: Step)
    requires ChannelsFaithful(s) && Enabled(s, step)
    ensures ChannelsFaithful(Next(s, step))
  {
    var t := Next(s, step);
    OnlyPutDelivers(s, step);
    WhereWorkersComeFrom(s, step);
    forall w | 0 <= w < |t.workers| ensures t.workers[w].got == DeliveredTo(t.deliveries, w) {
      if w == |s.workers| { NothingDelivered(s.deliveries, w); }
      else if t.deliveries != s.deliveries { assert t.deliveries[..|s.deliveries|] == s.deliveries; }
    }
  }

  /** Whatever is placed, sent or delivered was taken from a listener before, namely by a `TakeConn`
      step, which takes it from the listener of its token. */
  ghost predicate Sources(s: State, steps: seq<Step>) {
    && (!s.placing.Nothing? ==> TakeConn(s.placing.conn) in steps)
    && (s.send.Counted? ==> TakeConn(s.send.conn) in steps)
    && forall d :: d in s.deliveries ==> TakeConn(d.conn) in steps
  }

  lemma PlacingSource(s: State, step: Step)
    requires Enabled(s, step)
    ensures var t := Next(s, step);
            && (!t.placing.Nothing? ==>
                  (!s.placing.Nothing? && t.placing.conn == s.placing.conn) || step == TakeConn(t.placing.conn))
            && (t.send.Counted? ==>
                  || (s.send.Counted? && t.send.conn == s.send.conn)
                  || (!s.placing.Nothing? && t.send.conn == s.placing.conn))
  {
    if SendStep(step) { SendSource(s, step); }
    else if step.Pop? { PopSource(s); }
    else if step.TakeConn? { TakeConnSource(s, step.conn); }
    else { OtherStepsLeaveNext(s, step); }
  }

  lemma SendSource(s: State, step: Step)
    requires Enabled(s, step) && SendStep(step)
    ensures var t := Next(s, step);
            && (!t.placing.Nothing? ==> !s.placing.Nothing? && t.placing.conn == s.placing.conn)
            && (t.send.Counted? ==>
                  || (s.send.Counted? && t.send.conn == s.send.conn)
                  || (!s.placing.Nothing? && t.send.conn == s.placing.conn))
  {
    match step
    case Skip =>
    case Inc =>
    case Put =>
    case Settle =>
    case Undo =>
    case Remove =>
  }

  lemma PopSource(s: State)
    requires Enabled(s, Pop)
    ensures Next(s, Pop).placing == s.placing && Next(s, Pop).send == s.send
  {
  }

  lemma TakeConnSource(s: State, conn: Conn)
    requires Enabled(s, TakeConn(conn))
    ensures Next(s, TakeConn(conn)).placing == Looking(conn) && Next(s, TakeConn(conn)).send == s.send
  {
  }

  lemma StepKeepsListeners(s: State, step: Step)
    requires Enabled(s, step)
    ensures |Next(s, step).listeners| == |s.listeners|
  {
    match step
    case Skip =>
    case Inc =>
    case Put =>
    case Settle =>
    case Undo =>
    case Remove =>
    case TakeWake =>
    case TakeEvent(_) =>
    case Drain =>
    case Pop =>
    case QueueEmpty =>
    case Serve(_) =>
    case TakeConn(_) =>
    case Leave =>
    case Register(_) =>
    case Deregister(_) =>
    case Receive(_) =>
    case DropGuard(_) =>
    case Notify(_) =>
    case Die(_) =>
    case Signal =>
    case ServerTake =>
    case ServerStart =>
    case ServerGiveUp =>
    case ServerCommand(_) =>
    case Arrive(_) =>
    case Tick(_) =>
  }

  lemma StepKeepsSources(s: State, step: Step, steps: seq<Step>)
    requires Sources(s, steps) && Enabled(s, step)
    ensures Sources(Next(s, step), steps + [step])
  {
    PlacingSource(s, step);
    OnlyPutDelivers(s, step);
    assert step == (steps + [step])[|steps|];
  }

  /** The same of a run that began with `sockets` listeners. */
  ghost predicate FromListeners(s: State, sockets: nat, steps: seq<Step>) {
    && Sources(s, steps) && |s.listeners| == sockets
    && forall c :: TakeConn(c) in steps ==> c.token < sockets
  }

  lemma StepKeepsFromListeners(s: State, step: Step, sockets: nat, steps: seq<Step>)
    requires FromListeners(s, sockets, steps) && Enabled(s, step)
    ensures FromListeners(Next(s, step), sockets, steps + [step])
  {
    StepKeepsListeners(s, step);
    StepKeepsSources(s, step, steps);
  }

  /** In every run, each delivered connection was taken before from the listener of its token. */
  lemma {:induction false} DeliveredWereTaken(limit: nat, threads: nat, sockets: nat, steps: seq<Step>)
    requires limit > 0
    requires After(Start(limit, threads, sockets), steps).Some?
    ensures FromListeners(After(Start(limit, threads, sockets), steps).value, sockets, steps)
    decreases |steps|
  {
    if steps == [] {
      assert FromListeners(Start(limit, threads, sockets), sockets, []);
    } else {
      var n := |steps| - 1;
      DeliveredWereTaken(limit, threads, sockets, steps[..n]);
      StepKeepsFromListeners(After(Start(limit, threads, sockets), steps[..n]).value, steps[n], sockets, steps[..n]);
      assert steps == steps[..n] + [steps[n]];
    }
  }

  lemma {:induction false} DeliveredFrom(ds: seq<Delivery>, w: nat, c: Conn)
    requires c in DeliveredTo(ds, w)
    ensures Delivery(c, w) in ds
    decreases |ds|
  {
    var n := |ds| - 1;
    if c in DeliveredTo(ds[..n], w) { DeliveredFrom(ds[..n], w, c); } else { assert ds[n] == Delivery(c, w); }
  }

  // ---------------------------------------------------------------- all runs

  ghost predicate Inv(s: State) {
    && WellFormed(s) && Conserved(s) && IdsOnce(s) && NoLostCapacity(s)
    && WakeUpOnItsWay(s) && ChannelsFaithful(s)
    && (AllAlive(s) ==> FaultFree(s) && Tokens(s))
  }

  lemma StepKeepsInv(s: State, step: Step)
    requires Inv(s) && Enabled(s, step)
    ensures Inv(Next(s, step))
  {
    StepKeepsWellFormed(s, step);
    StepKeepsConserved(s, step);
    StepKeepsIds(s, step);
    StepKeepsCapacity(s, step);
    StepKeepsWakeUp(s, step);
    StepKeepsChannels(s, step);
    StepGrows(s, step);
    if AllAlive(Next(s, step)) {
      FaultFreeStays(s, step);
      StepKeepsTokens(s, step);
    }
  }

  lemma {:induction false} StartHandles(hs: seq<Handle>, i: nat)
    requires forall k :: 0 <= k < |hs| ==> hs[k].idx == k
    ensures InHandles(hs, i) == if i < |hs| then 1 else 0
    decreases |hs|
  {
    if hs != [] { StartHandles(hs[..|hs| - 1], i); }
  }

  lemma StartInv(limit: nat, threads: nat, sockets: nat)
    requires limit > 0
    ensures Inv(Start(limit, threads, sockets))
  {
    var s := Start(limit, threads, sockets);
    forall i: nat ensures Places(s, i) <= 1 { StartHandles(s.handles, i); }
    forall w | 0 <= w < |s.workers| ensures Handle(w, w) in s.handles && OneToken(s, w) {
      assert s.handles[w] == Handle(w, w);
    }
  }

  /** Every state the server can reach, whatever the threads do and in whatever order. */
  lemma {:induction false} EveryRunKeepsInv(limit: nat, threads: nat, sockets: nat, steps: seq<Step>)
    requires limit > 0
    requires After(Start(limit, threads, sockets), steps).Some?
    ensures Inv(After(Start(limit, threads, sockets), steps).value)
    decreases |steps|
  {
    StartInv(limit, threads, sockets);
    if steps != [] {
      var n := |steps| - 1;
      EveryRunKeepsInv(limit, threads, sockets, steps[..n]);
      StepKeepsInv(After(Start(limit, threads, sockets), steps[..n]).value, steps[n]);
    }
  }

  // ---------------------------------------------------------------- what this means

  /** Under any interleaving of sends and guard drops, until a worker dies, no worker ever has
      more connections than the limit, and each has exactly one token. */
  lemma LimitIsRespected(limit: nat, threads: nat, sockets: nat, steps: seq<Step>, w: nat)
    requires limit > 0
    requires After(Start(limit, threads, sockets), steps).Some?
    requires var t := After(Start(limit, threads, sockets), steps).value; AllAlive(t) && w < |t.workers|
    ensures var t := After(Start(limit, threads, sockets), steps).value;
            OneToken(t, w) && Count(t.workers[w]) <= limit
  {
    EveryRunKeepsInv(limit, threads, sockets, steps);
    LimitIsFixed(limit, threads, sockets, steps);
  }

  lemma {:induction false} LimitIsFixed(limit: nat, threads: nat, sockets: nat, steps: seq<Step>)
    requires limit > 0 && After(Start(limit, threads, sockets), steps).Some?
    ensures After(Start(limit, threads, sockets), steps).value.limit == limit
    decreases |steps|
  {
    if steps != [] {
      var n := |steps| - 1;
      LimitIsFixed(limit, threads, sockets, steps[..n]);
      StepGrows(After(Start(limit, threads, sockets), steps[..n]).value, steps[n]);
    }
  }

  /** No capacity is lost in any run, with or without dead workers: when no worker is marked
      available, each one the accept thread holds is at its limit or has announced itself; and
      then the wake-up that makes the accept thread look is on its way too. */
  lemma NoCapacityIsLost(limit: nat, threads: nat, sockets: nat, steps: seq<Step>, h: Handle)
    requires limit > 0
    requires After(Start(limit, threads, sockets), steps).Some?
    requires var t := After(Start(limit, threads, sockets), steps).value;
             t.send.Free? && t.bits == {} && h in t.handles
    ensures var t := After(Start(limit, threads, sockets), steps).value;
            && h.wid < |t.workers| && t.limit == limit
            && (Count(t.workers[h.wid]) >= limit
                || t.workers[h.wid].due > 0
                || (WorkerAvailable(h.idx) in t.queue && (t.signalled || t.waking > 0 || t.awake)))
  {
    EveryRunKeepsInv(limit, threads, sockets, steps);
    LimitIsFixed(limit, threads, sockets, steps);
    var t := After(Start(limit, threads, sockets), steps).value;
    assert Accounted(t, h) && HandleOk(t, h);
  }

  /** A worker that sees a count of zero when it decides to shut down has no connection queued, no
      connection active, and none being sent to it. */
  lemma ZeroMeansIdle(s: State, w: nat)
    requires Inv(s) && w < |s.workers| && Count(s.workers[w]) == 0
    ensures Queued(s.workers[w]) == 0
    ensures s.workers[w].guards == 0 && InFlight(s, w) == 0
  {
    assert ConservedAt(s, w);
  }

  /** What is in a worker's channel was taken from the listener of its token. */
  lemma ChannelsHoldWhatWasTaken(limit: nat, threads: nat, sockets: nat, steps: seq<Step>, w: nat, c: Conn)
    requires limit > 0 && After(Start(limit, threads, sockets), steps).Some?
    requires var t := After(Start(limit, threads, sockets), steps).value; w < |t.workers| && c in t.workers[w].got
    ensures TakeConn(c) in steps && c.token < sockets
  {
    EveryRunKeepsInv(limit, threads, sockets, steps);
    DeliveredWereTaken(limit, threads, sockets, steps);
    var t := After(Start(limit, threads, sockets), steps).value;
    DeliveredFrom(t.deliveries, w, c);
  }

  /** The raw counters never drop below one, so no decrement is ever refused for want of a count. */
  lemma CountersStayPositive(s: State, w: nat)
    requires Inv(s) && w < |s.workers|
    ensures s.workers[w].raw >= 1
    ensures s.workers[w].guards > 0 ==> Enabled(s, DropGuard(w))
    ensures s.send.Refused? ==> Enabled(s, Undo)
  {
    assert ConservedAt(s, w);
    if s.send.Refused? { assert HandleOk(s, s.send.to) && ConservedAt(s, s.send.to.wid); }
  }

  /** The server always finds the worker a fault report names, and its list keeps one entry per
      index; and an id it is told about is not held by the accept thread at the same time. */
  lemma FaultReportsAreKnown(s: State, k: nat)
    requires Inv(s) && k < |s.faults|
    ensures s.faults[k] < |s.servers| && s.workers[s.servers[s.faults[k]]].idx == s.faults[k]
    ensures forall h :: h in s.handles ==> h.idx != s.faults[k]
  {
    assert s.faults[k] in s.faults;
    forall h | h in s.handles ensures h.idx != s.faults[k] {
      var j :| 0 <= j < |s.handles| && s.handles[j] == h;
      OnceInHandles(s.handles, j);
      assert Places(s, h.idx) <= 1;
    }
  }
}
