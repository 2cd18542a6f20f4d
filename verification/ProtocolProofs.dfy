/** What every step of the back-pressure protocol keeps, and so every run from the start. */
module ProtocolProofs {
  import opened Options
  import opened Protocol

  // ---------------------------------------------------------------- well-formed states

  ghost predicate HandleOk(s: State, h: Handle) {
    h.wid < |s.workers| && s.workers[h.wid].idx == h.idx && h.idx < |s.servers|
  }

  ghost predicate SendOk(s: State) {
    s.send.Free?
    || (s.send.to in s.handles && (s.send.Refused? || s.send.Undone? ==>
          s.send.to.wid < |s.workers| && !s.workers[s.send.to.wid].alive))
  }

  /** The index of the next worker is in range, and is that of the worker a send goes to. */
  predicate NextOk(s: State) {
    && (if s.handles == [] then s.next == 0 else s.next < |s.handles|)
    && (!s.send.Free? ==> s.next < |s.handles| && s.handles[s.next] == s.send.to && !s.placing.Nothing?)
  }

  /** Every fault report names a worker the server knows, so its assertion on the id holds. */
  ghost predicate ServerOk(s: State) {
    && (forall i :: i in s.faults ==> i < |s.servers|)
    && (s.restarting.Some? ==> s.restarting.value < |s.servers|)
    && (forall i :: 0 <= i < |s.servers| ==> s.servers[i] < |s.workers| && s.workers[s.servers[i]].idx == i)
    && (forall w :: 0 <= w < |s.workers| ==> s.workers[w].idx < |s.servers|)
  }

  ghost predicate WellFormed(s: State) {
    && s.limit > 0
    && (forall h :: h in s.handles ==> HandleOk(s, h))
    && (forall h :: NewWorker(h) in s.queue ==> HandleOk(s, h))
    && SendOk(s)
    && NextOk(s)
    && ServerOk(s)
  }

  /** Worker threads are only ever added; they keep their id, and do not come back to life. */
  ghost predicate Grows(s: State, t: State) {
    && t.limit == s.limit && |t.servers| == |s.servers|
    && |s.workers| <= |t.workers|
    && forall w :: 0 <= w < |s.workers| ==>
         t.workers[w].idx == s.workers[w].idx && (t.workers[w].alive ==> s.workers[w].alive)
  }

  ghost predicate OneWorkerGrows(s: State, t: State, w: nat) {
    && w < |s.workers| <= |t.workers|
    && t.workers[w].idx == s.workers[w].idx
    && (t.workers[w].alive ==> s.workers[w].alive)
  }

  lemma SendGrows(s: State, step: Step, w: nat)
    requires Enabled(s, step) && SendStep(step) && w < |s.workers|
    ensures OneWorkerGrows(s, Next(s, step), w)
  {
  }

  lemma WorkerStepGrows(s: State, step: Step, w: nat)
    requires Enabled(s, step) && WorkerStep(step) && w < |s.workers|
    ensures OneWorkerGrows(s, Next(s, step), w)
  {
  }

  lemma WorkerGrows(s: State, step: Step, w: nat)
    requires Enabled(s, step) && w < |s.workers|
    ensures OneWorkerGrows(s, Next(s, step), w)
  {
    if SendStep(step) { SendGrows(s, step, w); }
    else if WorkerStep(step) { WorkerStepGrows(s, step, w); }
    else { WhereWorkersComeFrom(s, step); assert !step.ServerStart? ==> Next(s, step).workers == s.workers; }
  }

  lemma StepGrows(s: State, step: Step)
    requires Enabled(s, step)
    ensures Grows(s, Next(s, step))
  {
    WhereWorkersComeFrom(s, step);
    forall w | 0 <= w < |s.workers|
      ensures Next(s, step).workers[w].idx == s.workers[w].idx
      ensures Next(s, step).workers[w].alive ==> s.workers[w].alive
    {
      WorkerGrows(s, step, w);
    }
    assert Next(s, step).limit == s.limit;
  }

  lemma GrowsKeepsHandle(s: State, t: State, h: Handle)
    requires Grows(s, t) && HandleOk(s, h)
    ensures HandleOk(t, h)
  {
  }

  lemma RemoveKeepsOthers(s: State)
    requires Enabled(s, Remove)
    ensures forall h :: h in Next(s, Remove).handles ==> h in s.handles
  {
    var t := Next(s, Remove);
    assert forall j :: 0 <= j < |t.handles| ==> t.handles[j] in s.handles;
  }

  lemma OtherStepsLeaveHandles(s: State, step: Step)
    requires Enabled(s, step) && !step.Remove? && !step.Pop?
    ensures Next(s, step).handles == s.handles
  {
    match step
    case Skip =>
    case Inc =>
    case Put =>
    case Settle =>
    case Undo =>
    case TakeWake =>
    case TakeEvent(_) =>
    case Drain =>
    case QueueEmpty =>
    case Serve(_) =>
    case TakeConn(_) =>
    case Leave =>
    case Register(_) =>
    case Deregister(_) =>
    case Signal =>
    case Arrive(_) =>
    case Tick(_) =>
    case Receive(_) =>
    case DropGuard(_) =>
    case Notify(_) =>
    case Die(_) =>
    case ServerTake =>
    case ServerStart =>
    case ServerGiveUp =>
    case ServerCommand(_) =>
    case _ =>
  }

  /** Handles come from the queue, and the queue's handles from the server. */
  lemma WhereHandlesComeFrom(s: State, step: Step)
    requires Enabled(s, step)
    ensures forall h :: h in Next(s, step).handles ==> h in s.handles || (step.Pop? && s.queue[0] == NewWorker(h))
  {
    if step.Remove? { RemoveKeepsOthers(s); }
    else if !step.Pop? { OtherStepsLeaveHandles(s, step); }
  }

  lemma WhereNewWorkersComeFrom(s: State, step: Step)
    requires Enabled(s, step)
    ensures forall h :: NewWorker(h) in Next(s, step).queue ==>
              NewWorker(h) in s.queue || (step.ServerStart? && h == Handle(|s.workers|, s.restarting.value))
  {
  }

  lemma StepKeepsServer(s: State, step: Step)
    requires WellFormed(s) && Enabled(s, step)
    ensures ServerOk(Next(s, step))
  {
    StepGrows(s, step);
    WhereFaultsComeFrom(s, step);
    WhereWorkersComeFrom(s, step);
    if step.Remove? { assert s.handles[s.next] in s.handles; }
  }

  lemma WhereFaultsComeFrom(s: State, step: Step)
    requires Enabled(s, step)
    ensures var t := Next(s, step);
            && (forall i :: i in t.faults ==> i in s.faults || (step.Remove? && i == s.handles[s.next].idx))
            && (t.restarting.Some? ==> t.restarting == s.restarting || t.restarting.value in s.faults)
  {
  }

  lemma WhereWorkersComeFrom(s: State, step: Step)
    requires Enabled(s, step)
    ensures var t := Next(s, step);
            if step.ServerStart? then
              && t.workers == s.workers + [FreshWorker(s.restarting.value)]
              && t.servers == s.servers[s.restarting.value := |s.workers|]
            else |t.workers| == |s.workers| && t.servers == s.servers
  {
  }

  lemma StepKeepsSend(s: State, step: Step)
    requires WellFormed(s) && Enabled(s, step)
    ensures SendOk(Next(s, step))
  {
    StepGrows(s, step);
    if step.Inc? { assert s.handles[s.next] in s.handles; }
  }

  lemma SendKeepsNext(s: State, step: Step)
    requires NextOk(s) && Enabled(s, step) && SendStep(step)
    ensures NextOk(Next(s, step))
  {
  }

  lemma PopKeepsNext(s: State)
    requires NextOk(s) && Enabled(s, Pop)
    ensures NextOk(Next(s, Pop))
  {
  }

  lemma TakeConnKeepsNext(s: State, conn: Conn)
    requires NextOk(s) && Enabled(s, TakeConn(conn))
    ensures NextOk(Next(s, TakeConn(conn)))
  {
  }

  lemma OtherStepsLeaveNext(s: State, step: Step)
    requires Enabled(s, step) && !SendStep(step) && !step.Pop? && !step.TakeConn?
    ensures var t := Next(s, step);
            t.next == s.next && t.send == s.send && t.handles == s.handles && t.placing == s.placing
  {
    match step
    case TakeWake =>
    case TakeEvent(_) =>
    case Drain =>
    case QueueEmpty =>
    case Serve(_) =>
    case TakeConn(_) =>
    case Leave =>
    case Register(_) =>
    case Deregister(_) =>
    case Signal =>
    case Arrive(_) =>
    case Tick(_) =>
    case Receive(_) =>
    case DropGuard(_) =>
    case Notify(_) =>
    case Die(_) =>
    case ServerTake =>
    case ServerStart =>
    case ServerGiveUp =>
    case ServerCommand(_) =>
    case _ =>
  }

  lemma StepKeepsNext(s: State, step: Step)
    requires NextOk(s) && Enabled(s, step)
    ensures NextOk(Next(s, step))
  {
    match step
    case Pop => PopKeepsNext(s);
    case TakeConn(conn) => TakeConnKeepsNext(s, conn);
    case _ => if SendStep(step) { SendKeepsNext(s, step); } else { OtherStepsLeaveNext(s, step); }
  }

  lemma StepKeepsWellFormed(s: State, step: Step)
    requires WellFormed(s) && Enabled(s, step)
    ensures WellFormed(Next(s, step))
  {
    var t := Next(s, step);
    StepGrows(s, step);
    StepKeepsServer(s, step);
    StepKeepsSend(s, step);
    StepKeepsNext(s, step);
    WhereHandlesComeFrom(s, step);
    WhereNewWorkersComeFrom(s, step);
    forall h | h in t.handles ensures HandleOk(t, h) {
      if h !in s.handles { assert s.queue[0] in s.queue; }
      GrowsKeepsHandle(s, t, h);
    }
    forall h | NewWorker(h) in t.queue ensures HandleOk(t, h) {
      if NewWorker(h) in s.queue { GrowsKeepsHandle(s, t, h); }
    }
  }

  // ---------------------------------------------------------------- connection conservation

  /** Connections put in the worker's channel and not received. They stay counted if the worker
      dies: its channel is dropped without touching the counter. */
  function Queued(w: Worker): int { |w.got| - w.taken }

  /** A send whose connection is counted, and is not in the channel nor counted back yet. */
  function InFlight(s: State, w: nat): nat {
    if (s.send.Counted? || s.send.Refused?) && s.send.to.wid == w then 1 else 0
  }

  ghost predicate ConservedAt(s: State, w: nat)
    requires w < |s.workers|
  {
    && s.workers[w].taken <= |s.workers[w].got|
    && Count(s.workers[w]) == Queued(s.workers[w]) + s.workers[w].guards + InFlight(s, w)
  }

  /** Every worker's count is exactly its queued connections, its live guards and its sends on
      the way; in particular the raw counter never drops below one. */
  ghost predicate Conserved(s: State) { forall w :: 0 <= w < |s.workers| ==> ConservedAt(s, w) }

  predicate SendStep(step: Step) {
    step.Skip? || step.Inc? || step.Put? || step.Settle? || step.Undo? || step.Remove?
  }

  lemma SendKeepsConservedAt(s: State, step: Step, w: nat)
    requires Enabled(s, step) && SendStep(step) && w < |s.workers| && ConservedAt(s, w)
    ensures ConservedAt(Next(s, step), w)
  {
    match step
    case Skip =>
    case Inc =>
    case Put =>
    case Settle =>
    case Undo =>
    case Remove =>
  }

  lemma WorkerKeepsConservedAt(s: State, step: Step, w: nat)
    requires Enabled(s, step) && WorkerStep(step)
    requires w < |s.workers| && ConservedAt(s, w)
    ensures ConservedAt(Next(s, step), w)
  {
  }

  predicate WorkerStep(step: Step) { step.Receive? || step.DropGuard? || step.Notify? || step.Die? }

  predicate ServerStep(step: Step) {
    step.ServerTake? || step.ServerStart? || step.ServerGiveUp? || step.ServerCommand?
  }

  /** All other steps leave the workers and the send alone, but that the server may add a worker. */
  lemma ServerLeavesWorkers(s: State, step: Step)
    requires Enabled(s, step) && ServerStep(step)
    ensures Next(s, step).send == s.send && s.workers <= Next(s, step).workers
  {
  }

  lemma EventsLeaveWorkers(s: State, step: Step)
    requires Enabled(s, step) && !SendStep(step) && !WorkerStep(step) && !ServerStep(step)
    ensures Next(s, step).send == s.send && Next(s, step).workers == s.workers
  {
    match step
    case TakeWake =>
    case TakeEvent(_) =>
    case Drain =>
    case QueueEmpty =>
    case Serve(_) =>
    case TakeConn(_) =>
    case Leave =>
    case Register(_) =>
    case Deregister(_) =>
    case Signal =>
    case Arrive(_) =>
    case Tick(_) =>
    case _ =>
  }

  lemma OtherStepsLeaveWorkers(s: State, step: Step)
    requires Enabled(s, step) && !SendStep(step) && !WorkerStep(step)
    ensures Next(s, step).send == s.send && s.workers <= Next(s, step).workers
  {
    if ServerStep(step) { ServerLeavesWorkers(s, step); } else { EventsLeaveWorkers(s, step); }
  }

  lemma StepKeepsConservedAt(s: State, step: Step, w: nat)
    requires Enabled(s, step) && WellFormed(s) && w < |Next(s, step).workers|
    requires w < |s.workers| ==> ConservedAt(s, w)
    ensures ConservedAt(Next(s, step), w)
  {
    WhereWorkersComeFrom(s, step);
    if SendStep(step) {
      SendKeepsConservedAt(s, step, w);
    } else if WorkerStep(step) {
      WorkerKeepsConservedAt(s, step, w);
    } else {
      OtherStepsLeaveWorkers(s, step);
      assert s.send != Free ==> HandleOk(s, s.send.to);
    }
  }

  lemma StepKeepsConserved(s: State, step: Step)
    requires WellFormed(s) && Conserved(s) && Enabled(s, step)
    ensures Conserved(Next(s, step))
  {
    forall w | 0 <= w < |Next(s, step).workers| ensures ConservedAt(Next(s, step), w) {
      StepKeepsConservedAt(s, step, w);
    }
  }

  // ---------------------------------------------------------------- worker ids

  /** How often an id occurs among the handles, or among the replacements in the queue. */
  function InHandles(hs: seq<Handle>, i: nat): nat {
    if hs == [] then 0 else InHandles(hs[..|hs| - 1], i) + if hs[|hs| - 1].idx == i then 1 else 0
  }

  function InQueue(q: seq<Interest>, i: nat): nat {
    if q == [] then 0 else (if q[0].NewWorker? && q[0].handle.idx == i then 1 else 0) + InQueue(q[1..], i)
  }

  /** Where the id of a worker can be: with the accept thread, in a fault report, being restarted
      by the server, or in a queued replacement. */
  function Places(s: State, i: nat): nat {
    InHandles(s.handles, i) + multiset(s.faults)[i] + (if s.restarting == Some(i) then 1 else 0) + InQueue(s.queue, i)
  }

  /** No worker id is in two places. */
  ghost predicate IdsOnce(s: State) { forall i :: Places(s, i) <= 1 }

  lemma {:induction false} InQueuePush(q: seq<Interest>, x: Interest, i: nat)
    ensures InQueue(q + [x], i) == InQueue(q, i) + if x.NewWorker? && x.handle.idx == i then 1 else 0
    decreases |q|
  {
    if q == [] {
      assert (q + [x])[1..] == [];
    } else {
      assert (q + [x])[1..] == q[1..] + [x];
      InQueuePush(q[1..], x, i);
    }
  }

  lemma {:induction false} InHandlesUpdate(hs: seq<Handle>, k: nat, h: Handle, i: nat)
    requires k < |hs|
    ensures InHandles(hs[k := h], i) + (if hs[k].idx == i then 1 else 0)
            == InHandles(hs, i) + (if h.idx == i then 1 else 0)
    decreases |hs|
  {
    var n := |hs| - 1;
    if k == n {
      assert hs[k := h][..n] == hs[..n];
    } else {
      InHandlesUpdate(hs[..n], k, h, i);
      assert hs[k := h][..n] == hs[..n][k := h];
    }
  }

  lemma InHandlesRemove(hs: seq<Handle>, k: nat, i: nat)
    requires k < |hs|
    ensures InHandles(SwapRemove(hs, k), i) + (if hs[k].idx == i then 1 else 0) == InHandles(hs, i)
  {
    var n := |hs| - 1;
    if k < n {
      InHandlesUpdate(hs[..n], k, hs[n], i);
      assert hs[k := hs[n]][..n] == hs[..n][k := hs[n]];
    }
  }

  /** The accept thread hands an id to the server, or takes one from the queue. */
  lemma RemoveMovesId(s: State, i: nat)
    requires Enabled(s, Remove)
    ensures Places(Next(s, Remove), i) == Places(s, i)
  {
    InHandlesRemove(s.handles, s.next, i);
  }

  lemma PopMovesId(s: State, i: nat)
    requires Enabled(s, Pop)
    ensures Places(Next(s, Pop), i) == Places(s, i)
  {
    if s.queue[0].NewWorker? {
      assert (s.handles + [s.queue[0].handle])[..|s.handles|] == s.handles;
    }
  }

  /** The server takes an id from a report, and puts it in the queue or drops it for good. */
  lemma ServerMovesId(s: State, step: Step, i: nat)
    requires Enabled(s, step) && (step.ServerTake? || step.ServerStart? || step.ServerGiveUp?)
    ensures Places(Next(s, step), i) ==
            Places(s, i) - if step.ServerGiveUp? && s.restarting == Some(i) then 1 else 0
  {
    if step.ServerTake? {
      assert s.faults == [s.faults[0]] + s.faults[1..];
    } else if step.ServerStart? {
      InQueuePush(s.queue, NewWorker(Handle(|s.workers|, s.restarting.value)), i);
    }
  }

  predicate MovesIds(step: Step) {
    step.Remove? || step.Pop? || step.ServerTake? || step.ServerStart? || step.ServerGiveUp?
  }

  lemma PushLeavesIds(s: State, step: Step)
    requires Enabled(s, step) && (step.Notify? || step.ServerCommand?)
    ensures var t := Next(s, step);
            && t.handles == s.handles && t.faults == s.faults && t.restarting == s.restarting
            && |t.queue| == |s.queue| + 1 && t.queue[..|s.queue|] == s.queue && !t.queue[|s.queue|].NewWorker?
  {
  }

  lemma OtherStepsLeaveIds(s: State, step: Step)
    requires Enabled(s, step) && !MovesIds(step) && !step.Notify? && !step.ServerCommand?
    ensures var t := Next(s, step);
            t.handles == s.handles && t.faults == s.faults && t.restarting == s.restarting && t.queue == s.queue
  {
    match step
    case Skip =>
    case Inc =>
    case Put =>
    case Settle =>
    case Undo =>
    case TakeWake =>
    case TakeEvent(_) =>
    case Drain =>
    case QueueEmpty =>
    case Serve(_) =>
    case TakeConn(_) =>
    case Leave =>
    case Register(_) =>
    case Deregister(_) =>
    case Signal =>
    case Arrive(_) =>
    case Tick(_) =>
    case Receive(_) =>
    case DropGuard(_) =>
    case Notify(_) =>
    case Die(_) =>
    case _ =>
  }

  /** A step moves an id from one place to the next; only giving up on a restart loses one. */
  lemma StepMovesId(s: State, step: Step, i: nat)
    requires Enabled(s, step)
    ensures Places(Next(s, step), i) ==
            Places(s, i) - if step.ServerGiveUp? && s.restarting == Some(i) then 1 else 0
  {
    if step.Remove? { RemoveMovesId(s, i); }
    else if step.Pop? { PopMovesId(s, i); }
    else if MovesIds(step) { ServerMovesId(s, step, i); }
    else if step.Notify? || step.ServerCommand? {
      PushLeavesIds(s, step);
      var t := Next(s, step);
      var x := t.queue[|s.queue|];
      assert t.queue == s.queue + [x];
      InQueuePush(s.queue, x, i);
    } else {
      OtherStepsLeaveIds(s, step);
    }
  }

  lemma StepKeepsIds(s: State, step: Step)
    requires IdsOnce(s) && Enabled(s, step)
    ensures IdsOnce(Next(s, step))
  {
    forall i: nat ensures Places(Next(s, step), i) <= 1 {
      StepMovesId(s, step, i);
      assert Places(s, i) <= 1;
    }
  }

  /** Two handles with one id would count it twice. */
  lemma {:induction false} TwiceInHandles(hs: seq<Handle>, j: nat, k: nat)
    requires j < k < |hs| && hs[j].idx == hs[k].idx
    ensures InHandles(hs, hs[k].idx) >= 2
    decreases |hs|
  {
    var n := |hs| - 1;
    if k < n { TwiceInHandles(hs[..n], j, k); } else { OnceInHandles(hs[..n], j); }
  }

  lemma {:induction false} OnceInHandles(hs: seq<Handle>, j: nat)
    requires j < |hs|
    ensures InHandles(hs, hs[j].idx) >= 1
    decreases |hs|
  {
    var n := |hs| - 1;
    if j < n { OnceInHandles(hs[..n], j); }
  }

  ghost predicate Distinct(hs: seq<Handle>) {
    forall j, k :: 0 <= j < k < |hs| ==> hs[j].idx != hs[k].idx
  }

  lemma DistinctHandles(s: State)
    requires IdsOnce(s)
    ensures Distinct(s.handles)
  {
    forall j, k | 0 <= j < k < |s.handles| ensures s.handles[j].idx != s.handles[k].idx {
      assert Places(s, s.handles[k].idx) <= 1;
      if s.handles[j].idx == s.handles[k].idx { TwiceInHandles(s.handles, j, k); }
    }
  }

  // ---------------------------------------------------------------- no lost capacity

  /** A notification is queued, or a guard drop is about to queue it. */
  ghost predicate Announced(s: State, h: Handle)
    requires h.wid < |s.workers|
  {
    s.workers[h.wid].due > 0 || WorkerAvailable(h.idx) in s.queue
  }

  /** At its limit, or announced. */
  ghost predicate Covered(s: State, h: Handle)
    requires h.wid < |s.workers|
  {
    Count(s.workers[h.wid]) >= s.limit || Announced(s, h)
  }

  predicate FullSend(s: State) { (s.send.Counted? || s.send.Landed?) && s.send.full }

  ghost predicate Accounted(s: State, h: Handle)
    requires h.wid < |s.workers|
  {
    h.idx in s.bits || s.send == Undone(h) || Covered(s, h)
  }

  /** A worker the accept thread holds but does not consider available is at its limit or has
      announced itself, unless the accept thread is just about to drop it as dead; and a send that
      is about to mark its worker unavailable will not strand it. */
  ghost predicate NoLostCapacity(s: State)
    requires WellFormed(s)
  {
    && (forall h :: h in s.handles ==> Accounted(s, h))
    && (FullSend(s) ==> Covered(s, s.send.to))
  }

  /** Only the accept thread takes anything out of the waker queue. */
  lemma QueueKeeps(s: State, step: Step, i: Interest)
    requires Enabled(s, step) && !step.Pop? && i in s.queue
    ensures i in Next(s, step).queue
  {
    var t := Next(s, step);
    assert t.queue == s.queue || t.queue == s.queue + [t.queue[|s.queue|]];
  }

  /** A drop that takes the count below the limit announces itself, and it stays announced until
      the notification is in the queue. */
  lemma DropAnnounces(s: State, step: Step, h: Handle)
    requires Enabled(s, step) && HandleOk(s, h)
    requires !step.Pop? && !(step.Undo? && s.send.to.wid == h.wid)
    requires Count(s.workers[h.wid]) >= s.limit || s.workers[h.wid].due > 0
    ensures h.wid < |Next(s, step).workers| && Covered(Next(s, step), h)
  {
    if step.Notify? && step.w == h.wid {
      assert Next(s, step).queue[|s.queue|] == WorkerAvailable(h.idx);
    }
  }

  /** Only the accept thread can take a notification back, and only undoing a refused increment
      lowers a count without one. */
  lemma CoveredStays(s: State, step: Step, h: Handle)
    requires Enabled(s, step) && HandleOk(s, h) && Covered(s, h)
    requires !step.Pop? && !(step.Undo? && s.send.to.wid == h.wid)
    ensures h.wid < |Next(s, step).workers| && Covered(Next(s, step), h)
  {
    WorkerGrows(s, step, h.wid);
    if WorkerAvailable(h.idx) in s.queue {
      QueueKeeps(s, step, WorkerAvailable(h.idx));
    } else {
      DropAnnounces(s, step, h);
    }
  }

  lemma PopKeepsAccounted(s: State, h: Handle)
    requires Enabled(s, Pop) && HandleOk(s, h) && Accounted(s, h)
    ensures Accounted(Next(s, Pop), h)
  {
    if WorkerAvailable(h.idx) in s.queue && s.queue[0] != WorkerAvailable(h.idx) {
      assert s.queue == [s.queue[0]] + s.queue[1..];
    }
  }

  /** A handle the step keeps stays accounted for. */
  lemma StepKeepsAccounted(s: State, step: Step, h: Handle)
    requires WellFormed(s) && NoLostCapacity(s) && Distinct(s.handles) && Enabled(s, step)
    requires h in s.handles && h in Next(s, step).handles
    ensures h.wid < |Next(s, step).workers| && Accounted(Next(s, step), h)
  {
    var t := Next(s, step);
    assert HandleOk(s, h) && Accounted(s, h);
    StepGrows(s, step);
    if step.Pop? {
      PopKeepsAccounted(s, h);
    } else if step.Undo? && s.send.to.wid == h.wid {
      assert HandleOk(s, s.send.to);
      assert t.send == Undone(h);
    } else if step.Settle? && s.send.full && h.idx == s.send.to.idx {
      SameIdSameHandle(s.handles, h, s.send.to);
      CoveredStays(s, step, h);
    } else if Covered(s, h) {
      CoveredStays(s, step, h);
    } else if step.Remove? {
      SwapRemoveDrops(s.handles, s.next);
    }
  }

  lemma SameIdSameHandle(hs: seq<Handle>, g: Handle, h: Handle)
    requires Distinct(hs) && g in hs && h in hs && g.idx == h.idx
    ensures g == h
  {
    var j :| 0 <= j < |hs| && hs[j] == g;
    var k :| 0 <= k < |hs| && hs[k] == h;
    assert !(j < k) && !(k < j);
  }

  /** With distinct ids, the removed handle's id is gone. */
  lemma SwapRemoveDrops(hs: seq<Handle>, k: nat)
    requires k < |hs| && Distinct(hs)
    ensures forall h :: h in SwapRemove(hs, k) ==> h in hs && h.idx != hs[k].idx
  {
  }

  lemma WhereFullSendsComeFrom(s: State, step: Step)
    requires Enabled(s, step) && FullSend(Next(s, step)) && !step.Inc?
    ensures FullSend(s) && Next(s, step).send.to == s.send.to && !step.Pop? && !step.Undo?
  {
  }

  lemma StepKeepsFullSend(s: State, step: Step)
    requires WellFormed(s) && NoLostCapacity(s) && Enabled(s, step) && FullSend(Next(s, step))
    ensures var t := Next(s, step); t.send.to.wid < |t.workers| && Covered(t, t.send.to)
  {
    if step.Inc? {
      IncCovers(s);
    } else {
      WhereFullSendsComeFrom(s, step);
      assert HandleOk(s, s.send.to);
      CoveredStays(s, step, s.send.to);
    }
  }

  /** An increment that reaches the limit leaves the worker at it. */
  lemma IncCovers(s: State)
    requires WellFormed(s) && Enabled(s, Inc) && FullSend(Next(s, Inc))
    ensures var t := Next(s, Inc); t.send.to.wid < |t.workers| && Covered(t, t.send.to)
  {
    assert s.handles[s.next] in s.handles;
  }

  lemma StepKeepsCapacity(s: State, step: Step)
    requires WellFormed(s) && IdsOnce(s) && NoLostCapacity(s) && Enabled(s, step)
    requires WellFormed(Next(s, step))
    ensures NoLostCapacity(Next(s, step))
  {
    var t := Next(s, step);
    DistinctHandles(s);
    WhereHandlesComeFrom(s, step);
    forall h | h in t.handles ensures Accounted(t, h) {
      if h in s.handles { StepKeepsAccounted(s, step, h); }
    }
    if FullSend(t) { StepKeepsFullSend(s, step); }
  }
}
