/** The back-pressure protocol of actix-server as a state machine over its atomic steps.

    Three kinds of thread share this state: the accept thread, the worker threads, and the server
    task. A step is one atomic action of one of them: a fetch-and-add on a connection counter, a
    channel operation, a push to or pop from the waker queue, one signal of the poll waker. Any
    sequence of enabled steps is a run. */
module Protocol {
  import opened Options

  /** The accept thread's handle to one worker; `wid` names the worker thread it leads to. */
  datatype Handle = Handle(wid: nat, idx: nat)

  /** A connection, with the token of the listener it was taken from, which is the position of that
      listener among all of them. */
  datatype Conn = Conn(id: nat, token: nat)

  /** One worker thread. `got` lists the connections put in its channel, of which the first `taken`
      were received; `guards` counts live connection guards, and `due` the guard drops that have
      decremented the counter below the limit and have not yet queued their notification. */
  datatype Worker = Worker(idx: nat, alive: bool, raw: nat, got: seq<Conn>, taken: nat, guards: nat, due: nat)

  datatype Interest = WorkerAvailable(idx: nat) | NewWorker(handle: Handle) | Pause | Resume | Stop

  /** Where the accept thread stands within one send: not sending; counter incremented; connection
      in the channel; connection refused; increment undone. `full` is the remembered answer of the
      increment, that it reached the limit. */
  datatype Send =
    | Free
    | Counted(to: Handle, conn: Conn, full: bool)
    | Landed(to: Handle, full: bool)
    | Refused(to: Handle)
    | Undone(to: Handle)

  /** What the accept thread is placing with a worker: nothing; a connection, for which it looks for
      a worker marked available; or a connection that any worker will do for. */
  datatype Placing = Nothing | Looking(conn: Conn) | Forcing(conn: Conn)

  datatype Delivery = Delivery(conn: Conn, wid: nat)

  /** A listening socket: connections not yet accepted, whether the poll has an unread readiness
      event for it, and whether it is registered with the poll. */
  datatype Listener = Listener(backlog: nat, edge: bool, registered: bool)

  datatype State = State(
    limit: nat,
    workers: seq<Worker>,
    // the waker queue, the pending wake-up of the poll, and producers between push and wake-up
    queue: seq<Interest>,
    signalled: bool,
    waking: nat,
    // the server task: queued fault reports, the one being handled, its worker handles by index
    faults: seq<nat>,
    restarting: Option<nat>,
    servers: seq<nat>,
    stopping: bool,
    // the accept thread: workers
    handles: seq<Handle>,
    next: nat,
    bits: set<nat>,
    placing: Placing,
    send: Send,
    deliveries: seq<Delivery>,
    // the accept thread: events. A wake-up or events of listeners were taken from the poll; the queue
    // is being drained; connections are being accepted from a listener
    awake: bool,
    taken: set<nat>,
    draining: bool,
    serving: Option<nat>,
    // the outside world
    listeners: seq<Listener>,
    clock: nat)

  datatype Step =
    // accept thread: placing one connection. It passes over a worker; or it sends, in this order
    | Skip
    | Inc
    | Put
    | Settle
    | Undo
    | Remove
    // accept thread: events of the poll, the waker queue, and the accept loop of a listener
    | TakeWake
    | TakeEvent(l: nat)
    | Drain
    | Pop
    | QueueEmpty
    | Serve(l: nat)
    | TakeConn(conn: Conn)
    | Leave
    | Register(l: nat)
    | Deregister(l: nat)
    // worker threads
    | Receive(w: nat)
    | DropGuard(w: nat)
    | Notify(w: nat)
    | Die(w: nat)
    // any producer of the waker queue, after its push
    | Signal
    // server task
    | ServerTake
    | ServerStart
    | ServerGiveUp
    | ServerCommand(command: Interest)
    // outside world
    | Arrive(l: nat)
    | Tick(time: nat)

  predicate IsEnvironment(step: Step) {
    step.Receive? || step.DropGuard? || step.Notify? || step.Die? || step.Signal? || step.ServerTake?
    || step.ServerStart? || step.ServerGiveUp? || step.ServerCommand? || step.Arrive? || step.Tick?
  }

  function Count(w: Worker): int { w.raw - 1 }

  function FreshWorker(idx: nat): Worker { Worker(idx, true, 1, [], 0, 0, 0) }

  /** `Vec::swap_remove`. */
  function SwapRemove<T>(s: seq<T>, k: nat): seq<T>
    requires k < |s|
  {
    if k == |s| - 1 then s[..k] else s[k := s[|s| - 1]][..|s| - 1]
  }

  predicate AllAlive(s: State) { forall w :: 0 <= w < |s.workers| ==> s.workers[w].alive }

  function HandleIds(hs: seq<Handle>): set<nat> { set h | h in hs :: h.idx }

  // ---------------------------------------------------------------- steps

  /** The accept thread is not in the middle of placing a connection. */
  predicate Resting(s: State) { s.send.Free? && s.placing.Nothing? && s.serving.None? }

  /** A send goes to the next worker, if that is marked available, or if any will do. */
  predicate MaySend(s: State) {
    && s.next < |s.handles|
    && s.handles[s.next].wid < |s.workers|
    && (s.placing.Forcing? || (s.placing.Looking? && s.handles[s.next].idx in s.bits))
  }

  predicate Enabled(s: State, step: Step) {
    match step
    case Skip => s.send.Free? && s.placing.Looking? && s.next < |s.handles| && s.handles[s.next].idx !in s.bits
    case Inc => s.send.Free? && MaySend(s)
    case Put => s.send.Counted? && s.send.to.wid < |s.workers|
    case Settle => s.send.Landed?
    case Undo => s.send.Refused? && s.send.to.wid < |s.workers| && s.workers[s.send.to.wid].raw > 0
    case Remove => s.send.Undone? && s.next < |s.handles| && s.handles[s.next] == s.send.to
    case TakeWake => s.signalled && Resting(s) && !s.draining
    case TakeEvent(l) =>
      l < |s.listeners| && s.listeners[l].edge && l !in s.taken && Resting(s) && !s.draining
    case Drain => s.awake && Resting(s) && !s.draining
    case Pop => s.draining && Resting(s) && s.queue != []
    case QueueEmpty => s.draining && Resting(s) && s.queue == []
    case Serve(l) => l < |s.listeners| && Resting(s) && (s.draining || l in s.taken)
    case TakeConn(conn) =>
      && s.send.Free? && s.placing.Nothing? && s.bits != {}
      && s.serving == Some(conn.token) && conn.token < |s.listeners| && s.listeners[conn.token].backlog > 0
    case Leave =>
      && s.send.Free? && s.placing.Nothing? && s.serving.Some? && s.serving.value < |s.listeners|
      && var x := s.listeners[s.serving.value]; s.bits == {} || x.backlog == 0 || !x.registered
    case Register(l) => l < |s.listeners|
    case Deregister(l) => l < |s.listeners|
    case Receive(w) => w < |s.workers| && s.workers[w].alive && s.workers[w].taken < |s.workers[w].got|
    case DropGuard(w) => w < |s.workers| && s.workers[w].guards > 0 && s.workers[w].raw > 0
    case Notify(w) => w < |s.workers| && s.workers[w].due > 0
    case Die(w) => w < |s.workers| && s.workers[w].alive
    case Signal => s.waking > 0
    case ServerTake => !s.stopping && s.faults != [] && s.restarting.None?
    case ServerStart => s.restarting.Some? && s.restarting.value < |s.servers|
    case ServerGiveUp => s.restarting.Some?
    case ServerCommand(c) => !s.stopping && s.restarting.None? && (c.Pause? || c.Resume? || c.Stop?)
    case Arrive(l) => l < |s.listeners|
    case Tick(_) => true
  }

  /** `Counter::inc` then: the raw value moves up, and the answer says whether it was the limit. */
  function AfterInc(s: State, h: Handle, conn: Conn): State
    requires h.wid < |s.workers|
  {
    var w := s.workers[h.wid];
    s.(workers := s.workers[h.wid := w.(raw := w.raw + 1)], send := Counted(h, conn, w.raw == s.limit))
  }

  /** The channel takes the connection while the worker lives, and hands it back otherwise. */
  function AfterPut(s: State): State
    requires Enabled(s, Put)
  {
    var h, conn := s.send.to, s.send.conn;
    var w := s.workers[h.wid];
    if w.alive then
      s.(workers := s.workers[h.wid := w.(got := w.got + [conn])],
         deliveries := s.deliveries + [Delivery(conn, h.wid)],
         send := Landed(h, s.send.full))
    else s.(send := Refused(h))
  }

  /** `Counter::dec` of a dropped guard: one worker in exactly one case has to notify. */
  function AfterDrop(s: State, i: nat): State
    requires Enabled(s, DropGuard(i))
  {
    var w := s.workers[i];
    s.(workers := s.workers[i := w.(raw := w.raw - 1, guards := w.guards - 1,
                                    due := w.due + if w.raw == s.limit + 1 then 1 else 0)])
  }

  function AfterPop(s: State): State
    requires s.queue != []
  {
    var t := s.(queue := s.queue[1..]);
    match s.queue[0]
    case WorkerAvailable(idx) => t.(bits := s.bits + {idx})
    case NewWorker(h) => t.(bits := s.bits + {h.idx}, handles := s.handles + [h])
    case _ => t
  }

  function Push(s: State, i: Interest): State { s.(queue := s.queue + [i], waking := s.waking + 1) }

  function SetListener(s: State, l: nat, x: Listener): State
    requires l < |s.listeners|
  {
    s.(listeners := s.listeners[l := x])
  }

  /** `set_next`. */
  function NextIndex(n: nat, len: nat): nat { if n + 1 < len then n + 1 else 0 }

  /** `remove_next`, and what follows it: the index stays in range, and without workers the
      connection is dropped. */
  function AfterRemove(s: State): State
    requires Enabled(s, Remove)
  {
    var rest, idx := SwapRemove(s.handles, s.next), s.handles[s.next].idx;
    s.(handles := rest, next := if |rest| <= s.next then 0 else s.next, faults := s.faults + [idx],
       bits := s.bits - {idx}, send := Free, placing := if rest == [] then Nothing else s.placing)
  }

  function AfterSettle(s: State): State
    requires Enabled(s, Settle)
  {
    s.(bits := if s.send.full then s.bits - {s.send.to.idx} else s.bits,
       next := NextIndex(s.next, |s.handles|), send := Free, placing := Nothing)
  }

  /** Passing over the last worker there is no flag left for, the thread no longer looks at flags. */
  function AfterSkip(s: State): State
    requires Enabled(s, Skip)
  {
    s.(next := NextIndex(s.next, |s.handles|), placing := if s.bits == {} then Forcing(s.placing.conn) else s.placing)
  }

  function Next(s: State, step: Step): State
    requires Enabled(s, step)
  {
    match step
    case Skip => AfterSkip(s)
    case Inc => AfterInc(s, s.handles[s.next], s.placing.conn)
    case Put => AfterPut(s)
    case Settle => AfterSettle(s)
    case Undo =>
      var w := s.workers[s.send.to.wid];
      s.(workers := s.workers[s.send.to.wid := w.(raw := w.raw - 1)], send := Undone(s.send.to))
    case Remove => AfterRemove(s)
    case TakeWake => s.(signalled := false, awake := true)
    case TakeEvent(l) => SetListener(s, l, s.listeners[l].(edge := false)).(taken := s.taken + {l})
    case Drain => s.(draining := true)
    case Pop => AfterPop(s)
    case QueueEmpty => s.(awake := false, draining := false)
    case Serve(l) => s.(serving := Some(l), taken := if s.draining then s.taken else s.taken - {l})
    case TakeConn(conn) =>
      var l := conn.token;
      SetListener(s, l, s.listeners[l].(backlog := s.listeners[l].backlog - 1)).(placing := Looking(conn))
    case Leave => s.(serving := None)
    case Register(l) =>
      // registering reports readiness that is already there; registering twice changes nothing
      if s.listeners[l].registered then s
      else SetListener(s, l, s.listeners[l].(registered := true, edge := s.listeners[l].backlog > 0))
    case Deregister(l) => SetListener(s, l, s.listeners[l].(registered := false, edge := false))
    case Receive(i) =>
      var w := s.workers[i];
      s.(workers := s.workers[i := w.(taken := w.taken + 1, guards := w.guards + 1)])
    case DropGuard(i) => AfterDrop(s, i)
    case Notify(i) =>
      var w := s.workers[i];
      Push(s.(workers := s.workers[i := w.(due := w.due - 1)]), WorkerAvailable(w.idx))
    case Die(i) => s.(workers := s.workers[i := s.workers[i].(alive := false)])
    case Signal => s.(waking := s.waking - 1, signalled := true)
    case ServerTake => s.(restarting := Some(s.faults[0]), faults := s.faults[1..])
    case ServerStart =>
      var idx, wid := s.restarting.value, |s.workers|;
      Push(s.(workers := s.workers + [FreshWorker(idx)], servers := s.servers[idx := wid], restarting := None),
           NewWorker(Handle(wid, idx)))
    case ServerGiveUp => s.(restarting := None)
    case ServerCommand(c) => Push(s.(stopping := c.Stop?), c)
    case Arrive(l) =>
      var x := s.listeners[l];
      SetListener(s, l, x.(backlog := x.backlog + 1, edge := x.edge || x.registered))
    case Tick(time) => s.(clock := s.clock + time)
  }

  /** The server as `Accept::start` leaves it. The builder refuses a limit of zero. */
  function Start(limit: nat, threads: nat, sockets: nat): State
    requires limit > 0
  {
    var handles := seq(threads, i requires i >= 0 => Handle(i, i));
    State(limit, seq(threads, i requires i >= 0 => FreshWorker(i)), [], false, 0,
          [], None, seq(threads, i requires i >= 0 => i), false,
          handles, 0, HandleIds(handles), Nothing, Free, [], false, {}, false, None,
          seq(sockets, _ => Listener(0, false, true)), 0)
  }

  /** The state a run ends in; `None` when one of its steps was not enabled. */
  function After(s: State, steps: seq<Step>): Option<State>
    decreases |steps|
  {
    if steps == [] then Some(s)
    else
      var n := |steps| - 1;
      var t := After(s, steps[..n]);
      if t.Some? && Enabled(t.value, steps[n]) then Some(Next(t.value, steps[n])) else None
  }

  lemma AfterAppend(s: State, steps: seq<Step>, t: State, step: Step)
    requires After(s, steps) == Some(t) && Enabled(t, step)
    ensures After(s, steps + [step]) == Some(Next(t, step))
  {
    assert (steps + [step])[..|steps|] == steps;
  }

  // ---------------------------------------------------------------- runs with their states

  /** A run written down with every state it passes through, the last being the present one. */
  datatype Run = Run(states: seq<State>, steps: seq<Step>)

  ghost predicate StepAt(r: Run, k: nat)
    requires |r.states| == |r.steps| + 1 && k < |r.steps|
  {
    Enabled(r.states[k], r.steps[k]) && r.states[k + 1] == Next(r.states[k], r.steps[k])
  }

  ghost predicate IsRun(r: Run, s: State, t: State) {
    && |r.states| == |r.steps| + 1
    && r.states[0] == s && r.states[|r.steps|] == t
    && forall k :: 0 <= k < |r.steps| ==> StepAt(r, k)
  }

  function Extend(r: Run, step: Step, t: State): Run { Run(r.states + [t], r.steps + [step]) }

  lemma ExtendIsRun(r: Run, s: State, t: State, step: Step)
    requires IsRun(r, s, t) && Enabled(t, step)
    ensures IsRun(Extend(r, step, Next(t, step)), s, Next(t, step))
  {
    var x := Extend(r, step, Next(t, step));
    forall k | 0 <= k < |x.steps| ensures StepAt(x, k) {
      if k < |r.steps| { assert StepAt(r, k); }
    }
  }

  lemma {:induction false} RunIsAfter(r: Run, s: State, t: State)
    requires IsRun(r, s, t)
    ensures After(s, r.steps) == Some(t)
    decreases |r.steps|
  {
    if r.steps != [] {
      var n := |r.steps| - 1;
      var p := Run(r.states[..n + 1], r.steps[..n]);
      forall k | 0 <= k < n ensures StepAt(p, k) { assert StepAt(r, k); }
      RunIsAfter(p, s, r.states[n]);
      assert StepAt(r, n);
    }
  }
}
