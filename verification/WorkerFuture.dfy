/** The worker of actix-server as a future that is polled: service readiness, dispatch, restarts of
    failed services, and shutdown.

    Its channel, counter and guards are those of worker `me` in the protocol; what the worker does to
    them are steps of the protocol, and between any two of them the other threads, and the tasks that
    hold guards, may take steps of theirs, as a schedule dictates. What the services, the restart
    futures and the shutdown timer answer comes from scripts; a script that has run out answers "not
    yet". Tail calls of the source are recursive calls. */
module WorkerFuture {
  import opened Options
  import P = Protocol
  import Q = ProtocolProofs
  import T = ProtocolTheorems
  import A = AcceptSteps
  import opened WorkerServices

  datatype Readiness = IsReady | NotReady | Broken

  datatype RestartOutcome = RestartPending | Restarted | RestartFailed

  datatype Stop = Stop(graceful: bool)

  datatype Poll = Pending | Finished | Panicked

  datatype CheckResult = AllReady(ready: bool) | ServiceFailed(token: nat, factoryIdx: nat)

  /** What others can do: anything but receive from this worker's channel, or end it. */
  predicate ByOthers(step: P.Step, me: nat) { step != P.Receive(me) && step != P.Die(me) }

  lemma OthersOnWorker(s: P.State, step: P.Step, me: nat)
    requires P.Enabled(s, step) && ByOthers(step, me) && me < |s.workers| && s.workers[me].alive
    ensures var t := P.Next(s, step);
            && me < |t.workers| && t.workers[me].alive && t.workers[me].taken == s.workers[me].taken
            && s.workers[me].got <= t.workers[me].got && |t.workers[me].got| <= |s.workers[me].got| + 1
  {
    if Q.SendStep(step) { SendsOnWorker(s, step, me); }
    else if Q.WorkerStep(step) { WorkersOnWorker(s, step, me); }
    else { Q.OtherStepsLeaveWorkers(s, step); }
  }

  lemma SendsOnWorker(s: P.State, step: P.Step, me: nat)
    requires P.Enabled(s, step) && Q.SendStep(step) && me < |s.workers| && s.workers[me].alive
    ensures var t := P.Next(s, step);
            && me < |t.workers| && t.workers[me].alive && t.workers[me].taken == s.workers[me].taken
            && s.workers[me].got <= t.workers[me].got && |t.workers[me].got| <= |s.workers[me].got| + 1
  {
    match step
    case Skip =>
    case Inc =>
    case Put =>
    case Settle =>
    case Undo =>
    case Remove =>
  }

  lemma WorkersOnWorker(s: P.State, step: P.Step, me: nat)
    requires P.Enabled(s, step) && Q.WorkerStep(step) && ByOthers(step, me) && me < |s.workers| && s.workers[me].alive
    ensures var t := P.Next(s, step);
            && me < |t.workers| && t.workers[me].alive && t.workers[me].taken == s.workers[me].taken
            && t.workers[me].got == s.workers[me].got
  {
    match step
    case Receive(_) =>
    case DropGuard(_) =>
    case Notify(_) =>
    case Die(_) =>
  }

  lemma LeavesChannel(s: P.State, step: P.Step, me: nat)
    requires P.Enabled(s, step) && (step == P.Notify(me) || step == P.Signal) && me < |s.workers|
    ensures me < |P.Next(s, step).workers| && P.Next(s, step).workers[me].got == s.workers[me].got
  {
  }

  // ---------------------------------------------------------------- scripts

  /** The scripts at some moment, the connections put in the channel so far, the services built, and
      whether a stop was asked for that is not answered yet. */
  datatype Moment = Moment(restarts: seq<RestartOutcome>, timer: seq<bool>, timedOut: seq<bool>, got: seq<P.Conn>,
                           builds: nat, stopping: bool)

  /** What is left of a script. */
  predicate Left<T(==)>(before: seq<T>, after: seq<T>) {
    |after| <= |before| && after == before[|before| - |after|..]
  }

  predicate Since(b: Moment, m: Moment) {
    && Left(b.restarts, m.restarts) && Left(b.timer, m.timer) && Left(b.timedOut, m.timedOut) && b.got <= m.got
    && m.builds == b.builds + Restarts(b.restarts) - Restarts(m.restarts)
    && (m.stopping ==> b.stopping)
  }

  /** The scripts were left alone. */
  predicate SameScripts(b: Moment, m: Moment) {
    m.restarts == b.restarts && m.timer == b.timer && m.timedOut == b.timedOut
    && m.builds == b.builds && b.got <= m.got && (m.stopping ==> b.stopping)
  }

  lemma SameIsSince(b: Moment, m: Moment)
    requires SameScripts(b, m)
    ensures Since(b, m)
  {
  }

  /** One outcome of a restart was used. */
  lemma RestartIsSince(b: Moment, m: Moment)
    requires m.restarts == Tail(b.restarts) && m.timer == b.timer && m.timedOut == b.timedOut && b.got <= m.got
    requires m.builds == b.builds + if b.restarts != [] && b.restarts[0].Restarted? then 1 else 0
    requires m.stopping ==> b.stopping
    ensures Since(b, m)
    ensures LastUsed(b.restarts, m.restarts) == if b.restarts == [] then None else Some(b.restarts[0])
  {
  }

  lemma SinceTransitive(a: Moment, b: Moment, c: Moment)
    requires Since(a, b) && Since(b, c)
    ensures Since(a, c)
  {
  }

  /** How many restarts of a script succeed. */
  function Restarts(restarts: seq<RestartOutcome>): nat {
    if restarts == [] then 0 else (if restarts[0].Restarted? then 1 else 0) + Restarts(restarts[1..])
  }

  /** The outcome that was used last. */
  function LastUsed<T>(before: seq<T>, after: seq<T>): Option<T> {
    if |after| < |before| then Some(before[|before| - |after| - 1]) else None
  }

  predicate NotElapsed(timer: seq<bool>) { timer == [] || !timer[0] }

  function Tail<T>(s: seq<T>): seq<T> { if s == [] then [] else s[1..] }

  // ---------------------------------------------------------------- notifications

  predicate Extends(r: P.Run, q: P.Run) { r.states <= q.states && r.steps <= q.steps }

  /** After the first `n` steps, worker `w` queued a notification, and after that a wake-up was sent. */
  ghost predicate Tells(steps: seq<P.Step>, n: nat, w: nat) {
    exists i, j :: n <= i < j < |steps| && steps[i] == P.Notify(w) && steps[j] == P.Signal
  }

  lemma DueStays(s: P.State, step: P.Step, w: nat)
    requires P.Enabled(s, step) && step != P.Notify(w) && w < |s.workers| && s.workers[w].due > 0
    ensures w < |P.Next(s, step).workers| && P.Next(s, step).workers[w].due > 0
  {
    if Q.SendStep(step) { DueOutlastsSends(s, step, w); }
    else if !Q.WorkerStep(step) { Q.OtherStepsLeaveWorkers(s, step); }
  }

  lemma DueOutlastsSends(s: P.State, step: P.Step, w: nat)
    requires P.Enabled(s, step) && Q.SendStep(step) && w < |s.workers| && s.workers[w].due > 0
    ensures w < |P.Next(s, step).workers| && P.Next(s, step).workers[w].due > 0
  {
    match step
    case Skip =>
    case Inc =>
    case Put =>
    case Settle =>
    case Undo =>
    case Remove =>
  }

  lemma WakingStays(s: P.State, step: P.Step)
    requires P.Enabled(s, step) && step != P.Signal && s.waking > 0
    ensures P.Next(s, step).waking > 0
  {
    match step
    case Skip =>
    case Inc =>
    case Put =>
    case Settle =>
    case Undo =>
    case Remove =>
    case TakeWake =>
    case TakeEvent(_) =>
    case Drain =>
    case Pop =>
    case QueueEmpty =>
    case Serve(_) =>
    case TakeConn(_) =>
    case Leave =>
    case Register(_) =>
    case Deregister(_) =>
    case Receive(_) =>
    case DropGuard(_) =>
    case Notify(_) =>
    case Die(_) =>
    case ServerTake =>
    case ServerStart =>
    case ServerGiveUp =>
    case ServerCommand(_) =>
    case Arrive(_) =>
    case Tick(_) =>
  }

  /** A notification that was due and is not any more was queued in between. */
  lemma {:induction false} DueWasQueued(r: P.Run, s: P.State, t: P.State, n: nat, w: nat) returns (i: nat)
    requires P.IsRun(r, s, t) && n <= |r.steps|
    requires w < |r.states[n].workers| && r.states[n].workers[w].due > 0
    requires w < |t.workers| && t.workers[w].due == 0
    ensures n <= i < |r.steps| && r.steps[i] == P.Notify(w)
    decreases |r.steps| - n
  {
    assert P.StepAt(r, n);
    if r.steps[n] == P.Notify(w) { return n; }
    DueStays(r.states[n], r.steps[n], w);
    i := DueWasQueued(r, s, t, n + 1, w);
  }

  /** A wake-up that was coming and is not any more was sent in between. */
  lemma {:induction false} WakingWasSent(r: P.Run, s: P.State, t: P.State, n: nat) returns (j: nat)
    requires P.IsRun(r, s, t) && n <= |r.steps| && r.states[n].waking > 0 && t.waking == 0
    ensures n <= j < |r.steps| && r.steps[j] == P.Signal
    decreases |r.steps| - n
  {
    assert P.StepAt(r, n);
    if r.steps[n] == P.Signal { return n; }
    WakingStays(r.states[n], r.steps[n]);
    j := WakingWasSent(r, s, t, n + 1);
  }

  /** Every service was asked, also behind one that was not ready, and took the answer it gave. */
  ghost predicate AllAsked(was: seq<WorkerService>, now: seq<WorkerService>, readiness: seq<Readiness>) {
    |now| == |was| &&
    forall i :: 0 <= i < |now| ==> AnswerAt(readiness, i) != Broken && now[i] == Asked(was[i], AnswerAt(readiness, i))
  }

  /** A script that has run out answers "not yet". */
  function AnswerAt(readiness: seq<Readiness>, i: nat): Readiness {
    if i < |readiness| then readiness[i] else NotReady
  }

  function Behind(readiness: seq<Readiness>, i: nat): seq<Readiness> {
    if i <= |readiness| then readiness[i..] else []
  }

  lemma AnswersInTurn(readiness: seq<Readiness>, i: nat)
    ensures AnswerAt(Behind(readiness, i), 0) == AnswerAt(readiness, i)
    ensures Tail(Behind(readiness, i)) == Behind(readiness, i + 1)
  {
  }

  function Asked(s: WorkerService, answer: Readiness): WorkerService {
    s.(status := match answer case IsReady => Available case NotReady => Unavailable case Broken => Failed)
  }

  /** The services that were available are stopping or stopped, and no other has changed. */
  ghost predicate Marked(was: seq<WorkerService>, now: seq<WorkerService>, force: bool) {
    |now| == |was| &&
    forall i :: 0 <= i < |now| ==>
      now[i] == if was[i].status != Available then was[i]
                else was[i].(status := if force then Stopped else Stopping)
  }

  class ServerWorker {
    const factories: seq<Factory>
    const me: nat
    ghost const limit: nat
    ghost const threads: nat
    ghost const sockets: nat

    var net: P.State
    ghost var trace: P.Run
    /** What the others do at each opportunity. */
    var schedule: seq<seq<P.Step>>

    var services: seq<WorkerService>
    var state: State
    var stops: seq<Stop>
    var builds: nat

    /** The scripts: readiness of services, restart futures, and whether the shutdown timer, and the
        shutdown timeout, have elapsed. */
    var readiness: seq<Readiness>
    var restarts: seq<RestartOutcome>
    var timer: seq<bool>
    var timedOut: seq<bool>

    ghost var log: seq<Act>

    /** The shared state is one that the protocol reaches, and this worker lives in it. */
    ghost predicate Running() reads this`net, this`trace {
      && limit > 0 && P.IsRun(trace, P.Start(limit, threads, sockets), net)
      && me < |net.workers| && net.workers[me].alive
    }

    /** The connections taken from the channel so far, those still in it, and how many. */
    function Taken(): seq<P.Conn> reads this`net
      requires me < |net.workers| && net.workers[me].taken <= |net.workers[me].got|
    {
      net.workers[me].got[..net.workers[me].taken]
    }

    /** There is a service for each listener, built by its factory. */
    ghost predicate Known() reads this`services {
      TokensMatch(factories) && |factories| == sockets > 0 && Routed(factories, services)
    }

    /** What it has taken from its channel is what it has dispatched or dropped, in order. */
    ghost predicate Kept() reads this`net, this`trace, this`log {
      && Running() && LogOk(log)
      && net.workers[me].taken <= |net.workers[me].got| && Handled(log) == Taken()
    }

    ghost predicate Valid() reads this {
      Kept() && Known() && Agree(state, services)
    }

    ghost function Now(): Moment
      requires me < |net.workers|
      reads this`net, this`restarts, this`timer, this`timedOut, this`builds, this`stops, this`state
    {
      Moment(restarts, timer, timedOut, net.workers[me].got, builds, stops != [] || state.InShutdown?)
    }

    /** What a poll that began at `b` and answers "pending" waits for: a connection, with none left in
        the channel; the services, of which one at least is not ready; the restart of a service; or, in
        a shutdown, with all dropped that was queued at `b`, the timer, and with connections left that
        were not given up. */
    ghost predicate Waits(b: Moment)
      requires me < |net.workers|
      reads this
    {
      match state
      case IsAvailable => Q.Queued(net.workers[me]) == 0
      case NotAvailable => !AllAvailable(services)
      case InRestart(_, _) => restarts == [] || LastUsed(b.restarts, restarts) == Some(RestartPending)
      case InShutdown =>
        && b.got <= Handled(log)
        && (NotElapsed(b.timer) || (P.Count(net.workers[me]) > 0 && NotElapsed(b.timedOut)))
    }

    function Budget(): nat reads this`readiness, this`restarts { |readiness| + |restarts| }

    /** How many connections may still come out of the channel. */
    function Coming(): int reads this`net, this`schedule
      requires me < |net.workers|
    {
      |net.workers[me].got| - net.workers[me].taken + A.StepsLeft(schedule)
    }

    /** Any worker the protocol has started, the first ones and replacements alike. */
    constructor (factories: seq<Factory>, services: seq<WorkerService>, me: nat, net: P.State,
                 schedule: seq<seq<P.Step>>, readiness: seq<Readiness>, restarts: seq<RestartOutcome>,
                 timer: seq<bool>, timedOut: seq<bool>,
                 ghost limit: nat, ghost threads: nat, ghost sockets: nat, ghost trace: P.Run)
      requires TokensMatch(factories) && |factories| == sockets > 0 && Routed(factories, services)
      requires forall i :: 0 <= i < |services| ==> services[i].status == Unavailable
      requires limit > 0 && P.IsRun(trace, P.Start(limit, threads, sockets), net)
      requires me < |net.workers| && net.workers[me].alive && net.workers[me].taken == 0
      ensures Valid() && state == NotAvailable && stops == [] && log == [] && this.net == net && this.me == me
    {
      this.factories, this.services, this.me := factories, services, me;
      this.net, this.trace, this.schedule := net, trace, schedule;
      this.limit, this.threads, this.sockets := limit, threads, sockets;
      state, stops, builds := NotAvailable, [], 1;
      this.readiness, this.restarts, this.timer, this.timedOut := readiness, restarts, timer, timedOut;
      log := [];
      new;
      assert net.workers[me].got[..0] == [];
    }

    // -------------------------------------------------------------- steps

    method Do(step: P.Step)
      requires limit > 0 && P.IsRun(trace, P.Start(limit, threads, sockets), net) && P.Enabled(net, step)
      modifies this`net, this`trace
      ensures P.IsRun(trace, P.Start(limit, threads, sockets), net) && net == P.Next(old(net), step)
      ensures trace == P.Extend(old(trace), step, net)
    {
      P.ExtendIsRun(trace, P.Start(limit, threads, sockets), net, step);
      net := P.Next(net, step);
      trace := P.Extend(trace, step, net);
    }

    /** What every run keeps holds here. */
    lemma Reached()
      requires Running()
      ensures T.Inv(net)
    {
      P.RunIsAfter(trace, P.Start(limit, threads, sockets), net);
      T.EveryRunKeepsInv(limit, threads, sockets, trace.steps);
    }

    /** What is in the channel was taken from the listener of its token. */
    lemma CameFromListener(conn: P.Conn)
      requires Running() && conn in net.workers[me].got
      ensures P.TakeConn(conn) in trace.steps && conn.token < sockets
    {
      P.RunIsAfter(trace, P.Start(limit, threads, sockets), net);
      T.ChannelsHoldWhatWasTaken(limit, threads, sockets, trace.steps, me, conn);
    }

    lemma HandledCameFromListeners()
      requires Kept()
      ensures forall conn :: conn in Handled(log) ==> P.TakeConn(conn) in trace.steps && conn.token < sockets
    {
      forall conn | conn in Handled(log) ensures P.TakeConn(conn) in trace.steps && conn.token < sockets {
        assert conn in Taken();
        CameFromListener(conn);
      }
    }

    /** The others take the steps the schedule has for them, as far as they can. */
    method Interfere()
      requires Running()
      modifies this`net, this`trace, this`schedule
      ensures Running() && net.workers[me].taken == old(net.workers[me].taken)
      ensures old(net.workers[me].got) <= net.workers[me].got && Coming() <= old(Coming())
      ensures Extends(old(trace), trace)
    {
      if schedule == [] { return; }
      var batch := schedule[0];
      var later := A.StepsLeft(schedule[1..]);
      schedule := schedule[1..];
      for i := 0 to |batch|
        invariant Running() && net.workers[me].taken == old(net.workers[me].taken)
        invariant schedule == old(schedule)[1..] && Extends(old(trace), trace)
        invariant old(net.workers[me].got) <= net.workers[me].got
        invariant |net.workers[me].got| <= |old(net.workers[me].got)| + i
      {
        if ByOthers(batch[i], me) && P.Enabled(net, batch[i]) {
          OthersOnWorker(net, batch[i], me);
          Do(batch[i]);
        }
      }
    }

    /** The others while this worker is between two actions. */
    method Pause()
      requires Valid()
      modifies this`net, this`trace, this`schedule
      ensures Valid() && Coming() <= old(Coming()) && old(net.workers[me].got) <= net.workers[me].got
      ensures Extends(old(trace), trace)
    {
      Interfere();
      assert Taken() == old(Taken());
    }

    ghost method Note(a: Act)
      requires LogOk(log) && MayFollow(log, a)
      modifies this`log
      ensures LogOk(log) && log == old(log) + [a] && Handled(log) == old(Handled(log)) + HandledBy(a)
    {
      LogAppend(log, a);
      log := log + [a];
    }

    /** `WorkerCounter::total`, which answers a stop request: zero means that nothing is queued,
        nothing is active, and nothing is being sent. */
    method Total() returns (n: int)
      requires Valid()
      ensures n == P.Count(net.workers[me])
      ensures n == 0 ==> Q.Queued(net.workers[me]) == 0 && net.workers[me].guards == 0 && Q.InFlight(net, me) == 0
      ensures n == Q.Queued(net.workers[me]) + net.workers[me].guards + Q.InFlight(net, me)
    {
      n := net.workers[me].raw - 1;
      Reached();
      assert Q.ConservedAt(net, me);
      if n == 0 { T.ZeroMeansIdle(net, me); }
    }

    /** The answer to a stop request, with what the counter stood for. */
    ghost function Answer(idle: bool): Act
      requires me < |net.workers|
      reads this`net
    {
      Told(idle, Q.Queued(net.workers[me]), net.workers[me].guards, Q.InFlight(net, me))
    }

    // -------------------------------------------------------------- readiness and restarts

    /** The next answer of a service's `poll_ready`. */
    method PollReady() returns (r: Readiness)
      modifies this`readiness
      ensures old(readiness) == [] ==> r == NotReady && readiness == []
      ensures old(readiness) != [] ==> r == old(readiness[0]) && readiness == old(readiness)[1..]
    {
      if readiness == [] { return NotReady; }
      r, readiness := readiness[0], readiness[1..];
    }

    /** Polls one service, and notes what it answers. */
    method Ask(idx: nat) returns (r: Readiness)
      requires Known() && idx < |services|
      modifies this`services, this`readiness
      ensures Known() && r == AnswerAt(old(readiness), 0) && readiness == Tail(old(readiness))
      ensures services == old(services)[idx := Asked(old(services)[idx], r)]
    {
      r := PollReady();
      services := services[idx := Asked(services[idx], r)];
    }

    /** `check_readiness`: polls every service that is available or unavailable. It stops at the
        first that fails. "Ready" means that every one of those polls succeeded in this check. */
    method CheckReadiness() returns (r: CheckResult)
      requires Known() && Agree(NotAvailable, services)
      modifies this`services, this`readiness
      ensures Known() && |readiness| <= |old(readiness)|
      ensures r == AllReady(true) ==>
                && AllAvailable(services)
                && |readiness| + |services| == |old(readiness)| && readiness == old(readiness)[|services|..]
                && forall i :: 0 <= i < |services| ==> old(readiness)[i] == IsReady
      ensures r.AllReady? ==> Agree(NotAvailable, services) && AllAsked(old(services), services, old(readiness))
      ensures r == AllReady(false) ==> !AllAvailable(services)
      ensures r.ServiceFailed? ==>
                && r.token < |services| && r.factoryIdx == r.token && r.token < |old(readiness)|
                && old(readiness)[r.token] == Broken && readiness == old(readiness)[r.token + 1..]
                && services[r.token].status == Failed && |readiness| < |old(readiness)|
                && forall i :: 0 <= i < |services| && i != r.token ==> Polled(services[i])
    {
      var ready := true;
      ghost var slow := 0;
      for idx := 0 to |services|
        invariant Known() && Agree(NotAvailable, services) && |services| == |old(services)|
        invariant readiness == Behind(old(readiness), idx)
        invariant forall i :: idx <= i < |services| ==> services[i] == old(services)[i]
        invariant forall i :: 0 <= i < idx ==> services[i] == Asked(old(services)[i], AnswerAt(old(readiness), i))
        invariant forall i :: 0 <= i < idx ==> AnswerAt(old(readiness), i) != Broken
        invariant ready ==> idx <= |old(readiness)| && forall i :: 0 <= i < idx ==> old(readiness)[i] == IsReady
        invariant !ready ==> slow < idx && AnswerAt(old(readiness), slow) == NotReady
      {
        if Polled(services[idx]) {
          AnswersInTurn(old(readiness), idx);
          var poll := Ask(idx);
          match poll {
            case IsReady =>
            case NotReady => ready, slow := false, idx;
            case Broken => return ServiceFailed(idx, services[idx].factoryIdx);
          }
        }
      }
      return AllReady(ready);
    }

    /** The same, as far as the worker goes by it. */
    method Check() returns (r: CheckResult)
      requires Kept() && Known() && Agree(NotAvailable, services)
      modifies this`services, this`readiness, this`log
      ensures Kept() && Known() && |readiness| <= |old(readiness)|
      ensures r == AllReady(true) ==> log == old(log) + [FoundReady(services)] && |readiness| < |old(readiness)|
      ensures r.AllReady? ==> Agree(NotAvailable, services)
      ensures r == AllReady(false) ==> !AllAvailable(services) && log == old(log)
      ensures r.ServiceFailed? ==>
                && r.token < |services| && r.factoryIdx == services[r.token].factoryIdx && log == old(log)
                && |readiness| < |old(readiness)|
                && forall i :: 0 <= i < |services| && i != r.token ==> Polled(services[i])
    {
      r := CheckReadiness();
      if r == AllReady(true) { Note(FoundReady(services)); }
    }

    /** `restart_service`. */
    method RestartService(token: nat, factoryId: nat)
      requires Known() && token < |services| && factoryId == services[token].factoryIdx
      requires forall i :: 0 <= i < |services| && i != token ==> Polled(services[i])
      modifies this`services, this`state
      ensures Known() && services == old(services)[token := old(services[token]).(status := Restarting)]
      ensures state == InRestart(factoryId, token) && Agree(state, services)
    {
      services := services[token := services[token].(status := Restarting)];
      state := InRestart(factoryId, token);
    }

    /** A readiness check; a service that fails is restarted. */
    method CheckOrRestart() returns (ready: Option<bool>)
      requires Valid() && (state.NotAvailable? || state.IsAvailable?)
      modifies this`services, this`readiness, this`log, this`state
      ensures Valid() && Budget() <= old(Budget())
      ensures ready.Some? && ready.value ==>
                log == old(log) + [FoundReady(services)] && Budget() < old(Budget()) && state == old(state)
      ensures ready.Some? && !ready.value ==> log == old(log) && state == old(state) && !AllAvailable(services)
      ensures ready.None? ==> log == old(log) && state.InRestart? && Budget() < old(Budget())
    {
      var check := Check();
      match check {
        case AllReady(yes) =>
          return Some(yes);
        case ServiceFailed(token, idx) =>
          RestartService(token, idx);
          return None;
      }
    }

    method Become(next: State)
      requires Valid() && Agree(next, services)
      modifies this`state
      ensures Valid() && state == next
    {
      state := next;
    }

    /** The unavailable branch: waits for all services, or restarts the one that failed. */
    method AwaitReadiness() returns (waiting: bool)
      requires Valid() && state.NotAvailable?
      modifies this`services, this`readiness, this`log, this`state
      ensures Valid()
      ensures waiting ==> state.NotAvailable? && log == old(log) && !AllAvailable(services)
      ensures !waiting ==> Budget() < old(Budget())
      ensures !waiting && state.IsAvailable? ==> log == old(log) + [FoundReady(services)]
      ensures !waiting && !state.IsAvailable? ==> state.InRestart? && log == old(log)
    {
      var ready := CheckOrRestart();
      Become(if ready == Some(true) then IsAvailable else state);
      waiting := ready == Some(false);
    }

    /** The restarting branch: waits for the factory, and panics if it fails. The assertion that the
        new service carries the token of the failed one holds. */
    method PollRestart(factoryId: nat, token: nat) returns (r: Option<Poll>)
      requires Valid() && state == InRestart(factoryId, token)
      modifies this`restarts, this`services, this`builds, this`state
      ensures var next := if old(restarts) == [] then RestartPending else old(restarts)[0];
              && restarts == (if old(restarts) == [] then [] else old(restarts)[1..])
              && match next
                 case RestartPending =>
                   && r == Some(Pending) && Valid() && services == old(services) && state == old(state)
                   && builds == old(builds)
                 case RestartFailed => r == Some(Panicked) && builds == old(builds) && state == old(state)
                 case Restarted =>
                   && r.None? && Valid() && builds == old(builds) + 1 && state == NotAvailable
                   && |restarts| < |old(restarts)|
                   && var service := Service(factories[token], old(builds));
                      services == old(services)[token := WorkerService(token, Unavailable, service)]
    {
      if restarts == [] { return Some(Pending); }
      var outcome := restarts[0];
      restarts := restarts[1..];
      match outcome {
        case RestartPending => return Some(Pending);
        case RestartFailed => return Some(Panicked);
        case Restarted =>
      }
      var tokenNew, service := Create(factories[factoryId], builds);
      assert token == tokenNew;
      services := services[token := WorkerService(services[token].factoryIdx, Unavailable, service)];
      builds := builds + 1;
      state := NotAvailable;
      return None;
    }

    // -------------------------------------------------------------- stopping

    /** `shutdown`: marks the available services as stopping or stopped. */
    method MarkStopping(force: bool)
      modifies this`services
      ensures Marked(old(services), services, force)
    {
      for i := 0 to |services|
        invariant |services| == |old(services)|
        invariant forall k :: i <= k < |services| ==> services[k] == old(services[k])
        invariant forall k :: 0 <= k < i ==>
                    services[k] == if old(services[k]).status != Available then old(services[k])
                                   else old(services[k]).(status := if force then Stopped else Stopping)
      {
        if services[i].status == Available {
          services := services[i := services[i].(status := if force then Stopped else Stopping)];
        }
      }
    }

    /** The stop request handler at the head of every poll: an idle worker ends, and so does one that
        is forced; a graceful request starts a shutdown, also in place of one that has begun. */
    method HandleStop() returns (r: Option<Poll>)
      requires Valid()
      modifies this`stops, this`services, this`state, this`log
      ensures Valid() && old(log) <= log
      ensures stops == if old(stops) == [] then [] else old(stops)[1..]
      ensures old(stops) == [] ==> r.None? && state == old(state) && services == old(services) && log == old(log)
      ensures old(stops) != [] && P.Count(net.workers[me]) > 0 ==>
                Marked(old(services), services, !old(stops)[0].graceful)
      ensures old(stops) != [] ==>
                var n := P.Count(net.workers[me]);
                if n == 0 then r == Some(Finished) && log == old(log) + [Answer(true)]
                else if old(stops)[0].graceful then r.None? && state == InShutdown && log == old(log)
                else r == Some(Finished) && log == old(log) + [Answer(false)]
    {
      r := None;
      if stops == [] { return; }
      var stop := stops[0];
      stops := stops[1..];
      var num := Total();
      if num == 0 {
        Note(Answer(true));
        return Some(Finished);
      }
      BeginShutdown(!stop.graceful);
      if !stop.graceful {
        Note(Answer(false));
        return Some(Finished);
      }
    }

    /** Marks the services, and leaves whatever the worker was waiting for. */
    method BeginShutdown(force: bool)
      requires Valid()
      modifies this`services, this`state
      ensures Valid() && state == InShutdown && Marked(old(services), services, force)
    {
      AgreeMeansOneRestart(state, services);
      MarkStopping(force);
      state := InShutdown;
    }

    // -------------------------------------------------------------- the channel

    /** `conn_rx.poll_recv`: the oldest connection in the channel, if there is one. */
    method PollRecv() returns (c: Option<P.Conn>)
      requires Valid()
      modifies this`net, this`trace, this`schedule
      ensures Running() && Known() && net.workers[me].taken <= |net.workers[me].got|
      ensures Coming() <= old(Coming()) && old(net.workers[me].got) <= net.workers[me].got
      ensures c.None? ==> Valid() && Q.Queued(net.workers[me]) == 0
      ensures c.Some? ==>
                && c.value.token < |services|
                && Taken() == Handled(log) + [c.value]
                && net.workers[me].guards > 0 && Coming() < old(Coming())
    {
      Pause();
      var w := net.workers[me];
      if w.taken == |w.got| { return None; }
      var conn := w.got[w.taken];
      CameFromListener(conn);
      Do(P.Receive(me));
      assert w.got[..w.taken + 1] == w.got[..w.taken] + [conn];
      return Some(conn);
    }

    /** Dropping a guard: the decrement, and if that made room, the notification and its wake-up. */
    method DropGuard()
      requires Valid() && net.workers[me].guards > 0
      modifies this`net, this`trace, this`schedule
      ensures Valid() && Coming() <= old(Coming()) && old(net.workers[me].got) <= net.workers[me].got
      ensures var n := |old(trace.steps)|;
              && Extends(old(trace), trace) && n < |trace.steps| && trace.steps[n] == P.DropGuard(me)
              && me < |trace.states[n + 1].workers|
              && P.Count(trace.states[n + 1].workers[me]) == old(P.Count(net.workers[me])) - 1
              && (old(P.Count(net.workers[me]) == net.limit) ==> Tells(trace.steps, n, me))
    {
      Reached();
      T.CountersStayPositive(net, me);
      ghost var before := trace;
      var crossed := net.workers[me].raw == net.limit + 1;
      TakeBack();
      assert trace.steps[|before.steps|] == P.DropGuard(me) && trace.states[|before.steps| + 1] == net;
      if crossed { Announce(); }
    }

    /** The decrement. */
    method TakeBack()
      requires Valid() && P.Enabled(net, P.DropGuard(me))
      modifies this`net, this`trace
      ensures Valid() && Coming() == old(Coming()) && old(net.workers[me].got) == net.workers[me].got
      ensures trace == P.Extend(old(trace), P.DropGuard(me), net)
      ensures P.Count(net.workers[me]) == old(P.Count(net.workers[me])) - 1
      ensures old(net.workers[me].raw == net.limit + 1) ==> net.workers[me].due > 0
    {
      OthersOnWorker(net, P.DropGuard(me), me);
      Do(P.DropGuard(me));
      assert Taken() == old(Taken());
    }

    /** `WakerQueue::wake`: the notification, then the wake-up; the others may have done part of it for a
        guard of their own. */
    method Announce()
      requires Valid() && net.workers[me].due > 0
      modifies this`net, this`trace, this`schedule
      ensures Valid() && Coming() <= old(Coming()) && old(net.workers[me].got) <= net.workers[me].got
      ensures Extends(old(trace), trace) && Tells(trace.steps, |old(trace.steps)|, me)
    {
      ghost var i := Queue();
      Pause();
      ghost var j := Wake(i);
      assert trace.steps[i] == P.Notify(me) && trace.steps[j] == P.Signal;
    }

    method Queue() returns (ghost i: nat)
      requires Valid() && net.workers[me].due > 0
      modifies this`net, this`trace, this`schedule
      ensures Valid() && Coming() <= old(Coming()) && old(net.workers[me].got) <= net.workers[me].got
      ensures Extends(old(trace), trace)
      ensures |old(trace.steps)| <= i < |trace.steps| && trace.steps[i] == P.Notify(me)
    {
      ghost var n := |trace.steps|;
      Pause();
      i := |trace.steps|;
      if net.workers[me].due > 0 {
        Act(P.Notify(me));
      } else {
        i := DueWasQueued(trace, P.Start(limit, threads, sockets), net, n, me);
      }
    }

    method Wake(ghost i: nat) returns (ghost j: nat)
      requires Valid() && i < |trace.steps| && trace.steps[i] == P.Notify(me)
      modifies this`net, this`trace
      ensures Valid() && Coming() <= old(Coming()) && old(net.workers[me].got) <= net.workers[me].got
      ensures Extends(old(trace), trace)
      ensures i < j < |trace.steps| && trace.steps[j] == P.Signal
    {
      j := |trace.steps|;
      if net.waking > 0 {
        Act(P.Signal);
      } else {
        assert P.StepAt(trace, i);
        j := WakingWasSent(trace, P.Start(limit, threads, sockets), net, i + 1);
      }
    }

    /** A step of this worker that leaves its channel alone. */
    method Act(step: P.Step)
      requires Valid() && ByOthers(step, me) && P.Enabled(net, step) && (step == P.Notify(me) || step == P.Signal)
      modifies this`net, this`trace
      ensures Valid() && Coming() == old(Coming()) && old(net.workers[me].got) <= net.workers[me].got
      ensures trace == P.Extend(old(trace), step, net)
    {
      OthersOnWorker(net, step, me);
      LeavesChannel(net, step, me);
      Do(step);
      assert Taken() == old(Taken());
    }

    // -------------------------------------------------------------- polling

    /** One poll of the worker. Every tail call uses up an answer of a script, but for the one that
        finds a service no longer ready. */
    method PollWorker() returns (r: Poll)
      requires Valid()
      modifies this
      ensures PollOk(r, old(Now()), |old(log)|) && old(log) <= log
      ensures old(stops) != [] || old(state).InShutdown? ==> OnlyStops(r, |old(log)|)
      ensures old(stops) != [] && !old(stops)[0].graceful ==> r == Finished
      decreases Budget(), if state.IsAvailable? then 7 else 2
    {
      ghost var b := Now();
      var answered := CheckStop();
      SameIsSince(b, Now());
      if answered { return Finished; }
      r := GoOn(b);
    }

    /** What the poll does in each state. */
    method GoOn(ghost b: Moment) returns (r: Poll)
      requires Valid() && SameScripts(b, Now())
      modifies this
      ensures PollOk(r, b, |old(log)|) && old(log) <= log
      ensures old(state).InShutdown? ==> OnlyStops(r, |old(log)|)
      decreases Budget(), if state.IsAvailable? then 6 else 1
    {
      match state {
        case NotAvailable => r := PollUnready(b);
        case InRestart(_, _) => r := PollInRestart(b);
        case InShutdown => r := PollInShutdown(b);
        case IsAvailable => r := Dispatch(b);
      }
    }

    method PollUnready(ghost b: Moment) returns (r: Poll)
      requires Valid() && state.NotAvailable? && SameScripts(b, Now())
      modifies this
      ensures PollOk(r, b, |old(log)|) && old(log) <= log
      decreases Budget(), 0
    {
      var waiting := AwaitReadiness();
      SameIsSince(b, Now());
      if waiting { return Pending; }
      r := PollAgain(b, |old(log)|);
    }

    method PollInShutdown(ghost b: Moment) returns (r: Poll)
      requires Valid() && state.InShutdown? && SameScripts(b, Now())
      modifies this
      ensures PollOk(r, b, |old(log)|) && old(log) <= log && OnlyStops(r, |old(log)|)
    {
      r := PollShutdown();
    }

    /** What holds after a poll that began at `b`, with `n` entries in the log: it ends only if it was told
        to stop, and panics exactly if a restart failed; nothing was dropped, but in a shutdown. */
    ghost predicate PollOk(r: Poll, b: Moment, n: nat)
      reads this
    {
      && Kept() && Since(b, Now()) && (r == Pending ==> Valid() && Waits(b))
      && (r == Finished ==> EndsTold(n, log) && b.stopping)
      && (r == Panicked <==> LastUsed(b.restarts, restarts) == Some(RestartFailed))
      && (r != Finished && !state.InShutdown? ==> NoneDropped(n))
    }

    ghost predicate NoneDropped(n: nat) reads this`log {
      forall k :: n <= k < |log| ==> !log[k].Dropped?
    }

    /** After a poll in a shutdown nothing was dispatched, and the shutdown goes on or is over. */
    ghost predicate OnlyStops(r: Poll, n: nat) reads this`log, this`state {
      && r != Panicked && (r == Pending ==> state.InShutdown?)
      && forall k :: n <= k < |log| ==> !log[k].Dispatched?
    }

    lemma WaitsWell(b: Moment, n: nat)
      requires Valid() && Waits(b) && SameScripts(b, Now()) && NoneDropped(n)
      ensures PollOk(Pending, b, n)
    {
      SameIsSince(b, Now());
    }

    /** A tail call of the poll that began at `b`. */
    method PollAgain(ghost b: Moment, ghost n: nat) returns (r: Poll)
      requires Valid() && Since(b, Now()) && b.timer == timer && b.timedOut == timedOut
      requires LastUsed(b.restarts, restarts) != Some(RestartFailed) && n <= |log| && NoneDropped(n)
      modifies this
      ensures PollOk(r, b, n) && old(log) <= log
      decreases Budget(), if state.IsAvailable? then 8 else 3
    {
      ghost var m := Now();
      r := PollWorker();
      SinceTransitive(b, m, Now());
    }

    method PollInRestart(ghost b: Moment) returns (r: Poll)
      requires Valid() && state.InRestart? && SameScripts(b, Now())
      modifies this
      ensures PollOk(r, b, |old(log)|) && old(log) <= log
      decreases Budget(), 0
    {
      r := AwaitRestart(state.factoryId, state.token);
      RestartIsSince(b, Now());
      if r == Finished { r := PollAgain(b, |log|); }
    }

    method CheckStop() returns (answered: bool)
      requires Valid()
      modifies this`net, this`trace, this`schedule, this`stops, this`services, this`state, this`log
      ensures Valid() && old(log) <= log && old(net.workers[me].got) <= net.workers[me].got
      ensures stops == Tail(old(stops))
      ensures answered ==> |log| == |old(log)| + 1 && log[|old(log)|].Told?
      ensures !answered ==> log == old(log) && state == if old(stops) == [] then old(state) else InShutdown
      ensures answered <==> old(stops) != [] && (P.Count(net.workers[me]) == 0 || !old(stops)[0].graceful)
    {
      Pause();
      var r := HandleStop();
      answered := r.Some?;
    }

    /** `Finished` here means that the service is back. */
    method AwaitRestart(factoryId: nat, token: nat) returns (r: Poll)
      requires Valid() && state == InRestart(factoryId, token)
      modifies this`restarts, this`services, this`builds, this`state
      ensures Kept() && (r != Panicked ==> Valid())
      ensures r == Finished ==> state == NotAvailable && |restarts| < |old(restarts)|
      ensures r != Finished ==> state == old(state)
      ensures restarts == Tail(old(restarts)) && builds == old(builds) + if r == Finished then 1 else 0
      ensures var next := if old(restarts) == [] then RestartPending else old(restarts)[0];
              r == if next.RestartPending? then Pending else if next.RestartFailed? then Panicked else Finished
    {
      var outcome := PollRestart(factoryId, token);
      r := if outcome.None? then Finished else outcome.value;
    }

    /** The shutdown branch: drops what is queued, and at every tick of the timer decides. A timer
        that was just reset has not elapsed. Taking the answer channel out of the state leaves the
        default state behind. */
    method PollShutdown() returns (r: Poll)
      requires Valid() && state.InShutdown?
      modifies this`net, this`trace, this`schedule, this`log, this`timer, this`timedOut, this`state
      ensures Kept() && old(log) <= log && r != Panicked
      ensures r == Pending ==> Valid() && state.InShutdown?
      ensures r == Pending ==> forall k :: |old(log)| <= k < |log| ==> log[k].Dropped?
      ensures r == Finished ==> EndsTold(|old(log)|, log)
      ensures r == Finished ==> forall k :: |old(log)| <= k < |log| - 1 ==> log[k].Dropped?
      ensures old(net.workers[me].got) <= Handled(log)
      ensures timer == Tail(old(timer)) && Left(old(timedOut), timedOut)
      ensures r == Pending <==>
                NotElapsed(old(timer)) || (P.Count(net.workers[me]) > 0 && NotElapsed(old(timedOut)))
    {
      DropQueued();
      Pause();
      var end, idle := OnTimer();
      if !end { return Pending; }
      TellAndEnd(idle);
      return Finished;
    }

    /** What follows the loop: at a tick of the timer the worker may end, idle or not. */
    method OnTimer() returns (end: bool, idle: bool)
      requires Valid() && state.InShutdown?
      modifies this`timer, this`timedOut
      ensures Valid() && timer == Tail(old(timer)) && Left(old(timedOut), timedOut)
      ensures !end <==> NotElapsed(old(timer)) || (P.Count(net.workers[me]) > 0 && NotElapsed(old(timedOut)))
      ensures end ==> (idle <==> P.Count(net.workers[me]) == 0)
    {
      var ticked := !NotElapsed(timer);
      timer := Tail(timer);
      if !ticked { return false, false; }
      var num := Total();
      if num == 0 { return true, true; }
      var givenUp := !NotElapsed(timedOut);
      timedOut := Tail(timedOut);
      return givenUp, false;
    }

    /** The answer; the state it was taken from is left at the default. */
    method TellAndEnd(idle: bool)
      requires Valid() && (idle ==> P.Count(net.workers[me]) == 0)
      modifies this`state, this`log
      ensures Kept() && old(log) <= log && |log| == |old(log)| + 1 && log[|log| - 1].Told?
      ensures Handled(log) == old(Handled(log))
    {
      Reached();
      if idle { T.ZeroMeansIdle(net, me); }
      state := NotAvailable;
      Note(Answer(idle));
    }

    /** The loop that empties the channel. */
    method DropQueued()
      requires Valid() && state.InShutdown?
      modifies this`net, this`trace, this`schedule, this`log
      ensures Valid() && old(log) <= log && Q.Queued(net.workers[me]) == 0
      ensures Handled(log) == net.workers[me].got && old(net.workers[me].got) <= net.workers[me].got
      ensures forall k :: |old(log)| <= k < |log| ==> log[k].Dropped?
    {
      while true
        invariant Valid() && old(log) <= log && old(net.workers[me].got) <= net.workers[me].got
        invariant forall k :: |old(log)| <= k < |log| ==> log[k].Dropped?
        decreases Coming()
      {
        var some := DropNext();
        if !some { return; }
      }
    }

    /** Takes the next connection, and drops it and its guard. */
    method DropNext() returns (some: bool)
      requires Valid()
      modifies this`net, this`trace, this`schedule, this`log
      ensures Valid() && old(net.workers[me].got) <= net.workers[me].got
      ensures some ==> |log| == |old(log)| + 1 && old(log) <= log && log[|log| - 1].Dropped? && Coming() < old(Coming())
      ensures !some ==> log == old(log) && Q.Queued(net.workers[me]) == 0 && Handled(log) == net.workers[me].got
    {
      var conn := PollRecv();
      if conn.None? {
        assert Taken() == net.workers[me].got;
        return false;
      }
      Note(Dropped(conn.value));
      DropGuard();
      return true;
    }

    /** Takes the next connection and calls the service at the index of its token. */
    method DispatchNext() returns (some: bool)
      requires Valid() && log != [] && log[|log| - 1] == FoundReady(services)
      modifies this`net, this`trace, this`schedule, this`log
      ensures Valid() && old(log) <= log && old(net.workers[me].got) <= net.workers[me].got
      ensures some ==> |log| == |old(log)| + 1 && log[|log| - 1].Dispatched?
      ensures !some ==> Q.Queued(net.workers[me]) == 0 && log == old(log)
    {
      var msg := PollRecv();
      if msg.None? { return false; }
      Note(Dispatched(msg.value, services[msg.value.token].service));
      return true;
    }

    /** The check before every dispatch. A service that is not ready, or fails, ends the dispatching. */
    method StillReady() returns (still: bool)
      requires Valid() && state.IsAvailable?
      modifies this`services, this`readiness, this`log, this`state
      ensures Valid() && old(log) <= log && Budget() <= old(Budget())
      ensures still ==> state.IsAvailable? && log == old(log) + [FoundReady(services)] && Budget() < old(Budget())
      ensures !still ==> log == old(log) && (state.NotAvailable? || (state.InRestart? && Budget() < old(Budget())))
      ensures state.NotAvailable? ==> !AllAvailable(services)
    {
      var ready := CheckOrRestart();
      if ready.Some? && !ready.value { Become(NotAvailable); }
      return ready.Some? && ready.value;
    }

    /** The available branch: one connection after each successful readiness check. */
    method Dispatch(ghost b: Moment) returns (r: Poll)
      requires Valid() && state.IsAvailable? && SameScripts(b, Now())
      modifies this
      ensures PollOk(r, b, |old(log)|) && old(log) <= log
      decreases Budget(), 5
    {
      while true
        invariant Valid() && state.IsAvailable? && Budget() <= old(Budget()) && old(log) <= log
        invariant SameScripts(b, Now()) && NoneDropped(|old(log)|)
        decreases Budget()
      {
        var done := DispatchOne(b, |old(log)|);
        if done.Some? { return done.value; }
      }
    }

    /** One turn of that loop, and how the poll ends if that is the last. */
    method DispatchOne(ghost b: Moment, ghost n: nat) returns (r: Option<Poll>)
      requires Valid() && state.IsAvailable? && SameScripts(b, Now()) && n <= |log| && NoneDropped(n)
      modifies this
      ensures old(log) <= log
      ensures r.None? ==> Valid() && state.IsAvailable? && Budget() < old(Budget())
      ensures r.None? ==> SameScripts(b, Now()) && NoneDropped(n)
      ensures r.Some? ==> PollOk(r.value, b, n)
      decreases Budget(), 4
    {
      var still := StillReady();
      if still {
        r := DispatchOrWait(b, n);
      } else {
        SameIsSince(b, Now());
        var p := PollAgain(b, n);
        r := Some(p);
      }
    }

    method DispatchOrWait(ghost b: Moment, ghost n: nat) returns (r: Option<Poll>)
      requires Valid() && state.IsAvailable? && log != [] && log[|log| - 1] == FoundReady(services)
      requires SameScripts(b, Now()) && n <= |log| && NoneDropped(n)
      modifies this`net, this`trace, this`schedule, this`log
      ensures Valid() && old(log) <= log && SameScripts(b, Now()) && NoneDropped(n)
      ensures r.Some? ==> r.value == Pending && PollOk(Pending, b, n)
    {
      var some := DispatchNext();
      if some { return None; }
      WaitsWell(b, n);
      return Some(Pending);
    }
  }

  // ---------------------------------------------------------------- whole runs

  /** What can happen to a worker: a poll, a stop request, or steps of the others. */
  datatype Op = DoPoll | DoStop(graceful: bool) | DoOthers

  /** Any life of a worker, from its start until it ends or the program does: every dispatch comes right
      after a check that found all services ready and goes to the service of its listener's factory;
      the connections handled are those taken from the channel, in order; and a worker that ends has
      answered a stop request, with "idle" only if nothing was queued, active or being sent. */
  method RunWorker(w: ServerWorker, ops: seq<Op>) returns (r: Poll, ghost before: Moment)
    requires w.Valid() && w.log == []
    modifies w
    ensures w.Kept() && T.Inv(w.net)
    ensures forall conn :: conn in Handled(w.log) ==> P.TakeConn(conn) in w.trace.steps && conn.token < w.sockets
    ensures r == Pending ==> w.Valid()
    ensures r == Finished ==> EndsTold(0, w.log)
    ensures r == Panicked <==> LastUsed(old(w.restarts), w.restarts) == Some(RestartFailed)
    // after a poll that was the last thing to happen, the worker waits for something
    ensures r == Pending && ops != [] && ops[|ops| - 1].DoPoll? ==>
              w.Waits(before) && Left(old(w.restarts), before.restarts) && Left(before.restarts, w.restarts)
    // a worker that is never told to stop does not end, and drops nothing
    ensures !old(w.Now().stopping) && (forall i :: 0 <= i < |ops| ==> !ops[i].DoStop?) ==>
              r != Finished && w.NoneDropped(0)
  {
    r, before := Pending, w.Now();
    for i := 0 to |ops|
      invariant w.Valid() && r == Pending
      invariant Left(old(w.restarts), w.restarts)
      invariant LastUsed(old(w.restarts), w.restarts) != Some(RestartFailed)
      invariant i > 0 && ops[i - 1].DoPoll? ==>
                  w.Waits(before) && Left(old(w.restarts), before.restarts) && Left(before.restarts, w.restarts)
      invariant !old(w.Now().stopping) && (forall k :: 0 <= k < i ==> !ops[k].DoStop?) ==>
                  !w.Now().stopping && w.NoneDropped(0)
    {
      match ops[i] {
        case DoOthers => w.Pause();
        case DoStop(graceful) => w.stops := w.stops + [Stop(graceful)];
        case DoPoll =>
          r, before := PollOnce(w, old(w.restarts));
          w.Reached();
          w.HandledCameFromListeners();
          if r != Pending { return; }
      }
    }
    w.Reached();
    w.HandledCameFromListeners();
  }

  /** One poll in such a life, with what it means for the whole of it. */
  method PollOnce(w: ServerWorker, ghost restarts: seq<RestartOutcome>) returns (r: Poll, ghost before: Moment)
    requires w.Valid() && Left(restarts, w.restarts) && LastUsed(restarts, w.restarts) != Some(RestartFailed)
    modifies w
    ensures w.Kept() && old(w.log) <= w.log && (r == Pending ==> w.Valid() && w.Waits(before))
    ensures before == old(w.Now()) && Left(before.restarts, w.restarts) && Left(restarts, w.restarts)
    ensures r == Finished ==> EndsTold(0, w.log) && before.stopping
    ensures r == Panicked <==> LastUsed(restarts, w.restarts) == Some(RestartFailed)
    ensures !before.stopping && old(w.NoneDropped(0)) ==> !w.Now().stopping && w.NoneDropped(0)
  {
    before := w.Now();
    r := w.PollWorker();
  }
}
