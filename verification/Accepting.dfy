/** The accept thread of actix-server, in the form of the source: a struct whose methods loop over
    workers, listeners and the waker queue.

    Each atomic action is a step of module `Protocol`, and between any two of them the other
    threads and the outside world may take any steps of their own, as a schedule dictates. The
    methods prove that whatever the code does, with whatever comes in between, is a run of the
    protocol. The worker handles, the index of the next worker and the availability flags of the
    source are `net.handles`, `net.next` and `net.bits`, and its listeners are `net.listeners`,
    because the protocol's invariants relate them to data of other threads. */
module Accepting {
  import opened Options
  import opened Protocol
  import opened ProtocolProofs
  import opened ProtocolTheorems
  import opened AcceptSteps
  import opened AcceptSearch
  import opened LimitRuns
  import opened OneDeath
  import opened HaltBoundary
  import opened Pausing

  class Accept {
    ghost const limit: nat
    ghost const threads: nat
    ghost var trace: Run

    var net: State
    /** What the others do at each opportunity, and what the next `accept()` calls run into. */
    var schedule: seq<seq<Step>>
    var errors: seq<AcceptError>

    var nextListener: nat
    /** The retry deadline of each listener, and the poll timeout. */
    var deadlines: seq<Option<nat>>
    var timeout: Option<nat>
    var paused: bool
    /** True once the thread spins or has panicked. */
    var halted: bool
    var nextConn: nat
    /** The listeners offered so far, in order. */
    ghost var offers: seq<nat>
    /** The interests taken from the waker queue so far, in order. */
    ghost var handled: seq<Interest>
    /** What was done to registrations so far. */
    ghost var ledger: seq<ListenerOp>

    // -------------------------------------------------------------- invariants

    /** The shared state is one that the protocol reaches. */
    ghost predicate Running()
      reads this
    {
      limit > 0 && IsRun(trace, Start(limit, threads, |deadlines|), net) && NextOk(net)
    }

    ghost predicate Valid()
      reads this
    {
      Running() && |deadlines| == |net.listeners| && nextListener < |deadlines|
    }

    /** Nothing is being placed, and no listener is being served. */
    ghost predicate AtRest()
      reads this
    {
      Valid() && Resting(net)
    }

    /** The accept loop of one listener runs, and nothing is being placed. */
    ghost predicate Serving(token: nat)
      reads this
    {
      && Valid() && net.send.Free? && net.placing.Nothing? && net.serving == Some(token)
      && token < |net.listeners| && !halted
    }

    /** The thread is paused as the last pause or resume it took from the queue says. */
    ghost predicate Heeded()
      reads this
    {
      paused == PausedAfter(false, handled)
    }

    /** The thread is paused, and its listeners are registered and have deadlines, as the ledger says. */
    ghost predicate Booked()
      reads this
    {
      && |deadlines| == |net.listeners| && paused == IsPaused(ledger)
      && forall l :: 0 <= l < |deadlines| ==> BookOf(ledger, l) == Book(net.listeners[l].registered, deadlines[l].Some?)
    }

    /** The ledger has a pause, resume or stop for each one taken from the queue, in that order. */
    ghost predicate Ledgered()
      reads this
    {
      Booked() && Orders(ledger) == OrdersIn(handled)
    }

    /** Between two turns of the event loop. */
    ghost predicate BetweenTurns()
      reads this
    {
      AtRest() && !halted && !net.awake && !net.draining && net.taken == {}
    }

    /** A listener that no event will ever report has a retry deadline. */
    ghost predicate Registered()
      reads this
    {
      |deadlines| == |net.listeners|
      && forall l :: 0 <= l < |net.listeners| ==> net.listeners[l].registered || deadlines[l].Some?
    }

    /** A registered listener with connections to accept has an unread event, unless its event was
        just taken from the poll. */
    ghost predicate Served(pending: set<nat>)
      reads this
    {
      forall l :: 0 <= l < |net.listeners| ==> l in pending || Alert(net.listeners[l])
    }

    /** The thread is not stalled: paused or halted, or no worker is marked available, or every
        connection waiting to be accepted is at a listener with an event or a deadline. */
    ghost predicate NoStall(pending: set<nat>)
      reads this
    {
      paused || halted || (Registered() && (net.bits == {} || Served(pending)))
    }

    /** Some listener has a deadline only if the poll has a timeout. */
    ghost predicate TimeoutSet()
      reads this
    {
      (exists l :: 0 <= l < |deadlines| && deadlines[l].Some?) ==> timeout.Some?
    }

    function Fuel(): nat
      reads this
    {
      StepsLeft(schedule)
    }

    constructor (limit: nat, threads: nat, sockets: nat, schedule: seq<seq<Step>>, errors: seq<AcceptError>)
      requires limit > 0 && sockets > 0
      ensures BetweenTurns() && net == Start(limit, threads, sockets) && trace.steps == []
      ensures !paused && timeout.None? && nextListener == 0 && offers == [] && handled == []
      ensures deadlines == seq(sockets, _ => None) && this.schedule == schedule && this.errors == errors
      ensures Registered() && Served({}) && TimeoutSet() && Heeded() && Ledgered() && ledger == []
    {
      this.limit, this.threads := limit, threads;
      trace, net := Run([Start(limit, threads, sockets)], []), Start(limit, threads, sockets);
      this.schedule, this.errors := schedule, errors;
      nextListener, nextConn, offers, handled, ledger := 0, 0, [], [], [];
      deadlines, timeout := seq(sockets, _ => None), None;
      paused, halted := false, false;
    }

    // -------------------------------------------------------------- atomic actions

    method Do(step: Step)
      requires Running() && Enabled(net, step)
      modifies this`net, this`trace
      ensures Running() && net == Next(old(net), step)
    {
      ExtendIsRun(trace, Start(limit, threads, |deadlines|), net, step);
      StepKeepsNext(net, step);
      net := Next(net, step);
      trace := Extend(trace, step, net);
    }

    /** What every run keeps holds here. */
    lemma Reached()
      requires Running()
      ensures Inv(net) && net.limit == limit
    {
      RunIsAfter(trace, Start(limit, threads, |deadlines|), net);
      EveryRunKeepsInv(limit, threads, |deadlines|, trace.steps);
      LimitIsFixed(limit, threads, |deadlines|, trace.steps);
    }

    /** The others take the steps the schedule has for them, as far as they can. */
    method Interfere()
      requires Running()
      modifies this`net, this`trace, this`schedule
      ensures Running() && Meanwhile(old(net), old(Fuel()), net, Fuel())
    {
      if schedule == [] { return; }
      var batch := schedule[0];
      var later := StepsLeft(schedule[1..]);
      schedule := schedule[1..];
      for i := 0 to |batch|
        invariant Running() && schedule == old(schedule)[1..]
        invariant Meanwhile(old(net), old(Fuel()), net, later + |batch| - i)
      {
        if IsEnvironment(batch[i]) && Enabled(net, batch[i]) {
          EnvironmentIsMeanwhile(net, later + |batch| - i - 1, batch[i]);
          var left := later + |batch| - i;
          MeanwhileTransitive(old(net), old(Fuel()), net, left, Next(net, batch[i]), left - 1);
          Do(batch[i]);
        }
      }
    }

    /** One atomic action of a send that began in state `s`. */
    method Act(step: Step, ghost s: State, ghost f: nat)
      requires Running() && Enabled(net, step) && SendStep(step) && Aside(s, f, net, Fuel())
      modifies this`net, this`trace
      ensures Running() && net == Next(old(net), step) && Aside(s, f, net, Fuel())
    {
      SendIsAside(net, step, Fuel());
      AsideTransitive(s, f, net, Fuel(), Next(net, step), Fuel());
      Do(step);
    }

    /** The others in the middle of a stretch that began in state `s`. */
    method Wait(ghost s: State, ghost f: nat)
      requires Running() && Aside(s, f, net, Fuel())
      modifies this`net, this`trace, this`schedule
      ensures Running() && Meanwhile(old(net), old(Fuel()), net, Fuel()) && Aside(s, f, net, Fuel())
    {
      Interfere();
      AsideTransitive(s, f, old(net), old(Fuel()), net, Fuel());
    }

    // -------------------------------------------------------------- one connection

    /** The increment, and before it the test that the next worker may get the connection. */
    method CountConnection(ghost s: State, ghost f: nat)
      requires Running() && net.send.Free? && MaySend(net) && Aside(s, f, net, Fuel())
      modifies this`net, this`trace
      ensures Running() && Aside(s, f, net, Fuel()) && SameWorkers(old(net), net)
      ensures LivesOnlyEnd(old(net), net) && net.deliveries == old(net.deliveries)
      ensures net.send.Counted? && net.send.to == net.handles[net.next] && net.send.conn == net.placing.conn
    {
      SendKeepsLives(net, Inc);
      Act(Inc, s, f);
    }

    method PutConnection(ghost s: State, ghost f: nat)
      requires Running() && net.send.Counted? && Aside(s, f, net, Fuel())
      modifies this`net, this`trace
      ensures Running() && Aside(s, f, net, Fuel()) && SameWorkers(old(net), net) && LivesOnlyEnd(old(net), net)
      ensures var h := old(net.send.to);
              && h.wid < |old(net.workers)| && h.wid < |net.workers|
              && if old(net.workers)[h.wid].alive then
                   && net.send == Landed(h, old(net.send.full))
                   && net.deliveries == old(net.deliveries) + [Delivery(old(net.send.conn), h.wid)]
                 else
                   net.send == Refused(h) && net.deliveries == old(net.deliveries) && !net.workers[h.wid].alive
    {
      SendTargetExists(limit, threads, |deadlines|, trace, net);
      SendKeepsLives(net, Put);
      Act(Put, s, f);
    }

    method UncountConnection(ghost s: State, ghost f: nat)
      requires Running() && net.send.Refused? && Aside(s, f, net, Fuel())
      modifies this`net, this`trace
      ensures Running() && Aside(s, f, net, Fuel()) && SameWorkers(old(net), net) && LivesOnlyEnd(old(net), net)
      ensures net.send == Undone(old(net.send.to)) && net.deliveries == old(net.deliveries)
    {
      SendTargetExists(limit, threads, |deadlines|, trace, net);
      SendKeepsLives(net, Undo);
      Act(Undo, s, f);
    }

    /** `WorkerHandleAccept::send`: counts the connection, then puts it in the worker's channel. It
        comes back, and its count is undone, exactly if the worker was dead at that moment. */
    method Send(ghost s: State, ghost f: nat) returns (available: Option<bool>)
      requires Running() && net.send.Free? && MaySend(net) && Aside(s, f, net, Fuel())
      modifies this`net, this`trace, this`schedule
      ensures Running() && Aside(s, f, net, Fuel()) && SameWorkers(old(net), net) && LivesOnlyEnd(old(net), net)
      ensures var h := old(net.handles[net.next]);
              match available
              case Some(yes) =>
                && net.send == Landed(h, !yes) && old(net.workers[h.wid].alive)
                && net.deliveries == old(net.deliveries) + [Delivery(old(net.placing.conn), h.wid)]
              case None =>
                && net.send == Undone(h) && h.wid < |net.workers| && !net.workers[h.wid].alive
                && net.deliveries == old(net.deliveries)
    {
      CountConnection(s, f);
      Wait(s, f);
      PutConnection(s, f);
      if net.send.Landed? {
        return Some(!net.send.full);
      }
      Wait(s, f);
      UncountConnection(s, f);
      return None;
    }

    /** The end of a successful send: a worker that reached its limit stops being available, and the
        turn passes on. */
    method SettleSend(ghost s: State, ghost f: nat)
      requires Running() && net.send.Landed? && Aside(s, f, net, Fuel())
      modifies this`net, this`trace
      ensures Running() && Aside(s, f, net, Fuel()) && net.send.Free? && net.placing.Nothing?
      ensures net.handles == old(net.handles) && net.deliveries == old(net.deliveries)
      ensures net.next == Ring(old(net.next), 1, |net.handles|)
      ensures net.bits == if old(net.send.full) then old(net.bits) - {old(net.send.to.idx)} else old(net.bits)
      ensures LivesOnlyEnd(old(net), net)
    {
      SendKeepsLives(net, Settle);
      Act(Settle, s, f);
    }

    /** Passes over a worker that is not marked available. With no flag left at all, any worker will
        do from here on. */
    method SetNext(ghost s: State, ghost f: nat)
      requires Running() && Enabled(net, Skip) && Aside(s, f, net, Fuel())
      modifies this`net, this`trace
      ensures Running() && Aside(s, f, net, Fuel()) && net == Next(old(net), Skip)
      ensures net.next == Ring(old(net.next), 1, |net.handles|) && net.next == (old(net.next) + 1) % |net.handles|
    {
      RingIsModulo(net.next, 1, |net.handles|);
      Act(Skip, s, f);
    }

    /** Drops the handle of a dead worker, reports the worker to the server, and clears its flag. */
    method RemoveNext(ghost s: State, ghost f: nat)
      requires Running() && net.send.Undone? && Aside(s, f, net, Fuel())
      modifies this`net, this`trace
      ensures old(net.next) < |old(net.handles)|
      ensures Running() && Aside(s, f, net, Fuel()) && net.send.Free? && LivesOnlyEnd(old(net), net)
      ensures net.handles == SwapRemove(old(net.handles), old(net.next)) && net.deliveries == old(net.deliveries)
      ensures net.bits == old(net.bits) - {old(net.handles[net.next].idx)}
      ensures net.faults == old(net.faults) + [old(net.handles[net.next].idx)]
      ensures net.next == if |net.handles| <= old(net.next) then 0 else old(net.next)
      ensures net.placing == if net.handles == [] then Nothing else old(net.placing)
    {
      SendKeepsLives(net, Remove);
      Act(Remove, s, f);
    }

    /** Sends the connection to the next worker; `true` when that settles it. */
    method SendConnection(ghost s: State, ghost f: nat) returns (settled: bool)
      requires Valid() && net.send.Free? && MaySend(net) && Aside(s, f, net, Fuel())
      modifies this`net, this`trace, this`schedule
      ensures Valid() && net.send.Free? && Aside(s, f, net, Fuel()) && LivesOnlyEnd(old(net), net)
      ensures SendTried(old(net), net, old(net.placing.conn), settled)
      ensures settled <==> net.placing.Nothing?
    {
      var available := Send(s, f);
      Wait(s, f);
      if available.Some? {
        SettleSend(s, f);
        return true;
      }
      RemoveNext(s, f);
      return net.handles == [];
    }

    /** Finds a worker for a connection: the next available one, or, when dead workers were the only
        ones marked available, any worker that still takes it. */
    method AcceptOne() returns (o: Outcome)
      requires Valid() && net.send.Free? && net.placing.Looking? && net.bits != {}
      modifies this`net, this`trace, this`schedule
      ensures Valid() && net.send.Free? && Aside(old(net), old(Fuel()), net, Fuel())
      ensures o == Panics <==> old(net.handles) == []
      ensures o != Done ==> Halting(net)
      ensures o == Done ==> net.placing.Nothing? && DeliveredOnce(old(net), net, old(net.placing.conn))
      ensures o != Done ==> net.deliveries == old(net.deliveries)
      ensures o == Spins ==> Spinning(net)
      ensures old(net.bits) <= HandleIds(old(net.handles)) ==> o == Done
      ensures o == Done && net.handles == old(net.handles) ==> RoundRobin(old(net), net, old(net.placing.conn))
      ensures o != Panics && SameLives(old(net), net) ==>
                && (o == Done ==> Agrees(old(net), net, old(net.placing.conn)))
                && (o == Done <==> SearchEnds(old(net.handles), old(net.next), old(net.bits), Dead(old(net))))
    {
      if net.handles == [] { return Panics; }
      ghost var s, f := net, Fuel();
      BeginsInStep();
      while true
        invariant Hunting(s, f) && net.placing == s.placing
        decreases |net.handles|, FirstMarked(net.handles, net.bits, net.next)
      {
        LetOthers(s, f);
        if net.bits != {} && FirstMarked(net.handles, net.bits, net.next) == |net.handles| {
          NoneMarked(net.handles, net.bits, net.next);
          SpunInStep(s);
          return Spins;
        }
        if net.handles[net.next].idx in net.bits {
          var settled := TryOne(s, f);
          if settled { return Done; }
        } else {
          ghost var t := net;
          SetNext(s, f);
          Skipped(s, t);
          if net.bits == {} {
            o := ForceOne(s, f);
            return;
          }
        }
      }
    }

    /** A search that began in `s` is still going on. */
    ghost predicate Hunting(s: State, f: nat)
      reads this
    {
      && Valid() && net.send.Free? && net.handles != []
      && Aside(s, f, net, Fuel()) && Searching(s, net) && InStep(s, net)
    }

    lemma BeginsInStep()
      requires Valid() && net.handles != [] && net.placing.Looking?
      ensures Searching(net, net) && InStep(net, net) && Aside(net, Fuel(), net, Fuel())
    {
      Reached();
      assert AfterTurns(Begin(net), Dead(net), 0) == Begin(net);
    }

    lemma SpunInStep(s: State)
      requires Running() && Searching(s, net) && InStep(s, net) && Spinning(net)
      ensures SameLives(s, net) ==> !SearchEnds(s.handles, s.next, s.bits, Dead(s))
    {
      Reached();
      DistinctHandles(net);
      if SameLives(s, net) { SpinsForGood(s, net); }
    }

    lemma Skipped(s: State, t: State)
      requires Searching(s, t) && InStep(s, t) && Enabled(t, Skip) && net == Next(t, Skip) && s.bits != {}
      requires t.bits == {} || FirstMarked(t.handles, t.bits, t.next) < |t.handles|
      ensures Searching(s, net) && InStep(s, net)
      ensures t.bits != {} ==>
                FirstMarked(net.handles, net.bits, net.next) < FirstMarked(t.handles, t.bits, t.next)
    {
      SkippedInStep(s, t, net);
      SendKeepsLives(t, Skip);
      assert Ring(t.next, 0, |t.handles|) == t.next;
      if t.bits != {} {
        SkipOne(t.handles, t.bits, t.next);
      }
    }

    ghost predicate AgreesAndEnds(s: State, t: State, conn: Conn) {
      Agrees(s, t, conn) && SearchEnds(s.handles, s.next, s.bits, Dead(s))
    }

    /** The others between two attempts. */
    method LetOthers(ghost s: State, ghost f: nat)
      requires Hunting(s, f)
      modifies this`net, this`trace, this`schedule
      ensures Hunting(s, f) && SameWorkers(old(net), net) && net.deliveries == old(net.deliveries)
    {
      ghost var t, g := net, Fuel();
      Wait(s, f);
      SearchingMeanwhile(s, t, g, net, Fuel());
    }

    /** One attempt, with what it means for the search. */
    method TryOne(ghost s: State, ghost f: nat) returns (settled: bool)
      requires Hunting(s, f) && s.bits != {}
      requires if net.placing.Forcing? then net.bits == {}
               else net.placing.Looking? && net.handles[net.next].idx in net.bits
      modifies this`net, this`trace, this`schedule
      ensures Valid() && net.send.Free? && Aside(s, f, net, Fuel()) && |net.handles| <= |old(net.handles)|
      ensures settled ==>
                && net.placing.Nothing? && DeliveredOnce(s, net, old(net.placing.conn))
                && (net.handles == s.handles ==> RoundRobin(s, net, old(net.placing.conn)))
                && (SameLives(s, net) ==> AgreesAndEnds(s, net, old(net.placing.conn)))
      ensures !settled ==>
                && Hunting(s, f) && |net.handles| < |old(net.handles)| && net.placing == old(net.placing)
                && net.bits <= old(net.bits)
    {
      ghost var t := net;
      HandleExists();
      settled := SendConnection(s, f);
      Tried(s, t, net, t.placing.conn, settled);
      if SameLives(s, net) {
        TriedInStep(s, t, net, t.placing.conn, settled);
        if settled { AgreesEnds(s, net, t.placing.conn); }
      }
    }

    lemma HandleExists()
      requires Running() && net.next < |net.handles|
      ensures net.handles[net.next].wid < |net.workers|
    {
      Reached();
      assert HandleOk(net, net.handles[net.next]);
    }

    /** With no worker marked available, every worker is tried until one takes the connection or
        none is left. */
    method ForceOne(ghost s: State, ghost f: nat) returns (o: Outcome)
      requires Hunting(s, f) && net.placing.Forcing? && net.bits == {} && s.bits != {}
      modifies this`net, this`trace, this`schedule
      ensures Valid() && net.send.Free? && Aside(s, f, net, Fuel()) && net.placing.Nothing?
      ensures o == Done && DeliveredOnce(s, net, old(net.placing.conn)) && net.handles != s.handles
      ensures SameLives(s, net) ==> AgreesAndEnds(s, net, old(net.placing.conn))
    {
      while true
        invariant Hunting(s, f) && net.placing == old(net.placing) && net.bits == {}
        invariant |net.handles| <= |old(net.handles)|
        decreases |net.handles|
      {
        LetOthers(s, f);
        var settled := TryOne(s, f);
        if settled { return Done; }
      }
    }

    // -------------------------------------------------------------- listeners

    method SetTimeout(duration: nat)
      modifies this`timeout
      ensures timeout == Some(Shorter(old(timeout), duration))
    {
      if timeout.None? || timeout.value > duration { timeout := Some(duration); }
    }

    /** A change of a listener's registration. */
    method DoListener(step: Step, l: nat)
      requires Running() && Enabled(net, step) && (step == Register(l) || step == Deregister(l))
      modifies this`net, this`trace
      ensures Running() && SameButListeners(old(net), net) && OneListener(old(net), net, l)
      ensures net.listeners[l].registered == step.Register?
      ensures old(net.listeners[l]).registered && step.Register? ==> net.listeners[l] == old(net.listeners[l])
      ensures Alert(net.listeners[l]) || (old(net.listeners[l]).registered && step.Register?)
    {
      Do(step);
    }

    /** `accept`: takes connections from one listener while some worker is marked available. It
        stops at a listener that has none, that fails, or for want of an available worker. */
    method AcceptFrom(token: nat)
      requires AtRest() && token < |net.listeners| && !halted
      requires net.draining || token in net.taken
      modifies this`net, this`trace, this`schedule, this`errors, this`deadlines, this`timeout, this`halted,
               this`nextConn, this`offers, this`ledger
      ensures halted ==> Halting(net)
      ensures Valid() && net.send.Free? && |net.listeners| == |old(net.listeners)| && (halted || Resting(net))
      ensures net.taken == if old(net.draining) then old(net.taken) else old(net.taken) - {token}
      ensures Scanned(old(net), old(Fuel()), net, Fuel())
      ensures OthersUndisturbed(old(net), net, token)
      ensures forall l :: 0 <= l < |deadlines| && l != token ==> deadlines[l] == old(deadlines[l])
      ensures old(Registered()) ==> Registered()
      ensures old(TimeoutSet()) ==> TimeoutSet()
      ensures halted || net.bits == {} || Alert(net.listeners[token])
      ensures if Harmless(old(errors), errors) then
                deadlines == old(deadlines) && net.listeners[token].registered == old(net.listeners[token].registered)
              else
                && HitResource(old(errors), errors) && !net.listeners[token].registered && timeout.Some?
                && deadlines[token] == Some(net.clock + ACCEPT_ERROR_BACKOFF)
      ensures offers == old(offers) + [token]
      ensures old(Booked()) ==> Booked()
      ensures Orders(ledger) == old(Orders(ledger))
    {
      ghost var before, was, had := errors, net.listeners, deadlines;
      AcceptSome(token);
      if !Harmless(before, errors) { BooksError(token, was, had); }
    }

    /** The resource error goes into the ledger. */
    ghost method BooksError(token: nat, was: seq<Listener>, had: seq<Option<nat>>)
      requires token < |was| == |had| == |deadlines| == |net.listeners|
      requires !net.listeners[token].registered && deadlines[token].Some?
      requires forall k :: 0 <= k < |was| && k != token ==>
                 net.listeners[k].registered == was[k].registered && deadlines[k] == had[k]
      modifies this`ledger
      ensures ledger == old(ledger) + [BackedOff(token)] && Orders(ledger) == old(Orders(ledger))
      ensures (&& paused == IsPaused(old(ledger))
               && forall k :: 0 <= k < |was| ==> BookOf(old(ledger), k) == Book(was[k].registered, had[k].Some?))
              ==> Booked()
    {
      OrdersAppend(ledger, BackedOff(token));
      forall k | 0 <= k < |was|
        ensures BookOf(ledger + [BackedOff(token)], k) == if k == token then Book(false, true) else BookOf(ledger, k)
      {
        BookAppend(ledger, BackedOff(token), k);
      }
      BookAppend(ledger, BackedOff(token), token);
      ledger := ledger + [BackedOff(token)];
    }

    /** What `accept` does, but for the ledger. */
    method AcceptSome(token: nat)
      requires AtRest() && token < |net.listeners| && !halted
      requires net.draining || token in net.taken
      modifies this`net, this`trace, this`schedule, this`errors, this`deadlines, this`timeout, this`halted,
               this`nextConn, this`offers
      ensures halted ==> Halting(net)
      ensures Valid() && net.send.Free? && |net.listeners| == |old(net.listeners)| && (halted || Resting(net))
      ensures net.taken == if old(net.draining) then old(net.taken) else old(net.taken) - {token}
      ensures Scanned(old(net), old(Fuel()), net, Fuel())
      ensures OthersUndisturbed(old(net), net, token)
      ensures forall l :: 0 <= l < |deadlines| && l != token ==> deadlines[l] == old(deadlines[l])
      ensures old(Registered()) ==> Registered()
      ensures old(TimeoutSet()) ==> TimeoutSet()
      ensures halted || net.bits == {} || Alert(net.listeners[token])
      ensures if Harmless(old(errors), errors) then
                deadlines == old(deadlines) && net.listeners[token].registered == old(net.listeners[token].registered)
              else
                && HitResource(old(errors), errors) && !net.listeners[token].registered && timeout.Some?
                && deadlines[token] == Some(net.clock + ACCEPT_ERROR_BACKOFF)
      ensures offers == old(offers) + [token]
    {
      offers := offers + [token];
      ghost var s, f := net, Fuel();
      BeginServing(token);
      ghost var t := net;
      AcceptWhileAvailable(token);
      ScannedTwice(s, f, t, f, net, Fuel());
      if !halted {
        ghost var u := net;
        EndServing(token);
        ScannedTwice(s, f, u, Fuel(), net, Fuel());
      }
    }

    method BeginServing(token: nat)
      requires AtRest() && token < |net.listeners| && !halted
      requires net.draining || token in net.taken
      modifies this`net, this`trace
      ensures Serving(token) && net.listeners == old(net.listeners) && Scanned(old(net), Fuel(), net, Fuel())
      ensures net.taken == if net.draining then old(net.taken) else old(net.taken) - {token}
    {
      Do(Serve(token));
    }

    method EndServing(token: nat)
      requires Serving(token) && Enabled(net, Leave)
      modifies this`net, this`trace
      ensures AtRest() && net.listeners == old(net.listeners) && Scanned(old(net), Fuel(), net, Fuel())
      ensures net.taken == old(net.taken) && net.bits == old(net.bits) && net.clock == old(net.clock)
    {
      Do(Leave);
    }

    /** The loop of `accept`. */
    method AcceptWhileAvailable(token: nat)
      requires Serving(token)
      modifies this`net, this`trace, this`schedule, this`errors, this`deadlines, this`timeout, this`halted,
               this`nextConn
      ensures halted ==> Halting(net)
      ensures Valid() && net.send.Free? && |net.listeners| == |old(net.listeners)| && net.taken == old(net.taken)
      ensures Scanned(old(net), old(Fuel()), net, Fuel())
      ensures OthersUndisturbed(old(net), net, token)
      ensures Harmless(old(errors), errors) ==>
                && deadlines == old(deadlines) && timeout == old(timeout)
                && net.listeners[token].registered == old(net.listeners[token].registered)
      ensures !Harmless(old(errors), errors) ==>
                && HitResource(old(errors), errors) && timeout.Some? && !net.listeners[token].registered
                && deadlines == old(deadlines)[token := Some(net.clock + ACCEPT_ERROR_BACKOFF)]
      ensures halted || (Serving(token) && Enabled(net, Leave))
      ensures halted || net.bits == {} || Alert(net.listeners[token])
    {
      ghost var s, f := net, Fuel();
      while net.bits != {}
        invariant Serving(token) && net.taken == s.taken
        invariant Harmless(old(errors), errors)
        invariant Scanned(s, f, net, Fuel()) && OthersUndisturbed(s, net, token)
        invariant net.listeners[token].registered == s.listeners[token].registered
        invariant deadlines == old(deadlines) && timeout == old(timeout)
        decreases |errors| + net.listeners[token].backlog + Fuel()
      {
        var more := AcceptNext(token, s, f, old(errors));
        if !more { return; }
      }
    }

    /** One turn of that loop; `false` when it is the last. */
    method AcceptNext(token: nat, ghost s: State, ghost f: nat, ghost before: seq<AcceptError>) returns (more: bool)
      requires Serving(token) && net.bits != {} && net.taken == s.taken
      requires Scanned(s, f, net, Fuel()) && OthersUndisturbed(s, net, token) && Harmless(before, errors)
      modifies this`net, this`trace, this`schedule, this`errors, this`deadlines, this`timeout, this`halted,
               this`nextConn
      ensures halted ==> Halting(net)
      ensures Valid() && net.send.Free? && |net.listeners| == |old(net.listeners)| && net.taken == s.taken
      ensures Scanned(s, f, net, Fuel()) && OthersUndisturbed(s, net, token)
      ensures Harmless(before, errors) ==>
                && deadlines == old(deadlines) && timeout == old(timeout)
                && net.listeners[token].registered == old(net.listeners[token].registered)
      ensures !Harmless(before, errors) ==>
                && HitResource(before, errors) && timeout.Some? && !net.listeners[token].registered
                && deadlines == old(deadlines)[token := Some(net.clock + ACCEPT_ERROR_BACKOFF)]
      ensures more ==> Serving(token) && Harmless(before, errors)
      ensures more ==>
                |errors| + net.listeners[token].backlog + Fuel() < old(|errors| + net.listeners[token].backlog + Fuel())
      ensures !more ==> halted || (Serving(token) && Enabled(net, Leave) && Alert(net.listeners[token]))
    {
      Pass(s, f, token);
      var error := NextError(before);
      if error.Resource? {
        BackOff(token, s, f);
        return false;
      }
      if error.NoError? {
        if net.listeners[token].backlog == 0 { return false; }
        var o := TakeOne(token, s, f);
        if o != Done {
          halted := true;
          return false;
        }
      }
      return true;
    }

    /** The others between two `accept()` calls. */
    method Pass(ghost s: State, ghost f: nat, ghost token: nat)
      requires Serving(token) && net.taken == s.taken
      requires Scanned(s, f, net, Fuel()) && OthersUndisturbed(s, net, token)
      modifies this`net, this`trace, this`schedule
      ensures Serving(token) && SameWorkers(old(net), net) && net.taken == s.taken
      ensures Scanned(s, f, net, Fuel()) && OthersUndisturbed(s, net, token)
      ensures net.listeners[token].registered == old(net.listeners[token].registered)
      ensures net.listeners[token].backlog + Fuel() <= old(net.listeners[token].backlog + Fuel())
    {
      ghost var t, g := net, Fuel();
      Interfere();
      ScannedAside(s, f, t, g, net, Fuel(), token);
    }

    /** After a resource error the listener is deregistered until its deadline. */
    method BackOff(token: nat, ghost s: State, ghost f: nat)
      requires Serving(token) && net.taken == s.taken
      requires Scanned(s, f, net, Fuel()) && OthersUndisturbed(s, net, token)
      modifies this`net, this`trace, this`deadlines, this`timeout
      ensures Serving(token) && net.taken == s.taken
      ensures Scanned(s, f, net, Fuel()) && OthersUndisturbed(s, net, token)
      ensures deadlines == old(deadlines)[token := Some(net.clock + ACCEPT_ERROR_BACKOFF)]
      ensures timeout == Some(Shorter(old(timeout), ACCEPT_ERROR_POLL_TIMEOUT))
      ensures !net.listeners[token].registered && Enabled(net, Leave)
    {
      ghost var t, g := net, Fuel();
      DoListener(Deregister(token), token);
      ScannedOne(s, f, t, g, net, token);
      deadlines := deadlines[token := Some(net.clock + ACCEPT_ERROR_BACKOFF)];
      SetTimeout(ACCEPT_ERROR_POLL_TIMEOUT);
    }

    /** One connection taken from the listener and given to a worker. */
    method TakeOne(token: nat, ghost s: State, ghost f: nat) returns (o: Outcome)
      requires Serving(token) && net.bits != {} && net.listeners[token].backlog > 0 && net.taken == s.taken
      requires Scanned(s, f, net, Fuel()) && OthersUndisturbed(s, net, token)
      modifies this`net, this`trace, this`schedule, this`nextConn
      ensures Valid() && net.send.Free? && net.taken == s.taken && (o == Done ==> Serving(token))
      ensures Scanned(s, f, net, Fuel()) && OthersUndisturbed(s, net, token)
      ensures net.listeners[token].registered == old(net.listeners[token].registered)
      ensures net.listeners[token].backlog + Fuel() < old(net.listeners[token].backlog + Fuel())
      ensures nextConn == old(nextConn) + 1
      ensures o == Done ==> DeliveredOnce(old(net), net, Conn(old(nextConn), token))
      ensures o != Done ==> Halting(net)
    {
      ghost var t, g := net, Fuel();
      Do(TakeConn(Conn(nextConn, token)));
      nextConn := nextConn + 1;
      ghost var u := net;
      ScannedOne(s, f, t, g, u, token);
      o := AcceptOne();
      ScannedAside(s, f, u, g, net, Fuel(), token);
    }

    /** What the next `accept()` call runs into, after errors of single connections only. */
    method NextError(ghost before: seq<AcceptError>) returns (e: AcceptError)
      requires Harmless(before, errors)
      modifies this`errors
      ensures old(errors) == [] ==> e == NoError && errors == []
      ensures old(errors) != [] ==> e == old(errors)[0] && errors == old(errors)[1..]
      ensures if e.Resource? then HitResource(before, errors) && !Harmless(before, errors) else Harmless(before, errors)
    {
      if errors == [] { return NoError; }
      OneMoreError(before, errors);
      e, errors := errors[0], errors[1..];
    }

    /** `accept_all`: offers every listener once, starting with a different one each time. */
    method AcceptAll()
      requires AtRest() && net.draining && !halted
      modifies this`net, this`trace, this`schedule, this`errors, this`deadlines, this`timeout, this`halted,
               this`nextConn, this`offers, this`ledger, this`nextListener
      ensures halted ==> Halting(net)
      ensures Valid() && net.send.Free? && (halted || Resting(net)) && net.taken == old(net.taken)
      ensures Scanned(old(net), old(Fuel()), net, Fuel())
      ensures old(Registered()) ==> Registered()
      ensures old(Booked()) ==> Booked()
      ensures Orders(ledger) == old(Orders(ledger))
      ensures old(TimeoutSet()) ==> TimeoutSet()
      ensures halted || net.bits == {} || Served({})
      ensures halted || offers == old(offers) + ScanOrder(old(nextListener), |net.listeners|)
      ensures halted || nextListener == NextScan(old(nextListener), |net.listeners|)
    {
      if |deadlines| == 1 {
        AcceptFrom(0);
        return;
      }
      ScanFrom(nextListener);
      if halted { return; }
      RingIsModulo(nextListener, 1, |deadlines|);
      nextListener := (nextListener + 1) % |deadlines|;
    }

    /** The loop of `accept_all`. */
    method ScanFrom(start: nat)
      requires AtRest() && net.draining && !halted && start < |net.listeners|
      modifies this`net, this`trace, this`schedule, this`errors, this`deadlines, this`timeout, this`halted,
               this`nextConn, this`offers, this`ledger
      ensures halted ==> Halting(net)
      ensures |net.listeners| == |old(net.listeners)| && net.taken == old(net.taken)
      ensures Valid() && net.send.Free? && (halted || Resting(net)) && Scanned(old(net), old(Fuel()), net, Fuel())
      ensures old(Registered()) ==> Registered()
      ensures old(Booked()) ==> Booked()
      ensures Orders(ledger) == old(Orders(ledger))
      ensures old(TimeoutSet()) ==> TimeoutSet()
      ensures halted || net.bits == {} || Served({})
      ensures halted || offers == old(offers) + RingFrom(start, |net.listeners|)
    {
      var n := |deadlines|;
      ghost var s, f, o := net, Fuel(), offers;
      for offset := 0 to n
        invariant n == |deadlines| == |s.listeners|
        invariant Scanning(s, f, o, start, offset) && !halted
        invariant old(Registered()) ==> Registered()
        invariant (old(Booked()) ==> Booked()) && Orders(ledger) == old(Orders(ledger))
        invariant old(TimeoutSet()) ==> TimeoutSet()
      {
        RingIsModulo(start, offset, n);
        Offer((start + offset) % n, s, f, o, start, offset);
        if halted { return; }
      }
      if net.bits != {} { AllAlert(net, start); }
      assert RingFrom(start, n)[..n] == RingFrom(start, n);
    }

    /** A scan that began in state `s` at listener `start` has offered `offset` listeners. */
    ghost predicate Scanning(s: State, f: nat, o: seq<nat>, start: nat, offset: nat)
      reads this
    {
      && AtRest() && net.draining && net.taken == s.taken && start < |net.listeners| && offset <= |net.listeners|
      && Scanned(s, f, net, Fuel())
      && (net.bits == {} || AlertUpTo(net, start, offset))
      && offers == o + RingFrom(start, |net.listeners|)[..offset]
    }

    method Offer(idx: nat, ghost s: State, ghost f: nat, ghost o: seq<nat>, ghost start: nat, ghost offset: nat)
      requires Scanning(s, f, o, start, offset) && offset < |net.listeners| && !halted
      requires idx == Ring(start, offset, |net.listeners|)
      modifies this`net, this`trace, this`schedule, this`errors, this`deadlines, this`timeout, this`halted,
               this`nextConn, this`offers, this`ledger
      ensures halted ==> Halting(net)
      ensures |net.listeners| == |old(net.listeners)| && net.taken == s.taken
      ensures Valid() && net.send.Free? && Scanned(s, f, net, Fuel())
      ensures halted || Scanning(s, f, o, start, offset + 1)
      ensures old(Registered()) ==> Registered()
      ensures old(Booked()) ==> Booked()
      ensures Orders(ledger) == old(Orders(ledger))
      ensures old(TimeoutSet()) ==> TimeoutSet()
    {
      ghost var t, g := net, Fuel();
      AcceptFrom(idx);
      ScannedTwice(s, f, t, g, net, Fuel());
      RingGrows(start, |t.listeners|, offset);
      if !halted && net.bits != {} { OneMoreAlert(t, net, start, offset); }
    }

    // -------------------------------------------------------------- pausing and resuming

    /** The others while this thread is between two actions on listeners. */
    method Between()
      requires AtRest()
      modifies this`net, this`trace, this`schedule
      ensures AtRest() && SameRegistrations(old(net), net) && Unhurried(old(net), old(Fuel()), net, Fuel())
    {
      ghost var s, f := net, Fuel();
      Interfere();
      StillAlert(s, f, net, Fuel());
    }

    /** `deregister_all`: a listener with a deadline is deregistered already and is skipped; all
        deadlines are dropped. */
    method DeregisterAll()
      requires AtRest()
      modifies this`net, this`trace, this`schedule, this`deadlines
      ensures AtRest() && Unhurried(old(net), old(Fuel()), net, Fuel())
      ensures forall l :: 0 <= l < |deadlines| ==>
                && deadlines[l].None?
                && (net.listeners[l].registered <==> old(deadlines[l]).Some? && old(net.listeners[l].registered))
    {
      var n := |deadlines|;
      ghost var s, f := net, Fuel();
      for l := 0 to n
        invariant AtRest() && Unhurried(s, f, net, Fuel()) && |deadlines| == n == |old(deadlines)|
        invariant forall k :: l <= k < n ==> deadlines[k] == old(deadlines[k])
        invariant forall k :: l <= k < n ==> net.listeners[k].registered == old(net.listeners[k].registered)
        invariant forall k :: 0 <= k < l ==>
                    && deadlines[k].None?
                    && (net.listeners[k].registered <==> old(deadlines[k]).Some? && old(net.listeners[k].registered))
      {
        Between();
        if deadlines[l].None? { DoListener(Deregister(l), l); }
        deadlines := deadlines[l := None];
      }
    }

    /** On resume every listener is registered again, which reports the readiness it already has. */
    method RegisterAll()
      requires AtRest()
      modifies this`net, this`trace, this`schedule
      ensures AtRest() && Unhurried(old(net), old(Fuel()), net, Fuel())
      ensures forall l :: 0 <= l < |net.listeners| ==> net.listeners[l].registered
    {
      ghost var s, f := net, Fuel();
      for l := 0 to |deadlines|
        invariant AtRest() && Unhurried(s, f, net, Fuel())
        invariant forall k :: 0 <= k < l ==> net.listeners[k].registered
      {
        Between();
        DoListener(Register(l), l);
      }
    }

    // -------------------------------------------------------------- the waker queue

    /** The last interest taken since `from` interests had been taken was a stop. */
    ghost predicate ToldToStop(from: nat)
      reads this
    {
      from < |handled| && handled[|handled| - 1].Stop?
    }

    /** `handle_waker`: drains the queue; `true` when the thread has to exit. */
    method HandleWaker(ghost pending: set<nat>) returns (exit: bool)
      requires AtRest() && !halted && net.awake && !net.draining
      requires NoStall(pending) && TimeoutSet() && Heeded() && Ledgered()
      modifies this
      ensures old(net.clock) <= net.clock
      ensures halted ==> Halting(net)
      ensures Valid() && net.send.Free? && Heeded() && Ledgered() && old(handled) <= handled
      ensures exit || (NoStall(pending) && TimeoutSet())
      ensures !exit && !halted ==> AtRest() && !net.awake && !net.draining && net.taken == old(net.taken)
      ensures |net.listeners| == |old(net.listeners)| && PauseKept()
      ensures exit <==> ToldToStop(|old(handled)|)
    {
      exit := false;
      Do(Drain);
      while true
        invariant old(net.clock) <= net.clock
        invariant AtRest() && !halted && net.draining && |net.listeners| == |old(net.listeners)|
        invariant net.taken == old(net.taken)
        invariant NoStall(pending) && TimeoutSet() && Heeded() && Ledgered()
        invariant old(handled) <= handled && !ToldToStop(|old(handled)|)
        decreases |net.queue| + Fuel()
      {
        var done;
        done, exit := HandleNext(pending);
        if done || exit || halted {
          PauseIsKept();
          return;
        }
      }
    }

    /** The next interest in the queue, if there is one, taken and acted on. */
    method HandleNext(ghost pending: set<nat>) returns (empty: bool, exit: bool)
      requires AtRest() && !halted && net.draining
      requires NoStall(pending) && TimeoutSet() && Heeded() && Ledgered()
      modifies this
      ensures old(net.clock) <= net.clock
      ensures halted ==> Halting(net)
      ensures Valid() && net.send.Free? && |net.listeners| == |old(net.listeners)| && net.taken == old(net.taken)
      ensures exit || (NoStall(pending) && TimeoutSet())
      ensures Heeded() && Ledgered() && (halted || Resting(net))
      ensures empty ==> !net.awake && !net.draining && !exit && !halted && handled == old(handled)
      ensures !empty ==>
                && net.draining && |handled| == |old(handled)| + 1 && old(handled) <= handled
                && (exit <==> handled[|handled| - 1].Stop?)
                && |net.queue| + Fuel() < |old(net.queue)| + old(Fuel())
    {
      Idle(pending);
      if net.queue == [] {
        FinishQueue(pending);
        return true, false;
      }
      PausedAfterOne(false, handled, net.queue[0]);
      OrdersInAppend(handled, net.queue[0]);
      var interest := PopInterest();
      exit := Handle(interest, pending);
      empty := false;
    }

    method FinishQueue(ghost pending: set<nat>)
      requires AtRest() && net.draining && net.queue == [] && NoStall(pending)
      modifies this`net, this`trace
      ensures old(net.clock) <= net.clock
      ensures AtRest() && !net.awake && !net.draining && NoStall(pending)
      ensures old(Ledgered()) ==> Ledgered()
      ensures |net.listeners| == |old(net.listeners)| && net.taken == old(net.taken)
    {
      Do(QueueEmpty);
    }

    /** Acts on one interest taken from the queue; `true` when the thread has to exit. */
    method Handle(interest: Interest, ghost pending: set<nat>) returns (exit: bool)
      requires AtRest() && !halted && net.draining && TimeoutSet()
      requires paused || Registered()
      requires interest.WorkerAvailable? || interest.NewWorker? || NoStall(pending)
      modifies this`net, this`trace, this`schedule, this`errors, this`deadlines, this`timeout, this`halted,
               this`nextConn, this`offers, this`nextListener, this`paused, this`ledger
      ensures old(net.clock) <= net.clock
      ensures halted ==> Halting(net)
      ensures Valid() && net.send.Free? && |net.listeners| == |old(net.listeners)| && (halted || Resting(net))
      ensures net.draining && net.taken == old(net.taken)
      ensures |net.queue| + Fuel() <= |old(net.queue)| + old(Fuel())
      ensures exit <==> interest.Stop?
      ensures paused == PausedBy(old(paused), interest)
      ensures exit || (NoStall(pending) && TimeoutSet())
      ensures old(Booked()) ==> Booked()
      ensures Orders(ledger) == old(Orders(ledger)) + Order(interest)
      ensures halted || offers == old(offers) + if Offers(old(paused), interest)
                                                then ScanOrder(old(nextListener), |net.listeners|) else []
    {
      exit := false;
      match interest {
        case WorkerAvailable(_) => if !paused { AcceptAll(); }
        case NewWorker(_) => if !paused { AcceptAll(); }
        case Pause => PauseAll();
        case Resume =>
          var was := paused;
          ResumeAll();
          if was { AcceptAll(); }
        case Stop =>
          StopAll();
          exit := true;
      }
    }

    /** A pause. */
    method PauseAll()
      requires AtRest()
      modifies this`net, this`trace, this`schedule, this`deadlines, this`paused, this`ledger
      ensures AtRest() && Unhurried(old(net), old(Fuel()), net, Fuel()) && |deadlines| == |old(deadlines)| && paused
      ensures old(paused) ==> net == old(net) && deadlines == old(deadlines)
      ensures !old(paused) ==> forall l :: 0 <= l < |deadlines| ==>
                && deadlines[l].None?
                && (net.listeners[l].registered <==> old(deadlines[l]).Some? && old(net.listeners[l].registered))
      ensures old(Booked()) ==> Booked()
      ensures Orders(ledger) == old(Orders(ledger)) + [Pause]
    {
      if !paused {
        paused := true;
        DeregisterAll();
      }
      Enter(OnPause);
    }

    /** A resume, up to the scan that follows it. */
    method ResumeAll()
      requires AtRest()
      modifies this`net, this`trace, this`schedule, this`paused, this`ledger
      ensures AtRest() && Unhurried(old(net), old(Fuel()), net, Fuel()) && !paused
      ensures !old(paused) ==> net == old(net)
      ensures old(paused) ==> forall l :: 0 <= l < |net.listeners| ==> net.listeners[l].registered
      ensures old(Booked()) ==> Booked()
      ensures Orders(ledger) == old(Orders(ledger)) + [Resume]
    {
      if paused {
        paused := false;
        RegisterAll();
      }
      Enter(OnResume);
    }

    /** A stop, up to the exit. */
    method StopAll()
      requires AtRest()
      modifies this`net, this`trace, this`schedule, this`deadlines, this`ledger
      ensures AtRest() && Unhurried(old(net), old(Fuel()), net, Fuel()) && |deadlines| == |old(deadlines)|
      ensures old(paused) ==> net == old(net) && deadlines == old(deadlines)
      ensures !old(paused) ==> forall l :: 0 <= l < |deadlines| ==>
                && deadlines[l].None?
                && (net.listeners[l].registered <==> old(deadlines[l]).Some? && old(net.listeners[l].registered))
      ensures old(Booked()) ==> Booked()
      ensures Orders(ledger) == old(Orders(ledger)) + [Stop]
    {
      if !paused { DeregisterAll(); }
      Enter(OnStop);
    }

    ghost method Enter(op: ListenerOp)
      modifies this`ledger
      ensures ledger == old(ledger) + [op] && Orders(ledger) == old(Orders(ledger)) + OrderOf(op)
      ensures IsPaused(ledger) == if op.OnPause? then true else if op.OnResume? then false else old(IsPaused(ledger))
      ensures forall l :: BookOf(ledger, l) == AfterListenerOp(old(BookOf(ledger, l)), old(IsPaused(ledger)), op, l)
    {
      OrdersAppend(ledger, op);
      forall l: nat ensures BookOf(ledger + [op], l) == AfterListenerOp(BookOf(ledger, l), IsPaused(ledger), op, l) {
        BookAppend(ledger, op, l);
      }
      BookAppend(ledger, op, 0);
      ledger := ledger + [op];
    }

    /** Takes one interest out of the queue; a flag or a handle it carries is stored at once. */
    method PopInterest() returns (interest: Interest)
      requires AtRest() && net.draining && net.queue != []
      modifies this`net, this`trace, this`handled
      ensures old(net.clock) <= net.clock
      ensures AtRest() && net.draining && net.taken == old(net.taken)
      ensures interest == old(net.queue[0]) && handled == old(handled) + [interest]
      ensures old(Booked()) ==> Booked()
      ensures net.listeners == old(net.listeners) && net.queue == old(net.queue)[1..]
      ensures interest.WorkerAvailable? || interest.NewWorker? || net.bits == old(net.bits)
    {
      interest := net.queue[0];
      handled := handled + [interest];
      Do(Pop);
    }

    /** The others while nothing may stall. */
    method Idle(ghost pending: set<nat>)
      requires AtRest()
      modifies this`net, this`trace, this`schedule
      ensures AtRest() && Unhurried(old(net), old(Fuel()), net, Fuel()) && SameRegistrations(old(net), net)
      ensures old(NoStall(pending)) ==> NoStall(pending)
      ensures old(net.clock) <= net.clock
      ensures old(Ledgered()) ==> Ledgered()
    {
      ghost var s, f := net, Fuel();
      Interfere();
      StillAlert(s, f, net, Fuel());
    }

    // -------------------------------------------------------------- deadlines

    /** `process_timeout`: listeners whose deadline has passed are registered again, and the poll
        timeout becomes the shortest remaining wait, both by the time at which this begins. */
    method ProcessTimeout()
      requires BetweenTurns() && NoStall({}) && TimeoutSet()
      modifies this`net, this`trace, this`schedule, this`deadlines, this`timeout, this`ledger
      ensures BetweenTurns() && NoStall({}) && TimeoutSet() && |deadlines| == |old(deadlines)|
      ensures old(Ledgered()) ==> Ledgered()
      ensures forall l :: 0 <= l < |deadlines| && deadlines[l].Some? ==> deadlines[l].value > old(net.clock)
      ensures old(timeout).None? ==> timeout.None? && deadlines == old(deadlines)
      ensures old(timeout).Some? ==> IsShortestWait(timeout, deadlines, old(net.clock))
      ensures old(timeout).Some? ==> forall l :: 0 <= l < |deadlines| ==>
                && deadlines[l] == Unexpired(old(deadlines[l]), old(net.clock))
                && (old(deadlines[l]).Some? && deadlines[l].None? && !paused ==> net.listeners[l].registered)
    {
      if timeout.None? { return; }
      timeout := None;
      CheckDeadlines(net.clock);
    }

    /** The loop of `process_timeout`, at the time `now`. */
    method CheckDeadlines(now: nat)
      requires BetweenTurns() && NoStall({}) && timeout.None?
      modifies this`net, this`trace, this`schedule, this`deadlines, this`timeout, this`ledger
      ensures BetweenTurns() && NoStall({}) && (old(Ledgered()) ==> Ledgered())
      ensures IsShortestWait(timeout, deadlines, now) && |deadlines| == |old(deadlines)|
      ensures forall l :: 0 <= l < |deadlines| ==>
                && deadlines[l] == Unexpired(old(deadlines[l]), now)
                && (old(deadlines[l]).Some? && deadlines[l].None? && !paused ==> net.listeners[l].registered)
    {
      var n := |deadlines|;
      ghost var ds := deadlines;
      for l := 0 to n
        invariant BetweenTurns() && NoStall({}) && |deadlines| == n && (old(Ledgered()) ==> Ledgered())
        invariant IsShortestWait(timeout, deadlines[..l], now)
        invariant deadlines[l..] == ds[l..]
        invariant forall k :: 0 <= k < l ==>
                    && deadlines[k] == Unexpired(ds[k], now)
                    && (ds[k].Some? && deadlines[k].None? && !paused ==> net.listeners[k].registered)
      {
        assert deadlines[l] == deadlines[l..][0] == ds[l];
        ghost var before, wait := deadlines, timeout;
        CheckDeadline(l, now);
        OneMoreWait(wait, before[..l], deadlines[l], now);
        assert deadlines[..l + 1] == before[..l] + [deadlines[l]];
        assert deadlines[l + 1..] == before[l..][1..] == ds[l + 1..];
      }
      assert deadlines[..n] == deadlines;
    }

    /** One listener of `process_timeout`. */
    method CheckDeadline(l: nat, now: nat)
      requires BetweenTurns() && NoStall({}) && l < |deadlines|
      modifies this`net, this`trace, this`schedule, this`deadlines, this`timeout, this`ledger
      ensures BetweenTurns() && NoStall({}) && |net.listeners| == |old(net.listeners)|
      ensures old(Ledgered()) ==> Ledgered()
      ensures deadlines == old(deadlines)[l := Unexpired(old(deadlines[l]), now)]
      ensures forall k :: 0 <= k < |net.listeners| && old(net.listeners[k]).registered ==> net.listeners[k].registered
      ensures old(deadlines[l]).Some? && deadlines[l].None? && !paused ==> net.listeners[l].registered
      ensures timeout == if deadlines[l].None? then old(timeout)
                         else Some(Shorter(old(timeout), deadlines[l].value - now))
    {
      Idle({});
      if deadlines[l].Some? {
        var inst := deadlines[l].value;
        if now < inst {
          SetTimeout(inst - now);
        } else {
          if !paused { DoListener(Register(l), l); }
          deadlines := deadlines[l := None];
          Enter(Expired(l));
        }
      }
    }

    // -------------------------------------------------------------- the event loop

    /** What one `poll` returns: those of the wished-for events that are there, in that order. */
    method TakeEvents(wish: seq<Event>) returns (batch: seq<Event>)
      requires BetweenTurns() && NoStall({}) && TimeoutSet()
      modifies this`net, this`trace, this`schedule
      ensures AtRest() && !net.draining && NoStall(TokensOf(batch)) && BatchOk(batch, net)
      ensures old(Ledgered()) ==> Ledgered()
      ensures old(net.clock) <= net.clock
    {
      batch := [];
      for i := 0 to |wish|
        invariant AtRest() && !net.draining && NoStall(TokensOf(batch)) && BatchOk(batch, net)
        invariant (old(Ledgered()) ==> Ledgered()) && old(net.clock) <= net.clock
      {
        Idle(TokensOf(batch));
        match wish[i] {
          case WakerEvent =>
            if net.signalled && WakerEvent !in batch {
              Do(TakeWake);
              batch := batch + [WakerEvent];
            }
          case ListenerEvent(l) =>
            if l < |net.listeners| && net.listeners[l].edge && ListenerEvent(l) !in batch {
              TakeListenerEvent(l, batch);
              batch := batch + [ListenerEvent(l)];
            }
        }
      }
    }

    method TakeListenerEvent(l: nat, ghost batch: seq<Event>)
      requires AtRest() && !net.draining && NoStall(TokensOf(batch)) && BatchOk(batch, net)
      requires l < |net.listeners| && net.listeners[l].edge && ListenerEvent(l) !in batch
      modifies this`net, this`trace
      ensures AtRest() && !net.draining && net.clock == old(net.clock) && (old(Ledgered()) ==> Ledgered())
      ensures NoStall(TokensOf(batch + [ListenerEvent(l)])) && BatchOk(batch + [ListenerEvent(l)], net)
    {
      assert TokensOf(batch + [ListenerEvent(l)]) == TokensOf(batch) + {l};
      Do(TakeEvent(l));
    }

    /** One turn of `poll_with`: a batch of events, then the deadlines. */
    method PollOnce(wish: seq<Event>) returns (exit: bool)
      requires BetweenTurns() && NoStall({}) && TimeoutSet() && Heeded() && Ledgered()
      modifies this
      ensures halted ==> Halting(net)
      ensures Valid() && net.send.Free? && Heeded() && Ledgered() && old(handled) <= handled
      ensures exit <==> ToldToStop(|old(handled)|)
      ensures exit || halted || (BetweenTurns() && NoStall({}) && TimeoutSet())
      ensures exit || halted || NoneExpired(old(net.clock))
      ensures PauseKept()
    {
      exit := Turn(wish);
      PauseIsKept();
    }

    method Turn(wish: seq<Event>) returns (exit: bool)
      requires BetweenTurns() && NoStall({}) && TimeoutSet() && Heeded() && Ledgered()
      modifies this
      ensures halted ==> Halting(net)
      ensures Valid() && net.send.Free? && Heeded() && Ledgered() && old(handled) <= handled
      ensures exit <==> ToldToStop(|old(handled)|)
      ensures exit || halted || (BetweenTurns() && NoStall({}) && TimeoutSet())
      ensures exit || halted || NoneExpired(old(net.clock))
    {
      var batch := TakeEvents(wish);
      for i := 0 to |batch|
        invariant old(net.clock) <= net.clock
        invariant AtRest() && !net.draining && !halted && TimeoutSet() && Heeded() && Ledgered()
        invariant old(handled) <= handled && !ToldToStop(|old(handled)|)
        invariant NoStall(TokensOf(batch[i..])) && BatchOk(batch[i..], net)
      {
        assert batch[i..] == [batch[i]] + batch[i + 1..];
        exit := HandleEvent(batch[i], batch[i + 1..]);
        if exit || halted { return; }
      }
      assert net.taken == {} && !net.awake;
      ProcessTimeout();
      return false;
    }

    /** Every deadline is later than `now`. */
    ghost predicate NoneExpired(now: nat)
      reads this
    {
      forall l :: 0 <= l < |deadlines| && deadlines[l].Some? ==> deadlines[l].value > now
    }

    /** In a pause exactly those listeners are registered that the pause passed over. */
    ghost predicate PauseKept()
      reads this
    {
      paused ==> forall l: nat :: l < |net.listeners| ==> (net.listeners[l].registered <==> Spared(ledger, l))
    }

    lemma PauseIsKept()
      requires Booked()
      ensures PauseKept()
    {
      forall l: nat | l < |net.listeners| && paused ensures net.listeners[l].registered <==> Spared(ledger, l) {
        RegisteredInPauseIff(ledger, l);
      }
    }

    /** One event of a batch. */
    method HandleEvent(event: Event, ghost rest: seq<Event>) returns (exit: bool)
      requires AtRest() && !net.draining && !halted && TimeoutSet() && Heeded() && Ledgered()
      requires NoStall(TokensOf([event] + rest)) && BatchOk([event] + rest, net)
      modifies this
      ensures old(net.clock) <= net.clock
      ensures halted ==> Halting(net)
      ensures Valid() && net.send.Free? && Heeded() && Ledgered() && old(handled) <= handled
      ensures exit <==> ToldToStop(|old(handled)|)
      ensures exit || halted ||
              (AtRest() && !net.draining && TimeoutSet() && NoStall(TokensOf(rest)) && BatchOk(rest, net))
    {
      BatchTail(event, rest, net);
      match event {
        case WakerEvent =>
          exit := HandleWaker(TokensOf(rest));
        case ListenerEvent(l) =>
          AcceptFrom(l);
          exit := false;
      }
    }

    /** `poll_with`: any number of turns, with any events in any order. */
    method PollWith(wishes: seq<seq<Event>>) returns (exit: bool)
      requires BetweenTurns() && NoStall({}) && TimeoutSet() && Heeded() && Ledgered()
      modifies this
      ensures halted ==> Halting(net)
      ensures Valid() && net.send.Free? && Heeded() && Ledgered() && old(handled) <= handled
      ensures exit <==> ToldToStop(|old(handled)|)
      ensures exit || halted || (BetweenTurns() && NoStall({}) && TimeoutSet())
      ensures PauseKept()
      ensures AllAlive(net) || CannotHalt(limit, threads, Deaths(trace.steps)) ==> !halted
    {
      for i := 0 to |wishes|
        invariant BetweenTurns() && NoStall({}) && TimeoutSet() && Heeded() && Ledgered()
        invariant old(handled) <= handled && !ToldToStop(|old(handled)|)
      {
        exit := PollOnce(wishes[i]);
        if exit || halted {
          MayGoOn();
          PauseIsKept();
          return;
        }
      }
      PauseIsKept();
      return false;
    }

    /** Without enough deaths the thread never halts. */
    lemma MayGoOn()
      requires Running()
      ensures AllAlive(net) || CannotHalt(limit, threads, Deaths(trace.steps)) ==> !Halting(net)
    {
      Reached();
      RunIsAfter(trace, Start(limit, threads, |deadlines|), net);
      if AllAlive(net) { AliveGoesOn(net); }
      if CannotHalt(limit, threads, Deaths(trace.steps)) { SuchRunsGoOn(limit, threads, |deadlines|, trace.steps); }
    }

    /** What `NoStall` says between two turns of a thread that is neither paused nor halted: a
        listener with connections to accept has an event or a deadline, and in the second case the
        poll has a timeout; or no worker is marked available, and then every worker the thread
        holds is at its limit or has a notification on its way. */
    lemma NothingIsStuck(l: nat, h: Handle)
      requires BetweenTurns() && NoStall({}) && TimeoutSet() && !paused
      requires l < |net.listeners| && net.listeners[l].backlog > 0 && h in net.handles
      ensures || (net.listeners[l].registered && net.listeners[l].edge)
              || (deadlines[l].Some? && timeout.Some?)
              || (net.bits == {} && h.wid < |net.workers| && Covered(net, h))
      ensures WakeUpOnItsWay(net)
    {
      Reached();
      assert HandleOk(net, h) && Accounted(net, h);
      assert Alert(net.listeners[l]) || net.bits == {};
    }
  }
}
