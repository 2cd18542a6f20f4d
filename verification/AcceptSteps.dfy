/** What the accept thread's code relies on: what the other threads can do between two of its own
    atomic actions, and how it goes round the list of workers. */
module AcceptSteps {
  import opened Options
  import opened Protocol
  import opened ProtocolProofs
  import opened ProtocolTheorems

  /** Milliseconds. */
  const ACCEPT_ERROR_BACKOFF: nat := 500
  const ACCEPT_ERROR_POLL_TIMEOUT: nat := ACCEPT_ERROR_BACKOFF + 10

  /** What stands in the way of one `accept()` call: nothing, an error of that one connection, or
      an error such as a lack of file descriptors. */
  datatype AcceptError = NoError | PerConnection | Resource

  /** `Spins`: the search for an available worker would go round for ever.
      `Panics`: there is no worker to index. */
  datatype Outcome = Done | Spins | Panics

  /** The script of errors went from `before` to `after` without a resource error. */
  ghost predicate Harmless(before: seq<AcceptError>, after: seq<AcceptError>) {
    |after| <= |before| && after == before[|before| - |after|..] && Resource !in before[..|before| - |after|]
  }

  /** The last error met was a resource error, and the only one. */
  ghost predicate HitResource(before: seq<AcceptError>, after: seq<AcceptError>) {
    |after| < |before| && before[|before| - |after| - 1].Resource? && Harmless(before, [Resource] + after)
  }

  lemma OneMoreError(before: seq<AcceptError>, errors: seq<AcceptError>)
    requires Harmless(before, errors) && errors != []
    ensures if errors[0].Resource? then HitResource(before, errors[1..]) && !Harmless(before, errors[1..])
            else Harmless(before, errors[1..])
  {
    var n := |before| - |errors|;
    assert before[n] == errors[0];
    assert before[n + 1..] == before[n..][1..];
    assert before[..n + 1] == before[..n] + [before[n]];
    assert errors == [errors[0]] + errors[1..];
  }

  // ---------------------------------------------------------------- what others may do meanwhile

  ghost predicate Later(x: Listener, y: Listener) {
    && y.registered == x.registered
    && x.backlog <= y.backlog
    && (x.edge ==> y.edge)
    && (x.registered && x.backlog < y.backlog ==> y.edge)
  }

  predicate Alert(x: Listener) { x.registered && x.backlog > 0 ==> x.edge }

  function StepsLeft(schedule: seq<seq<Step>>): nat {
    if schedule == [] then 0 else |schedule[0]| + StepsLeft(schedule[1..])
  }

  /** What a stretch of sends and steps of others leaves alone, and how much it can add to the
      queue and the backlogs when it uses up `f - g` steps of the others. */
  ghost predicate Aside(s: State, f: nat, t: State, g: nat) {
    && g <= f
    && t.limit == s.limit && SameEvents(s, t) && t.serving == s.serving && s.clock <= t.clock
    && s.queue <= t.queue && |t.queue| + g <= |s.queue| + f
    && |t.listeners| == |s.listeners|
    && (forall l :: 0 <= l < |s.listeners| ==>
          Later(s.listeners[l], t.listeners[l]) && t.listeners[l].backlog + g <= s.listeners[l].backlog + f)
    && t.bits <= s.bits
    && s.deliveries <= t.deliveries
    && LivesOnlyEnd(s, t)
  }

  /** The wake-up and the events taken from the poll, and whether the queue is being drained. */
  predicate SameEvents(s: State, t: State) { t.awake == s.awake && t.taken == s.taken && t.draining == s.draining }

  ghost predicate LivesOnlyEnd(s: State, t: State) {
    |s.workers| <= |t.workers|
    && forall w :: 0 <= w < |s.workers| && t.workers[w].alive ==> s.workers[w].alive
  }

  /** The same, with the accept thread itself doing nothing. */
  ghost predicate Meanwhile(s: State, f: nat, t: State, g: nat) {
    && Aside(s, f, t, g)
    && SameWorkers(s, t) && t.send == s.send && t.deliveries == s.deliveries
  }

  /** What the accept thread knows of the workers, and what it is placing. */
  predicate SameWorkers(s: State, t: State) {
    t.handles == s.handles && t.next == s.next && t.bits == s.bits && t.placing == s.placing
  }

  lemma AsideTransitive(s: State, f: nat, t: State, g: nat, u: State, h: nat)
    requires Aside(s, f, t, g) && Aside(t, g, u, h)
    ensures Aside(s, f, u, h)
  {
    forall l | 0 <= l < |s.listeners| ensures Later(s.listeners[l], u.listeners[l]) {
      assert Later(s.listeners[l], t.listeners[l]) && Later(t.listeners[l], u.listeners[l]);
    }
  }

  lemma MeanwhileTransitive(s: State, f: nat, t: State, g: nat, u: State, h: nat)
    requires Meanwhile(s, f, t, g) && Meanwhile(t, g, u, h)
    ensures Meanwhile(s, f, u, h)
  {
    AsideTransitive(s, f, t, g, u, h);
  }

  lemma SendTargetExists(limit: nat, threads: nat, sockets: nat, trace: Run, s: State)
    requires limit > 0 && IsRun(trace, Start(limit, threads, sockets), s) && !s.send.Free?
    ensures s.send.Counted? ==> Enabled(s, Put)
    ensures s.send.Refused? ==> Enabled(s, Undo)
  {
    RunIsAfter(trace, Start(limit, threads, sockets), s);
    EveryRunKeepsInv(limit, threads, sockets, trace.steps);
    assert HandleOk(s, s.send.to);
    CountersStayPositive(s, s.send.to.wid);
  }

  /** The steps of a send leave listeners, queue and flags of others alone. */
  lemma SendIsAside(s: State, step: Step, f: nat)
    requires Enabled(s, step) && SendStep(step)
    ensures Aside(s, f, Next(s, step), f)
  {
    SendLeavesEvents(s, step);
    SendKeepsLives(s, step);
  }

  lemma SendLeavesEvents(s: State, step: Step)
    requires Enabled(s, step) && SendStep(step)
    ensures var t := Next(s, step);
            && t.queue == s.queue && t.listeners == s.listeners && t.limit == s.limit && t.clock == s.clock
            && SameEvents(s, t) && t.serving == s.serving
            && t.bits <= s.bits && s.deliveries <= t.deliveries
  {
    match step
    case Skip =>
    case Inc =>
    case Put =>
    case Settle =>
    case Undo =>
    case Remove =>
  }

  lemma SendKeepsLives(s: State, step: Step)
    requires Enabled(s, step) && SendStep(step)
    ensures |Next(s, step).workers| == |s.workers|
    ensures forall w :: 0 <= w < |s.workers| ==> Next(s, step).workers[w].alive == s.workers[w].alive
  {
    match step
    case Skip =>
    case Inc =>
    case Put =>
    case Settle =>
    case Undo =>
    case Remove =>
  }

  lemma EnvironmentLeavesAccept(s: State, step: Step)
    requires Enabled(s, step) && IsEnvironment(step)
    ensures var t := Next(s, step);
            && SameWorkers(s, t) && t.send == s.send && t.deliveries == s.deliveries
            && t.limit == s.limit && SameEvents(s, t) && t.serving == s.serving && s.clock <= t.clock
            && s.queue <= t.queue && |t.queue| <= |s.queue| + 1
  {
    match step
    case Receive(_) =>
    case DropGuard(_) =>
    case Notify(_) =>
    case Die(_) =>
    case Signal =>
    case ServerTake =>
    case ServerStart =>
    case ServerGiveUp =>
    case ServerCommand(_) =>
    case Arrive(_) =>
    case Tick(_) =>
  }

  lemma EnvironmentOnListeners(s: State, step: Step, l: nat)
    requires Enabled(s, step) && IsEnvironment(step) && l < |s.listeners|
    ensures var t := Next(s, step);
            && |t.listeners| == |s.listeners|
            && Later(s.listeners[l], t.listeners[l]) && t.listeners[l].backlog <= s.listeners[l].backlog + 1
  {
    match step
    case Receive(_) =>
    case DropGuard(_) =>
    case Notify(_) =>
    case Die(_) =>
    case Signal =>
    case ServerTake =>
    case ServerStart =>
    case ServerGiveUp =>
    case ServerCommand(_) =>
    case Arrive(_) =>
    case Tick(_) =>
  }

  lemma EnvironmentIsMeanwhile(s: State, f: nat, step: Step)
    requires Enabled(s, step) && IsEnvironment(step)
    ensures Meanwhile(s, f + 1, Next(s, step), f)
  {
    var t := Next(s, step);
    EnvironmentLeavesAccept(s, step);
    StepGrows(s, step);
    forall l | 0 <= l < |s.listeners|
      ensures |t.listeners| == |s.listeners| && Later(s.listeners[l], t.listeners[l])
      ensures t.listeners[l].backlog <= s.listeners[l].backlog + 1
    {
      EnvironmentOnListeners(s, step, l);
    }
    assert |t.listeners| == |s.listeners|;
  }

  // ---------------------------------------------------------------- going round

  /** The index `d` places after `n` in a ring of `len`. */
  function Ring(n: nat, d: nat, len: nat): (k: nat)
    requires n < len && d <= len
    ensures k < len
  {
    if n + d < len then n + d else n + d - len
  }

  lemma RingIsModulo(n: nat, d: nat, len: nat)
    requires n < len && d <= len
    ensures (n + d) % len == Ring(n, d, len)
  {
    var x := n + d;
    if x < len { SmallModulo(x, len); } else { OneRound(x, len); }
  }

  lemma SmallModulo(x: nat, len: nat)
    requires x < len
    ensures x % len == x
  {
  }

  lemma OneRound(x: nat, len: nat)
    requires 0 < len <= x < len + len
    ensures x % len == x - len
  {
    var a := x / len;
    assert x == a * len + x % len;
    if a >= 2 { AtLeastTwice(a, len); }
    assert a == 1;
  }

  lemma AtLeastTwice(a: nat, len: nat)
    requires a >= 2
    ensures a * len >= len + len
  {
    assert a * len == len + len + (a - 2) * len;
  }

  predicate Marked(hs: seq<Handle>, bits: set<nat>, n: nat, d: nat)
    requires n < |hs| && d <= |hs|
  {
    hs[Ring(n, d, |hs|)].idx in bits
  }

  /** How many handles after the next one the first available one is; `|hs|` if there is none. */
  function FirstMarked(hs: seq<Handle>, bits: set<nat>, n: nat, from: nat := 0): (d: nat)
    requires n < |hs| && from <= |hs|
    ensures from <= d <= |hs|
    ensures d < |hs| ==> Marked(hs, bits, n, d)
    ensures forall e :: from <= e < d ==> !Marked(hs, bits, n, e)
    decreases |hs| - from
  {
    if from == |hs| || Marked(hs, bits, n, from) then from else FirstMarked(hs, bits, n, from + 1)
  }

  /** Skipping an unavailable handle brings the first available one nearer. */
  lemma SkipOne(hs: seq<Handle>, bits: set<nat>, n: nat)
    requires n < |hs| && !Marked(hs, bits, n, 0) && FirstMarked(hs, bits, n) < |hs|
    ensures var m := Ring(n, 1, |hs|); var d := FirstMarked(hs, bits, n);
            d > 0 && FirstMarked(hs, bits, m) == d - 1 && Ring(m, d - 1, |hs|) == Ring(n, d, |hs|)
  {
    var m, d := Ring(n, 1, |hs|), FirstMarked(hs, bits, n);
    assert forall e :: 0 <= e < |hs| ==> Ring(m, e, |hs|) == Ring(n, e + 1, |hs|);
    assert Marked(hs, bits, m, d - 1);
    forall e | 0 <= e < d - 1 ensures !Marked(hs, bits, m, e) {
      assert Marked(hs, bits, m, e) == Marked(hs, bits, n, e + 1);
    }
  }

  lemma NoneMarked(hs: seq<Handle>, bits: set<nat>, n: nat)
    requires n < |hs|
    ensures FirstMarked(hs, bits, n) == |hs| <==> forall h :: h in hs ==> h.idx !in bits
  {
    var d := FirstMarked(hs, bits, n);
    if d == |hs| {
      forall h | h in hs ensures h.idx !in bits {
        var k :| 0 <= k < |hs| && hs[k] == h;
        var e := if k >= n then k - n else k + |hs| - n;
        assert Ring(n, e, |hs|) == k;
        assert !Marked(hs, bits, n, e);
      }
    } else {
      assert hs[Ring(n, d, |hs|)] in hs;
    }
  }

  // ---------------------------------------------------------------- one listener

  /** Of the listeners nothing changed but `l`, and of the rest nothing that a scan goes by. */
  ghost predicate OneListener(s: State, t: State, l: nat) {
    && l < |s.listeners| == |t.listeners|
    && (forall k :: 0 <= k < |s.listeners| && k != l ==> t.listeners[k] == s.listeners[k])
    && t.queue == s.queue && t.bits == s.bits && t.awake == s.awake && t.draining == s.draining
    && t.clock == s.clock
  }

  /** What a stretch of accepting leaves alone apart from the listeners. */
  ghost predicate Scanned(s: State, f: nat, t: State, g: nat) {
    && g <= f
    && t.awake == s.awake && t.draining == s.draining && t.bits <= s.bits && s.clock <= t.clock
    && s.queue <= t.queue && |t.queue| + g <= |s.queue| + f
    && |t.listeners| == |s.listeners|
  }

  /** A listener somebody else was working on: it may have new connections, with their event. */
  ghost predicate Undisturbed(x: Listener, y: Listener) {
    y.registered == x.registered && (Alert(x) ==> Alert(y))
  }

  ghost predicate OthersUndisturbed(s: State, t: State, l: nat) {
    |t.listeners| == |s.listeners| &&
    forall k :: 0 <= k < |s.listeners| && k != l ==> Undisturbed(s.listeners[k], t.listeners[k])
  }

  lemma ScannedOne(s: State, f: nat, t: State, g: nat, u: State, l: nat)
    requires Scanned(s, f, t, g) && OneListener(t, u, l) && OthersUndisturbed(s, t, l)
    ensures Scanned(s, f, u, g) && OthersUndisturbed(s, u, l)
  {
  }

  lemma ScannedAside(s: State, f: nat, t: State, g: nat, u: State, h: nat, l: nat)
    requires Scanned(s, f, t, g) && Aside(t, g, u, h) && OthersUndisturbed(s, t, l) && l < |t.listeners|
    ensures Scanned(s, f, u, h) && OthersUndisturbed(s, u, l)
    ensures u.listeners[l].registered == t.listeners[l].registered
    ensures u.listeners[l].backlog + h <= t.listeners[l].backlog + g
  {
    assert Later(t.listeners[l], u.listeners[l]);
    forall k | 0 <= k < |s.listeners| && k != l ensures Undisturbed(s.listeners[k], u.listeners[k]) {
      assert Undisturbed(s.listeners[k], t.listeners[k]) && Later(t.listeners[k], u.listeners[k]);
    }
  }

  lemma ScannedTwice(s: State, f: nat, t: State, g: nat, u: State, h: nat)
    requires Scanned(s, f, t, g) && Scanned(t, g, u, h)
    ensures Scanned(s, f, u, h)
  {
  }

  // ---------------------------------------------------------------- scans over all listeners

  /** All `n` indices, beginning at `start` and wrapping around. */
  function RingFrom(start: nat, n: nat): (r: seq<nat>)
    requires start < n
    ensures |r| == n
    ensures forall e :: 0 <= e < n ==> r[e] == Ring(start, e, n)
  {
    seq(n, e requires 0 <= e < n => Ring(start, e, n))
  }

  /** The listeners one scan offers, in order, and where the next scan begins. */
  function ScanOrder(start: nat, n: nat): seq<nat>
    requires start < n
  {
    if n == 1 then [0] else RingFrom(start, n)
  }

  function NextScan(start: nat, n: nat): nat
    requires start < n
  {
    if n == 1 then start else Ring(start, 1, n)
  }

  lemma RingGrows(start: nat, n: nat, offset: nat)
    requires start < n && offset < n
    ensures RingFrom(start, n)[..offset + 1] == RingFrom(start, n)[..offset] + [Ring(start, offset, n)]
  {
  }

  /** The first `offset` listeners of a scan are alert. */
  ghost predicate AlertUpTo(s: State, start: nat, offset: nat) {
    start < |s.listeners| && offset <= |s.listeners| &&
    forall e :: 0 <= e < offset ==> Alert(s.listeners[Ring(start, e, |s.listeners|)])
  }

  /** Working on one listener of a scan leaves the earlier ones alert. */
  lemma OneMoreAlert(t: State, u: State, start: nat, offset: nat)
    requires AlertUpTo(t, start, offset) && offset < |t.listeners|
    requires OthersUndisturbed(t, u, Ring(start, offset, |t.listeners|))
    requires Alert(u.listeners[Ring(start, offset, |t.listeners|)])
    ensures AlertUpTo(u, start, offset + 1)
  {
    var n := |t.listeners|;
    forall e | 0 <= e < offset ensures Alert(u.listeners[Ring(start, e, n)]) {
      assert Ring(start, e, n) != Ring(start, offset, n);
      assert Undisturbed(t.listeners[Ring(start, e, n)], u.listeners[Ring(start, e, n)]);
    }
  }

  /** A whole scan covers every listener. */
  lemma AllAlert(s: State, start: nat)
    requires AlertUpTo(s, start, |s.listeners|)
    ensures forall l :: 0 <= l < |s.listeners| ==> Alert(s.listeners[l])
  {
    var n := |s.listeners|;
    forall l | 0 <= l < n ensures Alert(s.listeners[l]) {
      var e := if l >= start then l - start else l + n - start;
      assert Ring(start, e, n) == l;
    }
  }

  ghost predicate SameButListeners(s: State, t: State) {
    |t.listeners| == |s.listeners| && t == s.(listeners := t.listeners)
  }

  ghost predicate SameRegistrations(s: State, t: State) {
    |t.listeners| == |s.listeners| &&
    forall l :: 0 <= l < |s.listeners| ==> t.listeners[l].registered == s.listeners[l].registered
  }

  /** What a stretch of work on registrations leaves alone, whatever others do meanwhile. */
  ghost predicate Unhurried(s: State, f: nat, t: State, g: nat) {
    && |t.listeners| == |s.listeners| && SameEvents(s, t) && SameWorkers(s, t) && s.clock <= t.clock
    && |t.queue| + g <= |s.queue| + f
  }

  /** New connections at a registered listener come with an event. */
  lemma StillAlert(s: State, f: nat, t: State, g: nat)
    requires Aside(s, f, t, g)
    ensures forall l :: 0 <= l < |s.listeners| ==> Undisturbed(s.listeners[l], t.listeners[l])
  {
    forall l | 0 <= l < |s.listeners| ensures Undisturbed(s.listeners[l], t.listeners[l]) {
      assert Later(s.listeners[l], t.listeners[l]);
    }
  }

  function PausedBy(paused: bool, i: Interest): bool {
    match i
    case Pause => true
    case Resume => false
    case _ => paused
  }

  /** Whether all listeners are offered after an interest, by whether the thread was paused before it. */
  predicate Offers(paused: bool, i: Interest) {
    match i
    case WorkerAvailable(_) => !paused
    case NewWorker(_) => !paused
    case Resume => paused
    case _ => false
  }

  /** Whether the thread is paused after handling these interests. */
  function PausedAfter(paused: bool, done: seq<Interest>): bool {
    if done == [] then paused else PausedBy(PausedAfter(paused, done[..|done| - 1]), done[|done| - 1])
  }

  lemma PausedAfterOne(paused: bool, done: seq<Interest>, i: Interest)
    ensures PausedAfter(paused, done + [i]) == PausedBy(PausedAfter(paused, done), i)
  {
    assert (done + [i])[..|done|] == done;
  }

  // ---------------------------------------------------------------- deadlines

  /** A deadline that has passed is dropped. */
  function Unexpired(deadline: Option<nat>, now: nat): Option<nat> {
    if deadline.Some? && now < deadline.value then deadline else None
  }

  /** `wait` is the shortest time until one of the deadlines, if there are any. */
  ghost predicate IsShortestWait(wait: Option<nat>, deadlines: seq<Option<nat>>, now: nat) {
    match wait
    case None => forall k :: 0 <= k < |deadlines| ==> deadlines[k].None?
    case Some(d) =>
      && Some(now + d) in deadlines
      && forall k :: 0 <= k < |deadlines| && deadlines[k].Some? ==> now + d <= deadlines[k].value
  }

  function Shorter(wait: Option<nat>, duration: nat): nat {
    if wait.Some? && wait.value <= duration then wait.value else duration
  }

  lemma OneMoreWait(wait: Option<nat>, deadlines: seq<Option<nat>>, deadline: Option<nat>, now: nat)
    requires IsShortestWait(wait, deadlines, now)
    requires deadline.Some? ==> now < deadline.value
    ensures deadline.None? ==> IsShortestWait(wait, deadlines + [deadline], now)
    ensures deadline.Some? ==>
              IsShortestWait(Some(Shorter(wait, deadline.value - now)), deadlines + [deadline], now)
  {
    var all := deadlines + [deadline];
    assert all[|deadlines|] == deadline;
    if wait.Some? {
      var k :| 0 <= k < |deadlines| && deadlines[k] == Some(now + wait.value);
      assert all[k] == Some(now + wait.value);
    }
  }

  // ---------------------------------------------------------------- batches of events

  datatype Event = WakerEvent | ListenerEvent(l: nat)

  function TokensOf(batch: seq<Event>): set<nat> { set e | e in batch && e.ListenerEvent? :: e.l }

  /** The events of a batch that are still to be handled: they were taken from the poll, once each,
      and nothing else was. */
  ghost predicate BatchOk(batch: seq<Event>, s: State) {
    && (forall e :: e in batch && e.ListenerEvent? ==> e.l < |s.listeners|)
    && s.taken == TokensOf(batch) && (s.awake <==> WakerEvent in batch)
    && forall i, j :: 0 <= i < j < |batch| ==> batch[i] != batch[j]
  }

  lemma BatchTail(event: Event, rest: seq<Event>, s: State)
    requires BatchOk([event] + rest, s)
    ensures event !in rest
    ensures TokensOf(rest) == if event.ListenerEvent? then s.taken - {event.l} else s.taken
    ensures event.ListenerEvent? ==> event.l in s.taken && event.l < |s.listeners|
    ensures event.WakerEvent? ==> s.awake
    ensures forall i, j :: 0 <= i < j < |rest| ==> rest[i] != rest[j]
    ensures forall e :: e in rest ==> e in [event] + rest
    ensures event.ListenerEvent? ==> (WakerEvent in rest <==> WakerEvent in [event] + rest)
  {
    var batch := [event] + rest;
    assert batch[0] == event;
    assert forall i :: 0 <= i < |rest| ==> batch[i + 1] == rest[i];
    if event.ListenerEvent? { assert event in batch; }
    assert TokensOf(batch) == TokensOf(rest) + if event.ListenerEvent? then {event.l} else {};
  }
}
