/** How an actix-rt System stops: the controller with its command channel, and the arbiters with
    theirs. Any thread may act between any two sends. */
module SystemStop {
  import opened Options

  datatype Command = Exit(code: int) | RegisterArbiter(id: nat) | DeregisterArbiter(id: nat)

  /** A command to an arbiter. A stop that comes from the controller is told apart by the position
      of the `Exit` it belongs to; the runner treats all stops alike. */
  datatype ArbiterCommand = Execute(task: nat) | Stop(exit: Option<nat>)

  /** How far the thread of an arbiter has come. `Ended` is the runner's end, `Gone` comes after the
      deregistration. */
  datatype Phase = Starting | Failed | Registered | Running | Ended | Gone

  /** The channel of an arbiter with all that was ever accepted, how much of it the runner has
      taken, and what it has spawned. `returned` says that the constructor has returned. */
  datatype Arbiter = Arbiter(phase: Phase, returned: bool, queue: seq<ArbiterCommand>, taken: nat, spawned: seq<nat>)

  /** The channel of the system with all that was ever sent, how much of it the controller has taken,
      the exit code that is observed, and the arbiters. */
  datatype World = World(sent: seq<Command>, taken: nat, code: Option<int>, arbs: map<nat, Arbiter>, next: nat)

  /** Between two commands, or in the middle of an `Exit` with arbiters still to stop. */
  datatype Control = Idle | Stopping(code: int, todo: set<nat>)

  datatype State = State(world: World, arbiters: set<nat>, stopTx: bool, control: Control)

  datatype Step =
    | NewArbiter
    | FailInit(id: nat)
    | Register(id: nat)
    | SignalReady(id: nat)
    | Return(id: nat)
    | SendExit(code: int)
    | Spawn(id: nat, task: nat)
    | StopArbiter(id: nat)
    | Work(id: nat)
    | Deregister(id: nat)
    // the controller
    | Take
    | StopOne(id: nat)
    | Publish

  predicate IsController(step: Step) { step.Take? || step.StopOne? || step.Publish? }

  /** The number under which a system registers its own arbiter. */
  const SYSTEM_ARBITER: nat := 0xFFFF_FFFF_FFFF_FFFF

  const NEW := Arbiter(Starting, false, [], 0, [])

  /** A new system: its own arbiter runs, and its registration is in the channel. */
  const START := State(
    World([RegisterArbiter(SYSTEM_ARBITER)], 0, None, map[SYSTEM_ARBITER := Arbiter(Running, true, [], 0, [])], 0),
    {}, true, Idle)

  // ---------------------------------------------------------------- steps

  predicate Over(a: Arbiter) { a.phase == Ended || a.phase == Gone }

  predicate HasHandle(a: Arbiter) { a.phase != Starting && a.phase != Failed }

  /** A send to an arbiter fails when its runner has ended. */
  function Sent(a: Arbiter, c: ArbiterCommand): Arbiter {
    if Over(a) then a else a.(queue := a.queue + [c])
  }

  function Update(w: World, id: nat, a: Arbiter): World { w.(arbs := w.arbs[id := a]) }

  function Tell(w: World, c: Command): World { w.(sent := w.sent + [c]) }

  predicate Enabled(s: State, step: Step) {
    var arbs := s.world.arbs;
    match step
    case NewArbiter => s.world.next < SYSTEM_ARBITER
    case FailInit(id) => id in arbs && arbs[id].phase == Starting
    case Register(id) => id in arbs && arbs[id].phase == Starting
    case SignalReady(id) => id in arbs && arbs[id].phase == Registered
    case Return(id) => id in arbs && arbs[id].phase !in {Starting, Failed, Registered} && !arbs[id].returned
    case SendExit(_) => true
    case Spawn(id, _) => id in arbs && HasHandle(arbs[id])
    case StopArbiter(id) => id in arbs && HasHandle(arbs[id])
    case Work(id) => id in arbs && arbs[id].phase == Running && arbs[id].taken < |arbs[id].queue|
    case Deregister(id) => id in arbs && arbs[id].phase == Ended && id != SYSTEM_ARBITER
    case Take => s.control.Idle? && s.world.taken < |s.world.sent|
    case StopOne(id) => s.control.Stopping? && id in s.control.todo && id in arbs
    case Publish => s.control.Stopping? && s.control.todo == {}
  }

  /** `ArbiterRunner::poll` on one command. */
  function Worked(a: Arbiter): Arbiter
    requires a.taken < |a.queue|
  {
    match a.queue[a.taken]
    case Stop(_) => a.(phase := Ended, taken := a.taken + 1)
    case Execute(task) => a.(spawned := a.spawned + [task], taken := a.taken + 1)
  }

  function NextWorld(w: World, step: Step): World
    requires !IsController(step) && Enabled(State(w, {}, true, Idle), step)
  {
    match step
    case NewArbiter => Update(w, w.next, NEW).(next := w.next + 1)
    case FailInit(id) => Update(w, id, w.arbs[id].(phase := Failed))
    case Register(id) => Tell(Update(w, id, w.arbs[id].(phase := Registered)), RegisterArbiter(id))
    case SignalReady(id) => Update(w, id, w.arbs[id].(phase := Running))
    case Return(id) => Update(w, id, w.arbs[id].(returned := true))
    case SendExit(code) => Tell(w, Exit(code))
    case Spawn(id, task) => Update(w, id, Sent(w.arbs[id], Execute(task)))
    case StopArbiter(id) => Update(w, id, Sent(w.arbs[id], Stop(None)))
    case Work(id) => Update(w, id, Worked(w.arbs[id]))
    case Deregister(id) => Tell(Update(w, id, w.arbs[id].(phase := Gone)), DeregisterArbiter(id))
  }

  /** The command being handled. */
  function Current(w: World): nat { if w.taken == 0 then 0 else w.taken - 1 }

  function NextControl(s: State, step: Step): State
    requires IsController(step) && Enabled(s, step)
  {
    match step
    case Take =>
      var t := s.(world := s.world.(taken := s.world.taken + 1));
      var cmd := s.world.sent[s.world.taken];
      if cmd.Exit? then t.(control := Stopping(cmd.code, s.arbiters))
      else t.(arbiters := Registering(s.arbiters, cmd))
    case StopOne(id) =>
      s.(world := Update(s.world, id, Sent(s.world.arbs[id], Stop(Some(Current(s.world))))),
         control := s.control.(todo := s.control.todo - {id}))
    case Publish =>
      s.(world := s.world.(code := if s.stopTx then Some(s.control.code) else s.world.code),
         stopTx := false, control := Idle)
  }

  function Next(s: State, step: Step): State
    requires Enabled(s, step)
  {
    if IsController(step) then NextControl(s, step) else s.(world := NextWorld(s.world, step))
  }

  // ---------------------------------------------------------------- runs

  predicate IsRun(s: State, steps: seq<Step>)
    decreases |steps|, 0
  {
    steps == [] || (IsRun(s, steps[..|steps| - 1]) && Enabled(After(s, steps[..|steps| - 1]), steps[|steps| - 1]))
  }

  function After(s: State, steps: seq<Step>): State
    requires IsRun(s, steps)
    decreases |steps|, 1
  {
    if steps == [] then s else Next(After(s, steps[..|steps| - 1]), steps[|steps| - 1])
  }

  lemma Extend(s: State, steps: seq<Step>, step: Step)
    requires IsRun(s, steps) && Enabled(After(s, steps), step)
    ensures IsRun(s, steps + [step]) && After(s, steps + [step]) == Next(After(s, steps), step)
  {
    assert (steps + [step])[..|steps|] == steps;
  }

  // ---------------------------------------------------------------- what the channels say

  /** The code of the first `Exit`. */
  function FirstExit(cmds: seq<Command>): Option<int> {
    if cmds == [] then None
    else if cmds[0].Exit? then Some(cmds[0].code)
    else FirstExit(cmds[1..])
  }

  function Registering(ids: set<nat>, c: Command): set<nat> {
    match c
    case Exit(_) => ids
    case RegisterArbiter(id) => ids + {id}
    case DeregisterArbiter(id) => ids - {id}
  }

  /** The arbiters registered by a list of commands. */
  function RegisteredBy(cmds: seq<Command>): set<nat> {
    if cmds == [] then {} else Registering(RegisteredBy(cmds[..|cmds| - 1]), cmds[|cmds| - 1])
  }

  predicate HasStop(queue: seq<ArbiterCommand>) {
    exists i :: 0 <= i < |queue| && queue[i].Stop?
  }

  /** The tasks before the first stop. */
  function TasksBeforeStop(queue: seq<ArbiterCommand>): seq<nat> {
    if queue == [] || queue[0].Stop? then [] else [queue[0].task] + TasksBeforeStop(queue[1..])
  }

  /** Whatever comes behind it, and behind no `Exit` there is no code. */
  lemma {:induction false} FirstExitIs(before: seq<Command>, code: int, behind: seq<Command>)
    requires forall i :: 0 <= i < |before| ==> !before[i].Exit?
    ensures FirstExit(before + [Exit(code)] + behind) == Some(code) && FirstExit(before).None?
    decreases |before|
  {
    var cmds := before + [Exit(code)] + behind;
    if before != [] {
      assert cmds[1..] == before[1..] + [Exit(code)] + behind;
      FirstExitIs(before[1..], code, behind);
    }
  }

  function Executes(tasks: seq<nat>): (queue: seq<ArbiterCommand>)
    ensures |queue| == |tasks|
  {
    if tasks == [] then [] else [Execute(tasks[0])] + Executes(tasks[1..])
  }

  /** All tasks in order, up to the first stop, whatever comes behind it. */
  lemma {:induction false} TasksBeforeStopAre(tasks: seq<nat>, stop: ArbiterCommand, behind: seq<ArbiterCommand>)
    requires stop.Stop?
    ensures TasksBeforeStop(Executes(tasks)) == tasks
    ensures TasksBeforeStop(Executes(tasks) + [stop] + behind) == tasks
    decreases |tasks|
  {
    var queue := Executes(tasks) + [stop] + behind;
    if tasks != [] {
      assert queue[1..] == Executes(tasks[1..]) + [stop] + behind;
      TasksBeforeStopAre(tasks[1..], stop, behind);
    }
  }

  lemma {:induction false} FirstExitAppend(cmds: seq<Command>, c: Command)
    ensures FirstExit(cmds + [c]) ==
            if FirstExit(cmds).Some? then FirstExit(cmds) else if c.Exit? then Some(c.code) else None
  {
    if cmds == [] {
      assert cmds + [c] == [c];
    } else {
      assert (cmds + [c])[1..] == cmds[1..] + [c];
      FirstExitAppend(cmds[1..], c);
    }
  }

  lemma RegisteredAppend(cmds: seq<Command>, c: Command)
    ensures RegisteredBy(cmds + [c]) == Registering(RegisteredBy(cmds), c)
  {
    assert (cmds + [c])[..|cmds|] == cmds;
  }

  /** The arbiter registered at `i`, and has not deregistered since. */
  ghost predicate RegisteredAt(cmds: seq<Command>, id: nat, i: nat) {
    i < |cmds| && cmds[i] == RegisterArbiter(id) && forall j :: i < j < |cmds| ==> cmds[j] != DeregisterArbiter(id)
  }

  /** An arbiter is known exactly if it has registered and not deregistered since. */
  lemma {:induction false} RegisteredMeans(cmds: seq<Command>, id: nat)
    ensures id in RegisteredBy(cmds) <==> exists i :: RegisteredAt(cmds, id, i)
    ensures RegisterArbiter(id) in cmds && DeregisterArbiter(id) !in cmds ==> id in RegisteredBy(cmds)
  {
    if cmds != [] {
      var n := |cmds| - 1;
      var init := cmds[..n];
      RegisteredMeans(init, id);
      assert cmds == init + [cmds[n]];
      if i :| RegisteredAt(init, id, i) {
        assert cmds[n] != DeregisterArbiter(id) ==> RegisteredAt(cmds, id, i);
      }
      if cmds[n] == RegisterArbiter(id) {
        assert RegisteredAt(cmds, id, n);
      } else {
        forall i: nat | RegisteredAt(cmds, id, i)
          ensures RegisteredAt(init, id, i) && cmds[n] != DeregisterArbiter(id)
        {
          assert i < n;
        }
      }
    }
  }

  lemma {:induction false} TasksAppend(queue: seq<ArbiterCommand>, c: ArbiterCommand)
    ensures TasksBeforeStop(queue + [c]) ==
            if HasStop(queue) || c.Stop? then TasksBeforeStop(queue) else TasksBeforeStop(queue) + [c.task]
    ensures HasStop(queue + [c]) <==> HasStop(queue) || c.Stop?
  {
    var q := queue + [c];
    assert q[|queue|] == c;
    if queue == [] {
      assert q == [c] && [c][1..] == [];
    } else {
      assert q[1..] == queue[1..] + [c];
      TasksAppend(queue[1..], c);
      if HasStop(queue) {
        var i :| 0 <= i < |queue| && queue[i].Stop?;
        assert q[i].Stop?;
        if i > 0 { assert queue[1..][i - 1].Stop?; }
      } else {
        assert forall i :: 0 <= i < |queue[1..]| ==> queue[1..][i] == queue[i + 1];
      }
    }
  }

  // ---------------------------------------------------------------- the invariant

  /** The runner has spawned, in order, the tasks before the first stop among what it has taken, and
      it has ended exactly if there is one. */
  predicate ArbiterOk(a: Arbiter) {
    && a.taken <= |a.queue|
    && a.spawned == TasksBeforeStop(a.queue[..a.taken])
    && (Over(a) <==> HasStop(a.queue[..a.taken]))
  }

  /** Registration goes into the channel before the constructor can return, and deregistration after
      the runner has ended. */
  predicate ThreadOk(w: World, id: nat)
    requires id in w.arbs
  {
    var a := w.arbs[id];
    && (a.phase !in {Starting, Failed} ==> RegisterArbiter(id) in w.sent)
    && (a.returned ==> a.phase !in {Starting, Failed, Registered})
  }

  predicate WorldOk(w: World) {
    && w.taken <= |w.sent| && w.next <= SYSTEM_ARBITER
    && (forall id :: id in w.arbs ==> ArbiterOk(w.arbs[id]) && ThreadOk(w, id) && (id < w.next || id == SYSTEM_ARBITER))
    && (forall c :: c in w.sent && c.RegisterArbiter? ==> c.id in w.arbs)
    && (forall c :: c in w.sent && c.DeregisterArbiter? ==> c.id in w.arbs && Over(w.arbs[c.id]))
  }

  predicate StopSent(a: Arbiter, k: nat) { Stop(Some(k)) in a.queue }

  /** The `Exit` at `k` has been worked off, so far as the arbiter `id` goes. */
  predicate Handled(s: State, k: nat, id: nat) {
    k < s.world.taken && !(s.control.Stopping? && k == s.world.taken - 1 && id in s.control.todo)
  }

  /** Every `Exit` sends a stop to the arbiters that were registered before it, and to no others; a
      stop is lost only on an arbiter that has ended. */
  ghost predicate StopsOk(s: State) {
    forall k, id :: 0 <= k < |s.world.sent| && id in s.world.arbs ==> StopOk(s, k, id)
  }

  predicate StopOk(s: State, k: nat, id: nat)
    requires k < |s.world.sent| && id in s.world.arbs
  {
    var (a, here) := (s.world.arbs[id], s.world.sent[k].Exit? && id in RegisteredBy(s.world.sent[..k]));
    && (StopSent(a, k) ==> here && Handled(s, k, id))
    && (here && Handled(s, k, id) ==> StopSent(a, k) || Over(a))
  }

  /** No stop is from an `Exit` that was not sent. */
  predicate StopsBounded(w: World) {
    forall id, c :: id in w.arbs && c in w.arbs[id].queue && c.Stop? && c.exit.Some? ==> c.exit.value < |w.sent|
  }

  /** What the controller knows is what the commands it has taken say. */
  predicate ControlOk(s: State) {
    var w := s.world;
    && w.taken <= |w.sent|
    && s.arbiters == RegisteredBy(w.sent[..w.taken])
    && (s.stopTx <==> w.code.None?)
    && (s.control.Idle? ==> w.code == FirstExit(w.sent[..w.taken]))
    && (s.control.Stopping? ==>
          && w.taken > 0 && w.sent[w.taken - 1] == Exit(s.control.code)
          && w.code == FirstExit(w.sent[..w.taken - 1])
          && s.control.todo <= s.arbiters)
  }

  ghost predicate Inv(s: State) {
    WorldOk(s.world) && ControlOk(s) && StopsOk(s) && StopsBounded(s.world)
  }

  lemma WorkKeepsArbiter(a: Arbiter)
    requires ArbiterOk(a) && a.taken < |a.queue| && a.phase == Running
    ensures ArbiterOk(Worked(a))
  {
    assert a.queue[..a.taken + 1] == a.queue[..a.taken] + [a.queue[a.taken]];
    TasksAppend(a.queue[..a.taken], a.queue[a.taken]);
  }

  lemma SendKeepsArbiter(a: Arbiter, c: ArbiterCommand)
    requires ArbiterOk(a)
    ensures ArbiterOk(Sent(a, c)) && Sent(a, c).phase == a.phase && Sent(a, c).returned == a.returned
    ensures forall k :: StopSent(Sent(a, c), k) <==> StopSent(a, k) || (c == Stop(Some(k)) && !Over(a))
  {
    assert (a.queue + [c])[..a.taken] == a.queue[..a.taken];
  }

  /** An arbiter only moves on. */
  predicate Onward(a: Arbiter, b: Arbiter) {
    && (Over(a) ==> Over(b)) && (a.returned ==> b.returned) && a.queue <= b.queue
  }

  /** What a step of the others does to the channels: it may send a command, and it changes one
      arbiter, to which it sends no stop of the controller. */
  predicate Mild(w: World, v: World) {
    && v.taken == w.taken && v.code == w.code && w.sent <= v.sent
    && (forall id :: id in w.arbs ==> id in v.arbs && Onward(w.arbs[id], v.arbs[id]))
    && (forall id :: id in v.arbs ==> NoNewStop(if id in w.arbs then w.arbs[id] else NEW, v.arbs[id]))
    && (forall id :: id in v.arbs && id !in w.arbs ==> RegisterArbiter(id) !in w.sent)
  }

  /** Others send no stop of the controller. */
  predicate NoNewStop(a: Arbiter, b: Arbiter) {
    forall c :: c in b.queue && c.Stop? && c.exit.Some? ==> c in a.queue
  }

  lemma UpdateKeepsWorld(w: World, id: nat, a: Arbiter)
    requires WorldOk(w) && id in w.arbs && Onward(w.arbs[id], a)
    requires ArbiterOk(a) && ThreadOk(Update(w, id, a), id)
    ensures WorldOk(Update(w, id, a))
    ensures NoNewStop(w.arbs[id], a) ==> Mild(w, Update(w, id, a))
  {
    var v := Update(w, id, a);
    forall x | x in v.arbs ensures ArbiterOk(v.arbs[x]) && ThreadOk(v, x) {
      if x != id { assert ThreadOk(w, x); }
    }
  }

  lemma TellKeepsWorld(w: World, c: Command)
    requires WorldOk(w)
    requires c.RegisterArbiter? ==> c.id in w.arbs
    requires c.DeregisterArbiter? ==> c.id in w.arbs && Over(w.arbs[c.id])
    ensures WorldOk(Tell(w, c)) && Mild(w, Tell(w, c))
  {
    forall x | x in w.arbs ensures ThreadOk(Tell(w, c), x) {
      assert ThreadOk(w, x);
    }
  }

  lemma MildTwice(w: World, v: World, u: World)
    requires Mild(w, v) && Mild(v, u)
    ensures Mild(w, u)
  {
  }

  lemma NewKeepsWorld(w: World)
    requires WorldOk(w) && w.next < SYSTEM_ARBITER
    ensures WorldOk(NextWorld(w, NewArbiter)) && Mild(w, NextWorld(w, NewArbiter))
  {
    var v := NextWorld(w, NewArbiter);
    assert w.next !in w.arbs;
    forall x | x in v.arbs ensures ArbiterOk(v.arbs[x]) && ThreadOk(v, x) {
      if x in w.arbs { assert ThreadOk(w, x); }
    }
  }

  lemma OthersKeepWorld(w: World, step: Step)
    requires WorldOk(w) && !IsController(step) && Enabled(State(w, {}, true, Idle), step)
    ensures WorldOk(NextWorld(w, step)) && Mild(w, NextWorld(w, step))
  {
    match step
    case NewArbiter => NewKeepsWorld(w);
    case FailInit(id) => UpdateKeepsWorld(w, id, w.arbs[id].(phase := Failed));
    case Register(id) => RegisterKeepsWorld(w, id);
    case SignalReady(id) =>
      assert ThreadOk(w, id);
      UpdateKeepsWorld(w, id, w.arbs[id].(phase := Running));
    case Return(id) =>
      assert ThreadOk(w, id);
      UpdateKeepsWorld(w, id, w.arbs[id].(returned := true));
    case SendExit(code) => TellKeepsWorld(w, Exit(code));
    case Spawn(id, task) => SendKeepsWorld(w, id, Execute(task));
    case StopArbiter(id) => SendKeepsWorld(w, id, Stop(None));
    case Work(id) =>
      assert ThreadOk(w, id);
      WorkKeepsArbiter(w.arbs[id]);
      UpdateKeepsWorld(w, id, Worked(w.arbs[id]));
    case Deregister(id) => DeregisterKeepsWorld(w, id);
  }

  lemma RegisterKeepsWorld(w: World, id: nat)
    requires WorldOk(w) && id in w.arbs && w.arbs[id].phase == Starting
    ensures WorldOk(NextWorld(w, Register(id))) && Mild(w, NextWorld(w, Register(id)))
  {
    var (v, a) := (Tell(w, RegisterArbiter(id)), w.arbs[id].(phase := Registered));
    TellKeepsWorld(w, RegisterArbiter(id));
    assert ThreadOk(w, id);
    assert v.sent[|w.sent|] == RegisterArbiter(id);
    UpdateKeepsWorld(v, id, a);
    MildTwice(w, v, Update(v, id, a));
    assert NextWorld(w, Register(id)) == Update(v, id, a);
  }

  lemma DeregisterKeepsWorld(w: World, id: nat)
    requires WorldOk(w) && id in w.arbs && w.arbs[id].phase == Ended && id != SYSTEM_ARBITER
    ensures WorldOk(NextWorld(w, Deregister(id))) && Mild(w, NextWorld(w, Deregister(id)))
  {
    assert ThreadOk(w, id);
    var v := Update(w, id, w.arbs[id].(phase := Gone));
    UpdateKeepsWorld(w, id, w.arbs[id].(phase := Gone));
    TellKeepsWorld(v, DeregisterArbiter(id));
    MildTwice(w, v, Tell(v, DeregisterArbiter(id)));
  }

  lemma SendKeepsWorld(w: World, id: nat, c: ArbiterCommand)
    requires WorldOk(w) && id in w.arbs && (c.Execute? || c.exit.None?)
    ensures WorldOk(Update(w, id, Sent(w.arbs[id], c))) && Mild(w, Update(w, id, Sent(w.arbs[id], c)))
  {
    assert ThreadOk(w, id);
    SendKeepsArbiter(w.arbs[id], c);
    UpdateKeepsWorld(w, id, Sent(w.arbs[id], c));
  }

  lemma MildKeepsControl(s: State, v: World)
    requires ControlOk(s) && Mild(s.world, v)
    ensures ControlOk(s.(world := v))
  {
    assert v.sent[..s.world.taken] == s.world.sent[..s.world.taken];
    if s.control.Stopping? {
      assert v.sent[..s.world.taken - 1] == s.world.sent[..s.world.taken - 1];
    }
  }

  lemma OthersKeepInv(s: State, step: Step)
    requires Inv(s) && !IsController(step) && Enabled(s, step)
    ensures Inv(Next(s, step))
  {
    OthersKeepWorld(s.world, step);
    MildKeepsInv(s, NextWorld(s.world, step));
  }

  lemma MildKeepsInv(s: State, v: World)
    requires Inv(s) && WorldOk(v) && Mild(s.world, v)
    ensures Inv(s.(world := v))
  {
    var t := s.(world := v);
    MildKeepsControl(s, v);
    forall k, id | 0 <= k < |v.sent| && id in v.arbs ensures StopOk(t, k, id) {
      MildKeepsStop(s, t, k, id);
    }
  }

  lemma MildKeepsStop(s: State, t: State, k: nat, id: nat)
    requires Inv(s) && Mild(s.world, t.world) && t == s.(world := t.world)
    requires k < |t.world.sent| && id in t.world.arbs
    ensures StopOk(t, k, id)
  {
    assert StopSent(t.world.arbs[id], k) ==> id in s.world.arbs && StopSent(s.world.arbs[id], k);
    if k < |s.world.sent| {
      assert t.world.sent[..k] == s.world.sent[..k];
      if id in s.world.arbs {
        assert StopOk(s, k, id);
      } else {
        RegisteredMeans(s.world.sent[..k], id);
        assert forall c :: c in s.world.sent[..k] ==> c in s.world.sent;
      }
    }
  }

  lemma TakeKeepsControl(s: State)
    requires ControlOk(s) && Enabled(s, Take)
    ensures ControlOk(Next(s, Take))
  {
    var (w, n) := (s.world, s.world.taken);
    assert w.sent[..n + 1] == w.sent[..n] + [w.sent[n]];
    FirstExitAppend(w.sent[..n], w.sent[n]);
    RegisteredAppend(w.sent[..n], w.sent[n]);
  }

  lemma TakeKeepsInv(s: State)
    requires Inv(s) && Enabled(s, Take)
    ensures Inv(Next(s, Take))
  {
    var t := Next(s, Take);
    TakeKeepsControl(s);
    forall k, id | 0 <= k < |t.world.sent| && id in t.world.arbs ensures StopOk(t, k, id) {
      assert StopOk(s, k, id);
    }
  }

  lemma StopOneKeepsStop(s: State, id: nat, k: nat, x: nat)
    requires ControlOk(s) && Enabled(s, StopOne(id)) && ArbiterOk(s.world.arbs[id])
    requires k < |s.world.sent| && x in s.world.arbs && StopOk(s, k, x)
    ensures StopOk(Next(s, StopOne(id)), k, x)
  {
    var n := s.world.taken - 1;
    SendKeepsArbiter(s.world.arbs[id], Stop(Some(n)));
    assert s.world.sent[..n + 1] == s.world.sent[..n] + [s.world.sent[n]];
    RegisteredAppend(s.world.sent[..n], s.world.sent[n]);
  }

  lemma StopOneKeepsInv(s: State, id: nat)
    requires Inv(s) && Enabled(s, StopOne(id))
    ensures Inv(Next(s, StopOne(id)))
  {
    var t := Next(s, StopOne(id));
    SendKeepsArbiter(s.world.arbs[id], Stop(Some(s.world.taken - 1)));
    assert ThreadOk(s.world, id);
    UpdateKeepsWorld(s.world, id, t.world.arbs[id]);
    forall k, x | 0 <= k < |t.world.sent| && x in t.world.arbs ensures StopOk(t, k, x) {
      StopOneKeepsStop(s, id, k, x);
    }
  }

  lemma PublishKeepsInv(s: State)
    requires Inv(s) && Enabled(s, Publish)
    ensures Inv(Next(s, Publish))
  {
    var t := Next(s, Publish);
    var (w, n) := (s.world, s.world.taken);
    assert w.sent[..n] == w.sent[..n - 1] + [w.sent[n - 1]];
    FirstExitAppend(w.sent[..n - 1], w.sent[n - 1]);
    forall k, id | 0 <= k < |t.world.sent| && id in t.world.arbs ensures StopOk(t, k, id) {
      assert StopOk(s, k, id);
    }
  }

  lemma StepKeepsInv(s: State, step: Step)
    requires Inv(s) && Enabled(s, step)
    ensures Inv(Next(s, step))
  {
    match step
    case Take => TakeKeepsInv(s);
    case StopOne(id) => StopOneKeepsInv(s, id);
    case Publish => PublishKeepsInv(s);
    case _ => OthersKeepInv(s, step);
  }

  lemma StartInv()
    ensures Inv(START)
  {
    assert RegisteredBy(START.world.sent[..0]) == {};
    assert forall c :: c in START.world.sent ==> c == RegisterArbiter(SYSTEM_ARBITER);
  }

  lemma {:induction false} EveryRunKeepsInv(s: State, steps: seq<Step>)
    requires Inv(s) && IsRun(s, steps)
    ensures Inv(After(s, steps))
    decreases |steps|
  {
    if steps != [] {
      EveryRunKeepsInv(s, steps[..|steps| - 1]);
      StepKeepsInv(After(s, steps[..|steps| - 1]), steps[|steps| - 1]);
    }
  }

  // ---------------------------------------------------------------- theorems

  /** The observed code is that of the first `Exit` the controller has worked off, in every run. */
  lemma FirstExitWins(steps: seq<Step>)
    requires IsRun(START, steps)
    ensures var s := After(START, steps);
            && s.world.taken <= |s.world.sent|
            && (s.control.Idle? ==> s.world.code == FirstExit(s.world.sent[..s.world.taken]))
            && (s.world.code.Some? ==> s.world.code == FirstExit(s.world.sent))
  {
    StartInv();
    EveryRunKeepsInv(START, steps);
    var w := After(START, steps).world;
    FirstExitOfPrefix(w.sent, w.taken);
    if w.taken > 0 { FirstExitOfPrefix(w.sent, w.taken - 1); }
  }

  lemma {:induction false} FirstExitOfPrefix(cmds: seq<Command>, n: nat)
    requires n <= |cmds|
    ensures FirstExit(cmds[..n]).Some? ==> FirstExit(cmds) == FirstExit(cmds[..n])
    decreases |cmds|
  {
    if n > 0 {
      assert cmds[..n][1..] == cmds[1..][..n - 1];
      FirstExitOfPrefix(cmds[1..], n - 1);
    }
  }

  lemma {:induction false} OnwardRun(s: State, steps: seq<Step>)
    requires Inv(s) && IsRun(s, steps)
    ensures var t := After(s, steps);
            && s.world.sent <= t.world.sent && (s.world.code.Some? ==> t.world.code == s.world.code)
            && forall id :: id in s.world.arbs ==> id in t.world.arbs && Onward(s.world.arbs[id], t.world.arbs[id])
    decreases |steps|
  {
    if steps != [] {
      var init := steps[..|steps| - 1];
      OnwardRun(s, init);
      EveryRunKeepsInv(s, init);
      OnwardStep(After(s, init), steps[|steps| - 1]);
    }
  }

  lemma OnwardStep(s: State, step: Step)
    requires Inv(s) && Enabled(s, step)
    ensures var t := Next(s, step);
            && s.world.sent <= t.world.sent && (s.world.code.Some? ==> t.world.code == s.world.code)
            && forall id :: id in s.world.arbs ==> id in t.world.arbs && Onward(s.world.arbs[id], t.world.arbs[id])
  {
    if !IsController(step) { OthersKeepWorld(s.world, step); }
  }

  /** Every arbiter whose constructor had returned when an `Exit` was sent is stopped by it: once the
      controller is through with that `Exit`, the arbiter has a stop in its channel or has ended. */
  lemma StopReachesEveryArbiter(before: seq<Step>, code: int, later: seq<Step>, id: nat)
    requires IsRun(START, before)
    requires var s := After(START, before);
             && id in s.world.arbs && s.world.arbs[id].returned
             && IsRun(Next(s, SendExit(code)), later)
             && Handled(After(Next(s, SendExit(code)), later), |s.world.sent|, id)
    ensures var k := |After(START, before).world.sent|;
            var t := After(Next(After(START, before), SendExit(code)), later);
            && id in t.world.arbs
            && (StopSent(t.world.arbs[id], k) || Over(t.world.arbs[id]))
            && (t.world.arbs[id].taken == |t.world.arbs[id].queue| ==> Over(t.world.arbs[id]))
  {
    StartInv();
    EveryRunKeepsInv(START, before);
    var s := After(START, before);
    var k := |s.world.sent|;
    var u := Next(s, SendExit(code));
    StepKeepsInv(s, SendExit(code));
    OnwardRun(u, later);
    EveryRunKeepsInv(u, later);
    var t := After(u, later);
    assert t.world.sent[..k] == u.world.sent[..k] == s.world.sent;
    assert t.world.sent[k] == u.world.sent[k] == Exit(code);
    RegisteredMeans(s.world.sent, id);
    assert ThreadOk(s.world, id);
    assert StopOk(t, k, id);
    StoppedWhenDrained(t.world.arbs[id], k);
  }

  lemma StoppedWhenDrained(a: Arbiter, k: nat)
    requires ArbiterOk(a)
    ensures StopSent(a, k) && a.taken == |a.queue| ==> Over(a)
  {
    assert a.queue[..|a.queue|] == a.queue;
  }

  /** Whoever sees an exit code sees it after the stops: the arbiters registered before that first
      `Exit` have their stop, or have ended. */
  lemma CodeComesAfterTheStops(steps: seq<Step>, k: nat, id: nat)
    requires IsRun(START, steps)
    requires var w := After(START, steps).world;
             && w.code.Some? && k < |w.sent| && w.sent[k].Exit? && FirstExit(w.sent[..k]).None?
             && id in RegisteredBy(w.sent[..k])
    ensures var w := After(START, steps).world;
            id in w.arbs && (StopSent(w.arbs[id], k) || Over(w.arbs[id]))
  {
    StartInv();
    EveryRunKeepsInv(START, steps);
    var s := After(START, steps);
    var w := s.world;
    var n := if s.control.Stopping? then w.taken - 1 else w.taken;
    if n <= k {
      assert w.sent[..k][..n] == w.sent[..n];
      FirstExitOfPrefix(w.sent[..k], n);
      assert false;
    }
    RegisteredMeans(w.sent[..k], id);
    assert forall c :: c in w.sent[..k] ==> c in w.sent;
    assert StopOk(s, k, id);
  }

  /** An arbiter spawns exactly the tasks queued before its first stop, in order; none is spawned
      after it, and until it none is left out. */
  lemma SpawnsWhatCameBeforeTheStop(steps: seq<Step>, id: nat)
    requires IsRun(START, steps) && id in After(START, steps).world.arbs
    ensures var a := After(START, steps).world.arbs[id];
            && a.spawned <= TasksBeforeStop(a.queue)
            && (Over(a) || a.taken == |a.queue| ==> a.spawned == TasksBeforeStop(a.queue))
            && (Over(a) ==> HasStop(a.queue))
  {
    StartInv();
    EveryRunKeepsInv(START, steps);
    var a := After(START, steps).world.arbs[id];
    TasksOfPrefix(a.queue, a.taken);
    assert a.queue[..|a.queue|] == a.queue;
  }

  lemma {:induction false} TasksOfPrefix(queue: seq<ArbiterCommand>, n: nat)
    requires n <= |queue|
    ensures TasksBeforeStop(queue[..n]) <= TasksBeforeStop(queue)
    ensures HasStop(queue[..n]) ==> TasksBeforeStop(queue[..n]) == TasksBeforeStop(queue) && HasStop(queue)
    decreases |queue|
  {
    if n > 0 {
      assert queue[..n][1..] == queue[1..][..n - 1];
      TasksOfPrefix(queue[1..], n - 1);
      if HasStop(queue[..n]) && !queue[0].Stop? {
        var i :| 0 <= i < n && queue[..n][i].Stop?;
        assert queue[1..][..n - 1][i - 1].Stop?;
      }
    }
  }

  /** A limit of the protocol: an arbiter that registers after the last `Exit` is never stopped. Its
      constructor returns, and it works on, while the code is already out. */
  lemma LateArbiterRunsOn(code: int)
    ensures exists steps :: IsRun(START, steps) && OutlivesTheSystem(After(START, steps), code, 0)
  {
    var steps := StoppedEarly(code);
    var s0 := After(START, steps);
    Extend(START, steps, Register(0));
    var s1 := Next(s0, Register(0));
    steps := steps + [Register(0)];
    Extend(START, steps, SignalReady(0));
    var s2 := Next(s1, SignalReady(0));
    steps := steps + [SignalReady(0)];
    Extend(START, steps, Return(0));
    var s3 := Next(s2, Return(0));
    steps := steps + [Return(0)];
    Extend(START, steps, Take);
    steps := steps + [Take];
    assert OutlivesTheSystem(Next(s3, Take), code, 0);
  }

  /** A system that was stopped while its first arbiter was starting. */
  lemma StoppedEarly(code: int) returns (steps: seq<Step>)
    ensures IsRun(START, steps)
    ensures var s := After(START, steps);
            && s.control == Idle && !s.stopTx && s.world.code == Some(code)
            && s.world.taken == |s.world.sent| && 0 in s.world.arbs && s.world.arbs[0] == NEW
  {
    steps := [];
    assert IsRun(START, steps);
    Extend(START, steps, NewArbiter);
    var s1 := Next(START, NewArbiter);
    steps := steps + [NewArbiter];
    Extend(START, steps, SendExit(code));
    var s2 := Next(s1, SendExit(code));
    steps := steps + [SendExit(code)];
    Extend(START, steps, Take);
    var s3 := Next(s2, Take);
    steps := steps + [Take];
    Extend(START, steps, Take);
    var s4 := Next(s3, Take);
    steps := steps + [Take];
    assert s4.control == Stopping(code, {SYSTEM_ARBITER});
    Extend(START, steps, StopOne(SYSTEM_ARBITER));
    var s5 := Next(s4, StopOne(SYSTEM_ARBITER));
    steps := steps + [StopOne(SYSTEM_ARBITER)];
    assert s5.control == Stopping(code, {});
    Extend(START, steps, Publish);
    steps := steps + [Publish];
  }

  /** The code is out, the controller has nothing left to do, and the arbiter runs without a stop. */
  predicate OutlivesTheSystem(s: State, code: int, id: nat) {
    && s.world.code == Some(code) && s.control.Idle? && s.world.taken == |s.world.sent|
    && id in s.world.arbs && s.world.arbs[id] == Arbiter(Running, true, [], 0, [])
  }

  // ---------------------------------------------------------------- the controller

  lemma TodoExists(s: State, id: nat)
    requires Inv(s) && s.control.Stopping? && id in s.control.todo
    ensures id in s.world.arbs
  {
    RegisteredMeans(s.world.sent[..s.world.taken], id);
    assert forall c :: c in s.world.sent[..s.world.taken] ==> c in s.world.sent;
  }

  /** The controller's poll. What other threads do between its steps comes from a script. */
  class SystemController {
    var arbiters: set<nat>
    var stopTx: bool
    var world: World
    var others: seq<seq<Step>>
    ghost var control: Control
    ghost var steps: seq<Step>

    ghost function Whole(): State reads this { State(world, arbiters, stopTx, control) }

    /** Everything so far is a run of the protocol. */
    ghost predicate Valid() reads this {
      IsRun(START, steps) && After(START, steps) == Whole() && Inv(Whole())
    }

    constructor (others: seq<seq<Step>>)
      ensures Valid() && control == Idle && this.others == others && steps == []
    {
      arbiters, stopTx, world := START.arbiters, START.stopTx, START.world;
      this.others := others;
      control, steps := Idle, [];
      StartInv();
    }

    /** Records a step that `Whole` is about to make. */
    ghost method Note(step: Step, t: State)
      requires IsRun(START, steps) && Inv(After(START, steps))
      requires Enabled(After(START, steps), step) && t == Next(After(START, steps), step)
      modifies this`steps
      ensures steps == old(steps) + [step]
      ensures IsRun(START, steps) && After(START, steps) == t && Inv(t)
    {
      StepKeepsInv(After(START, steps), step);
      Extend(START, steps, step);
      steps := steps + [step];
    }

    /** Lets the others act. A step that is not enabled does not happen. */
    method Others()
      requires Valid()
      modifies this`world, this`others, this`steps
      ensures Valid() && old(steps) <= steps
      ensures |others| == if old(others) == [] then 0 else |old(others)| - 1
      ensures old(others) == [] ==> world == old(world)
      ensures world.taken == old(world.taken) && world.code == old(world.code)
    {
      if others == [] { return; }
      var batch := others[0];
      others := others[1..];
      for i := 0 to |batch|
        invariant Valid() && old(steps) <= steps
        invariant others == old(others)[1..]
        invariant world.taken == old(world.taken) && world.code == old(world.code)
      {
        Other(batch[i]);
      }
    }

    method Other(step: Step)
      requires Valid()
      modifies this`world, this`steps
      ensures Valid() && old(steps) <= steps
      ensures world.taken == old(world.taken) && world.code == old(world.code)
    {
      if !IsController(step) && Enabled(State(world, {}, true, Idle), step) {
        OthersKeepWorld(world, step);
        ghost var t := Next(Whole(), step);
        Note(step, t);
        world := NextWorld(world, step);
        assert Whole() == t;
      }
    }

    /** The loop over the registered arbiters, in the order of a hash map: any. */
    method StopAll()
      requires Valid() && control.Stopping? && control.todo == arbiters
      modifies this`world, this`others, this`steps, this`control
      ensures Valid() && old(steps) <= steps && control == Stopping(old(control).code, {})
      ensures |others| <= |old(others)| && world.taken == old(world.taken) && world.code == old(world.code)
      ensures old(others) == [] ==> world.sent == old(world.sent)
    {
      var todo := arbiters;
      while todo != {}
        invariant Valid() && old(steps) <= steps && control == Stopping(old(control).code, todo)
        invariant |others| <= |old(others)| && world.taken == old(world.taken) && world.code == old(world.code)
        invariant old(others) == [] ==> world.sent == old(world.sent)
        decreases |todo|
      {
        var id :| id in todo;
        TodoExists(Whole(), id);
        StopHandle(id);
        todo := todo - {id};
        Others();
      }
    }

    /** `ArbiterHandle::stop`, on one arbiter of the loop. */
    method StopHandle(id: nat)
      requires Valid() && control.Stopping? && id in control.todo && id in world.arbs
      modifies this`world, this`steps, this`control
      ensures Valid() && old(steps) <= steps && control == old(control).(todo := old(control).todo - {id})
      ensures world == Update(old(world), id, Sent(old(world).arbs[id], Stop(Some(Current(old(world))))))
    {
      ghost var t := Next(Whole(), StopOne(id));
      Note(StopOne(id), t);
      world := Update(world, id, Sent(world.arbs[id], Stop(Some(Current(world)))));
      control := control.(todo := control.todo - {id});
      assert Whole() == t;
    }

    /** Receives one command, and registers or deregisters an arbiter. */
    method Receive() returns (cmd: Command)
      requires Valid() && control == Idle && world.taken < |world.sent|
      modifies this`world, this`steps, this`control, this`arbiters
      ensures Valid() && old(steps) < steps && world == old(world).(taken := old(world).taken + 1)
      ensures cmd == old(world).sent[old(world).taken] && arbiters == Registering(old(arbiters), cmd)
      ensures control == if cmd.Exit? then Stopping(cmd.code, arbiters) else Idle
    {
      cmd := world.sent[world.taken];
      ghost var t := Next(Whole(), Take);
      Note(Take, t);
      world := world.(taken := world.taken + 1);
      match cmd {
        case Exit(code) => control := Stopping(code, arbiters);
        case RegisterArbiter(id) => arbiters := arbiters + {id};
        case DeregisterArbiter(id) => arbiters := arbiters - {id};
      }
      assert Whole() == t;
    }

    /** Works off one command: every stop of an `Exit` is sent before its code. */
    method Obey()
      requires Valid() && control == Idle && world.taken < |world.sent|
      modifies this`world, this`others, this`steps, this`control, this`arbiters, this`stopTx
      ensures Valid() && control == Idle && old(steps) < steps && world.taken == old(world.taken) + 1
      ensures |others| <= |old(others)| && (old(others) == [] ==> world.sent == old(world.sent))
    {
      var cmd := Receive();
      if cmd.Exit? {
        StopAll();
        Announce(cmd.code);
      }
    }

    /** Takes the sender of the exit code, which fires once. */
    method Announce(code: int)
      requires Valid() && control == Stopping(code, {})
      modifies this`world, this`steps, this`control, this`stopTx
      ensures Valid() && control == Idle && old(steps) < steps && !stopTx
      ensures world == old(world).(code := if old(stopTx) then Some(code) else old(world).code)
    {
      ghost var t := Next(Whole(), Publish);
      Note(Publish, t);
      if stopTx {
        stopTx := false;
        world := world.(code := Some(code));
      }
      control := Idle;
      assert Whole() == t;
    }

    /** `SystemController::poll`: works off the commands until the channel is empty. What it does is
        a run of the protocol. */
    method Poll()
      requires Valid() && control == Idle
      modifies this
      ensures Valid() && control == Idle && old(steps) <= steps
      ensures world.taken == |world.sent|
    {
      while world.taken < |world.sent|
        invariant Valid() && control == Idle && old(steps) <= steps
        decreases |others|, |world.sent| - world.taken
      {
        Obey();
        Others();
      }
    }
  }

  /** The runner of an arbiter. */
  class ArbiterRunner {
    var rx: seq<ArbiterCommand>
    var spawned: seq<nat>

    constructor (rx: seq<ArbiterCommand>)
      ensures this.rx == rx && spawned == []
    {
      this.rx, spawned := rx, [];
    }

    /** `ArbiterRunner::poll` on the commands in its channel: it spawns the tasks before the first
        stop, ends at a stop, and leaves the commands behind it alone. */
    method Poll() returns (done: bool)
      modifies this
      ensures done <==> HasStop(old(rx))
      ensures spawned == old(spawned) + TasksBeforeStop(old(rx))
      ensures exists n :: 0 <= n <= |old(rx)| && rx == old(rx)[n..] && (done ==> n > 0 && old(rx)[n - 1].Stop?)
      ensures !done ==> rx == []
    {
      ghost var n := 0;
      ghost var was := rx;
      while rx != []
        invariant 0 <= n <= |was| && rx == was[n..] && !HasStop(was[..n])
        invariant spawned == old(spawned) + TasksBeforeStop(was[..n])
      {
        var item := rx[0];
        rx := rx[1..];
        assert was[..n + 1] == was[..n] + [item];
        TasksAppend(was[..n], item);
        n := n + 1;
        match item {
          case Stop(_) =>
            TasksOfPrefix(was, n);
            return true;
          case Execute(task) =>
            spawned := spawned + [task];
        }
      }
      assert was[..n] == was;
      return false;
    }
  }
}
