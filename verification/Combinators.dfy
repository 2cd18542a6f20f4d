/** The `and_then` and `then` combinators of actix-service, as futures that are polled.

    What a leaf service answers is decided by an oracle that sees everything that happened before,
    so leaves may share state, depend on each other, and depend on what others do between polls.
    The two combinators differ only in what becomes of an error of the first part. */
module Combinators {
  import opened Options

  datatype Result = Ok(value: nat) | Err(error: nat)

  datatype Outcome = Pending | Ready(res: Result)

  /** What the leaves see. The future of a leaf is known by the position `at` of the event that made
      it, so every future has its own. */
  datatype Event =
    | Called(leaf: nat, req: Result)
    | Created(leaf: nat)
    | Polled(leaf: nat, at: nat, out: Outcome)
    | ReadyPolled(leaf: nat, out: Outcome)

  type Trace = seq<Event>
  type Oracle = (Trace, nat) -> Outcome

  datatype Kind = AndThen | Then

  datatype Service = Leaf(id: nat) | Chain(kind: Kind, a: Service, b: Service)

  /** The response future: `StateA` holds the first future and the services, `StateB` the second
      future. */
  datatype Response =
    | Running(leaf: nat, at: nat)
    | StateA(kind: Kind, fut: Response, b: Service)
    | StateB(fut: Response)

  datatype Step = Step(out: Outcome, fut: Response, trace: Trace)

  function Leaves(s: Service): (ids: seq<nat>)
    ensures ids != []
  {
    match s
    case Leaf(id) => [id]
    case Chain(_, a, b) => Leaves(a) + Leaves(b)
  }

  predicate UniformService(k: Kind, s: Service) {
    s.Leaf? || (s.kind == k && UniformService(k, s.a) && UniformService(k, s.b))
  }

  predicate Uniform(k: Kind, f: Response) {
    match f
    case Running(_, _) => true
    case StateA(kind, fut, b) => kind == k && Uniform(k, fut) && UniformService(k, b)
    case StateB(fut) => Uniform(k, fut)
  }

  function ServiceSize(s: Service): nat {
    match s
    case Leaf(_) => 1
    case Chain(_, a, b) => ServiceSize(a) + ServiceSize(b) + 1
  }

  function Size(f: Response): (n: nat)
    ensures n > 0
  {
    match f
    case Running(_, _) => 1
    case StateA(_, fut, b) => Size(fut) + ServiceSize(b) + 1
    case StateB(fut) => Size(fut) + 1
  }

  /** `call`. */
  function Call(s: Service, req: Result, trace: Trace): (r: (Response, Trace))
    ensures Size(r.0) == ServiceSize(s)
  {
    match s
    case Leaf(id) => (Running(id, |trace|), trace + [Called(id, req)])
    case Chain(kind, a, b) =>
      var r := Call(a, req, trace);
      (StateA(kind, r.0, b), r.1)
  }

  /** One poll of a response future, by recursion. */
  function Poll(f: Response, oracle: Oracle, trace: Trace): Step
    decreases Size(f)
  {
    match f
    case Running(leaf, at) =>
      var out := oracle(trace, leaf);
      Step(out, f, trace + [Polled(leaf, at, out)])
    case StateA(kind, fut, b) =>
      var p := Poll(fut, oracle, trace);
      if p.out.Pending? || (kind == AndThen && p.out.res.Err?) then Step(p.out, StateA(kind, p.fut, b), p.trace)
      else
        var c := Call(b, p.out.res, p.trace);
        Poll(StateB(c.0), oracle, c.1)
    case StateB(fut) =>
      var p := Poll(fut, oracle, trace);
      Step(p.out, StateB(p.fut), p.trace)
  }

  /** The leaves of a program: what they answer, and what has happened to them. */
  class Executor {
    const oracle: Oracle
    var trace: Trace

    constructor (oracle: Oracle)
      ensures this.oracle == oracle && trace == []
    {
      this.oracle := oracle;
      trace := [];
    }

    /** `AndThenServiceResponse::poll` and `ThenServiceResponse::poll`, with their loop. */
    method PollResponse(f: Response) returns (out: Outcome, fut: Response)
      modifies this
      ensures Step(out, fut, trace) == Poll(f, oracle, old(trace))
      decreases Size(f)
    {
      var state := f;
      while true
        invariant Poll(state, oracle, trace) == Poll(f, oracle, old(trace))
        invariant Size(state) <= Size(f)
        decreases Size(state)
      {
        match state {
          case Running(leaf, at) =>
            out := oracle(trace, leaf);
            trace := trace + [Polled(leaf, at, out)];
            return out, state;
          case StateA(kind, first, b) =>
            ghost var before := trace;
            out, fut := PollResponse(first);
            assert Step(out, fut, trace) == Poll(first, oracle, before);
            if out.Pending? || (kind == AndThen && out.res.Err?) {
              return out, StateA(kind, fut, b);
            }
            var second := Call(b, out.res, trace);
            trace, state := second.1, StateB(second.0);
          case StateB(second) =>
            out, fut := PollResponse(second);
            return out, StateB(fut);
        }
      }
    }
  }

  // ---------------------------------------------------------------- a chain as a list of leaves

  /** The leaf that runs, and the leaves still to call. */
  datatype Line = Line(leaf: nat, at: nat, rest: seq<nat>)

  datatype LineStep = LineStep(out: Outcome, line: Line, trace: Trace)

  function LineCall(ids: seq<nat>, req: Result, trace: Trace): (Line, Trace)
    requires ids != []
  {
    (Line(ids[0], |trace|, ids[1..]), trace + [Called(ids[0], req)])
  }

  function LinePoll(k: Kind, l: Line, oracle: Oracle, trace: Trace): LineStep
    decreases |l.rest|
  {
    var out := oracle(trace, l.leaf);
    var t := trace + [Polled(l.leaf, l.at, out)];
    if out.Pending? || l.rest == [] || (k == AndThen && out.res.Err?) then LineStep(out, l, t)
    else
      var c := LineCall(l.rest, out.res, t);
      LinePoll(k, c.0, oracle, c.1)
  }

  function Image(f: Response): Line {
    match f
    case Running(leaf, at) => Line(leaf, at, [])
    case StateA(_, fut, b) => More(Image(fut), Leaves(b))
    case StateB(fut) => Image(fut)
  }

  function More(l: Line, ids: seq<nat>): Line { l.(rest := l.rest + ids) }

  lemma {:induction false} CallIsLineCall(k: Kind, s: Service, req: Result, trace: Trace)
    requires UniformService(k, s)
    ensures Uniform(k, Call(s, req, trace).0)
    ensures (Image(Call(s, req, trace).0), Call(s, req, trace).1) == LineCall(Leaves(s), req, trace)
  {
    match s
    case Leaf(id) =>
      assert [id][1..] == [];
    case Chain(_, a, b) =>
      CallIsLineCall(k, a, req, trace);
      assert Leaves(a)[1..] + Leaves(b) == (Leaves(a) + Leaves(b))[1..];
  }

  /** Leaves added at the end of a line are called when the line before them is through. */
  lemma {:induction false} PollMore(k: Kind, l: Line, ids: seq<nat>, oracle: Oracle, trace: Trace)
    requires ids != []
    ensures var p := LinePoll(k, l, oracle, trace);
            LinePoll(k, More(l, ids), oracle, trace) ==
              if p.out.Pending? || (k == AndThen && p.out.res.Err?)
              then LineStep(p.out, More(p.line, ids), p.trace)
              else var c := LineCall(ids, p.out.res, p.trace); LinePoll(k, c.0, oracle, c.1)
    decreases |l.rest|
  {
    var out := oracle(trace, l.leaf);
    var t := trace + [Polled(l.leaf, l.at, out)];
    if !out.Pending? && !(k == AndThen && out.res.Err?) {
      if l.rest == [] {
        assert More(l, ids).rest == ids;
      } else {
        var c := LineCall(l.rest, out.res, t);
        PollMore(k, c.0, ids, oracle, c.1);
        assert More(l, ids).rest[1..] == l.rest[1..] + ids;
        assert LineCall(More(l, ids).rest, out.res, t) == (More(c.0, ids), c.1);
      }
    }
  }

  /** A chain of one kind, however it is bracketed, polls and calls its leaves as the list does. */
  lemma {:induction false} PollIsLinePoll(k: Kind, f: Response, oracle: Oracle, trace: Trace)
    requires Uniform(k, f)
    ensures var p := Poll(f, oracle, trace);
            Uniform(k, p.fut) && LineStep(p.out, Image(p.fut), p.trace) == LinePoll(k, Image(f), oracle, trace)
    decreases Size(f)
  {
    match f
    case Running(_, _) =>
    case StateA(kind, fut, b) =>
      PollIsLinePoll(k, fut, oracle, trace);
      PollMore(k, Image(fut), Leaves(b), oracle, trace);
      var p := Poll(fut, oracle, trace);
      if !p.out.Pending? && !(kind == AndThen && p.out.res.Err?) {
        CallIsLineCall(k, b, p.out.res, p.trace);
        PollIsLinePoll(k, StateB(Call(b, p.out.res, p.trace).0), oracle, Call(b, p.out.res, p.trace).1);
      }
    case StateB(fut) =>
      PollIsLinePoll(k, fut, oracle, trace);
  }

  // ---------------------------------------------------------------- what one poll does

  /** What a poll of any chain adds to the trace: polls of leaf futures, each followed by a call with the
      answer it gave, up to the last, whose answer is that of the chain. */
  ghost predicate PassesOn(before: Trace, after: Trace, oracle: Oracle, out: Outcome) {
    && before < after && after[|after| - 1].Polled? && after[|after| - 1].out == out
    && forall j :: |before| <= j < |after| ==> PassedOn(before, after, oracle, j)
  }

  ghost predicate PassedOn(before: Trace, after: Trace, oracle: Oracle, j: nat)
    requires |before| <= j < |after|
  {
    match after[j]
    case Polled(leaf, _, out) =>
      && out == oracle(after[..j], leaf)
      && (j + 1 < |after| ==> out.Ready? && after[j + 1].Called? && after[j + 1].req == out.res)
    case Called(_, req) => j > |before| && j + 1 < |after| && after[j - 1].Polled?
    case _ => false
  }

  lemma {:induction false} PollPassesOn(f: Response, oracle: Oracle, trace: Trace)
    ensures var p := Poll(f, oracle, trace); PassesOn(trace, p.trace, oracle, p.out)
    decreases Size(f)
  {
    match f
    case Running(leaf, at) =>
      var t := Poll(f, oracle, trace).trace;
      assert t[..|trace|] == trace;
      assert PassedOn(trace, t, oracle, |trace|);
    case StateA(kind, fut, b) =>
      PollPassesOn(fut, oracle, trace);
      var p := Poll(fut, oracle, trace);
      if !p.out.Pending? && !(kind == AndThen && p.out.res.Err?) {
        var c := Call(b, p.out.res, p.trace);
        CallIsFirst(b, p.out.res, p.trace);
        PollPassesOn(StateB(c.0), oracle, c.1);
        var q := Poll(StateB(c.0), oracle, c.1);
        PassesOnTwice(trace, p.trace, c.1, q.trace, oracle, p.out, q.out);
      }
    case StateB(fut) =>
      PollPassesOn(fut, oracle, trace);
  }

  /** A call of a chain is the call of its first leaf. */
  lemma {:induction false} CallIsFirst(s: Service, req: Result, trace: Trace)
    ensures Call(s, req, trace).1 == trace + [Called(Leaves(s)[0], req)]
  {
    if s.Chain? { CallIsFirst(s.a, req, trace); }
  }

  lemma PassesOnTwice(a: Trace, b: Trace, c: Trace, d: Trace, oracle: Oracle, first: Outcome, last: Outcome)
    requires PassesOn(a, b, oracle, first) && PassesOn(c, d, oracle, last) && first.Ready?
    requires |c| == |b| + 1 && c[..|b|] == b && c[|b|].Called? && c[|b|].req == first.res
    ensures PassesOn(a, d, oracle, last)
  {
    assert forall j :: 0 <= j < |c| ==> d[j] == c[j];
    assert forall j :: 0 <= j < |b| ==> d[j] == b[j];
    forall j | |a| <= j < |d| ensures PassedOn(a, d, oracle, j) {
      if j < |b| {
        assert PassedOn(a, b, oracle, j) && d[..j] == b[..j];
      } else if j > |b| {
        assert PassedOn(c, d, oracle, j);
      }
    }
  }

  /** The events of one poll of a line, from position `n` on, if it gets `m` leaves further: at `n + 2 * i`
      leaf `i` is polled, and right after that the next is called. */
  ghost predicate GetsOn(k: Kind, l: Line, n: nat, p: LineStep, m: nat) {
    && m <= |l.rest| && |p.trace| == n + 2 * m + 1
    && (forall i :: 0 <= i <= m ==> PolledAt(l, n, p.trace, i))
    && (forall i :: 0 <= i < m ==> GoesOnAt(k, l, n, p.trace, i))
    && p.trace[n + 2 * m].Polled? && p.trace[n + 2 * m].out == p.out && p.line == Reached(l, n, m)
    && (p.out.Pending? || m == |l.rest| || (k == AndThen && p.out.res.Err?))
  }

  /** The line when its leaf `i` runs. */
  function Reached(l: Line, n: nat, i: nat): Line
    requires i <= |l.rest|
  {
    if i == 0 then l else Line(l.rest[i - 1], n + 2 * i - 1, l.rest[i..])
  }

  ghost predicate PolledAt(l: Line, n: nat, t: Trace, i: nat)
    requires i <= |l.rest| && n + 2 * i < |t|
  {
    t[n + 2 * i].Polled? && t[n + 2 * i].leaf == Reached(l, n, i).leaf && t[n + 2 * i].at == Reached(l, n, i).at
  }

  ghost predicate GoesOnAt(k: Kind, l: Line, n: nat, t: Trace, i: nat)
    requires i < |l.rest| && n + 2 * i + 1 < |t|
  {
    && t[n + 2 * i].Polled? && t[n + 2 * i].out.Ready? && !(k == AndThen && t[n + 2 * i].out.res.Err?)
    && t[n + 2 * i + 1] == Called(l.rest[i], t[n + 2 * i].out.res)
  }

  lemma {:induction false} LineGetsOn(k: Kind, l: Line, oracle: Oracle, trace: Trace) returns (m: nat)
    ensures trace <= LinePoll(k, l, oracle, trace).trace
    ensures GetsOn(k, l, |trace|, LinePoll(k, l, oracle, trace), m)
    decreases |l.rest|
  {
    var n := |trace|;
    var out := oracle(trace, l.leaf);
    var t := trace + [Polled(l.leaf, l.at, out)];
    var p := LinePoll(k, l, oracle, trace);
    assert Reached(l, n, 0) == l;
    if out.Pending? || l.rest == [] || (k == AndThen && out.res.Err?) {
      m := 0;
      assert PolledAt(l, n, p.trace, 0);
    } else {
      var c := LineCall(l.rest, out.res, t);
      var r := LineGetsOn(k, c.0, oracle, c.1);
      m := r + 1;
      assert p.trace[n] == c.1[n] == t[n] && p.trace[n + 1] == c.1[n + 1];
      GetsOnMore(k, l, n, out, p, r);
    }
  }

  /** One leaf before the others. */
  lemma GetsOnMore(k: Kind, l: Line, n: nat, out: Outcome, p: LineStep, r: nat)
    requires l.rest != [] && out.Ready? && !(k == AndThen && out.res.Err?)
    requires GetsOn(k, Line(l.rest[0], n + 1, l.rest[1..]), n + 2, p, r)
    requires p.trace[n] == Polled(l.leaf, l.at, out) && p.trace[n + 1] == Called(l.rest[0], out.res)
    ensures GetsOn(k, l, n, p, r + 1)
  {
    var c, m := Line(l.rest[0], n + 1, l.rest[1..]), r + 1;
    assert n + 2 + 2 * r == n + 2 * m;
    forall i | 0 <= i <= m ensures n + 2 * i < |p.trace| && PolledAt(l, n, p.trace, i) {
      if i > 0 { PolledLater(l, c, n, p.trace, i); }
    }
    forall i | 0 <= i < m ensures n + 2 * i + 1 < |p.trace| && GoesOnAt(k, l, n, p.trace, i) {
      if i > 0 { GoesOnLater(k, l, c, n, p.trace, i); }
    }
    LaterLeaf(l, c, n, m);
  }

  lemma PolledLater(l: Line, c: Line, n: nat, t: Trace, i: nat)
    requires 0 < i <= |l.rest| && c == Line(l.rest[0], n + 1, l.rest[1..])
    requires n + 2 * i < |t| && PolledAt(c, n + 2, t, i - 1)
    ensures PolledAt(l, n, t, i)
  {
    LaterLeaf(l, c, n, i);
    assert n + 2 + 2 * (i - 1) == n + 2 * i;
  }

  lemma GoesOnLater(k: Kind, l: Line, c: Line, n: nat, t: Trace, i: nat)
    requires 0 < i < |l.rest| && c == Line(l.rest[0], n + 1, l.rest[1..])
    requires n + 2 * i + 1 < |t| && GoesOnAt(k, c, n + 2, t, i - 1)
    ensures GoesOnAt(k, l, n, t, i)
  {
    assert n + 2 + 2 * (i - 1) == n + 2 * i;
  }

  lemma LaterLeaf(l: Line, c: Line, n: nat, i: nat)
    requires 0 < i <= |l.rest| && c == Line(l.rest[0], n + 1, l.rest[1..])
    ensures Reached(l, n, i) == Reached(c, n + 2, i - 1)
  {
  }

  /** What one poll of a chain of one kind does, however it is bracketed: it polls the leaf that runs;
      as long as the answer lets it go on it calls the next leaf with that answer and polls it; it
      stops at a leaf that is pending, at the last, and an `and_then` chain at an error. */
  lemma PollGetsOn(k: Kind, f: Response, oracle: Oracle, trace: Trace)
    requires Uniform(k, f)
    ensures var p := Poll(f, oracle, trace);
            && trace <= p.trace
            && exists m :: GetsOn(k, Image(f), |trace|, LineStep(p.out, Image(p.fut), p.trace), m)
  {
    PollIsLinePoll(k, f, oracle, trace);
    var m := LineGetsOn(k, Image(f), oracle, trace);
  }

  // ---------------------------------------------------------------- runs

  datatype Seen = Seen(outs: seq<Outcome>, trace: Trace)

  /** Polls until the future is ready, or as often as there are gaps. Before each poll others do
      what its gap says. */
  function Run(f: Response, oracle: Oracle, trace: Trace, gaps: seq<Trace>): Seen
    decreases |gaps|
  {
    if gaps == [] then Seen([], trace)
    else
      var p := Poll(f, oracle, trace + gaps[0]);
      if p.out.Ready? then Seen([p.out], p.trace)
      else
        var later := Run(p.fut, oracle, p.trace, gaps[1..]);
        Seen([p.out] + later.outs, later.trace)
  }

  lemma {:induction false} SameImageSameRun(
      k: Kind, f: Response, g: Response, oracle: Oracle, trace: Trace, gaps: seq<Trace>)
    requires Uniform(k, f) && Uniform(k, g) && Image(f) == Image(g)
    ensures Run(f, oracle, trace, gaps) == Run(g, oracle, trace, gaps)
    decreases |gaps|
  {
    if gaps != [] {
      var t := trace + gaps[0];
      PollIsLinePoll(k, f, oracle, t);
      PollIsLinePoll(k, g, oracle, t);
      var p, q := Poll(f, oracle, t), Poll(g, oracle, t);
      if p.out.Pending? { SameImageSameRun(k, p.fut, q.fut, oracle, p.trace, gaps[1..]); }
    }
  }

  /** Any two bracketings of the same leaves cannot be told apart: the same calls and polls of the
      leaves in the same order at every poll, and the same answers. */
  lemma BracketsDoNotMatter(
      k: Kind, s: Service, t: Service, req: Result, oracle: Oracle, trace: Trace, gaps: seq<Trace>)
    requires UniformService(k, s) && UniformService(k, t) && Leaves(s) == Leaves(t)
    ensures var (f, g) := (Call(s, req, trace), Call(t, req, trace));
            f.1 == g.1 && Run(f.0, oracle, f.1, gaps) == Run(g.0, oracle, g.1, gaps)
  {
    CallIsLineCall(k, s, req, trace);
    CallIsLineCall(k, t, req, trace);
    SameImageSameRun(k, Call(s, req, trace).0, Call(t, req, trace).0, oracle, Call(s, req, trace).1, gaps);
  }

  // ---------------------------------------------------------------- associativity

  ghost predicate SameFor(s: Service, t: Service, req: Result, oracle: Oracle, trace: Trace, gaps: seq<Trace>) {
    var (f, g) := (Call(s, req, trace), Call(t, req, trace));
    f.1 == g.1 && Run(f.0, oracle, f.1, gaps) == Run(g.0, oracle, g.1, gaps)
  }

  /** The same calls and polls of leaves in the same order at every poll, and the same answers,
      whatever the request, whatever the leaves answer, and whatever others do. */
  ghost predicate Indistinguishable(s: Service, t: Service) {
    forall req, oracle, trace, gaps :: SameFor(s, t, req, oracle, trace, gaps)
  }

  /** The same point of `Chain(k2, Chain(k1, a, b), c)` and `Chain(k1, a, Chain(k2, b, c))`: in the
      future of `a`, of `b`, or of `c`. */
  predicate SamePoint(k1: Kind, k2: Kind, b: Service, c: Service, f: Response, g: Response) {
    || (f.StateA? && g.StateA? && f == StateA(k2, StateA(k1, g.fut, b), c) && g == StateA(k1, g.fut, Chain(k2, b, c)))
    || (f.StateA? && f.fut.StateB? && f == StateA(k2, f.fut, c) && g == StateB(StateA(k2, f.fut.fut, c)))
    || (f.StateB? && g == StateB(f))
  }

  lemma PollSamePoint(
      k1: Kind, k2: Kind, b: Service, c: Service, f: Response, g: Response, oracle: Oracle, trace: Trace)
    requires !(k1 == AndThen && k2 == Then) && SamePoint(k1, k2, b, c, f, g)
    ensures var (p, q) := (Poll(f, oracle, trace), Poll(g, oracle, trace));
            p.out == q.out && p.trace == q.trace && (p.out.Pending? ==> SamePoint(k1, k2, b, c, p.fut, q.fut))
    decreases Size(f)
  {
    if f.StateA? && g.StateA? {
      PollInFirst(k1, k2, b, c, g.fut, oracle, trace);
    } else if f.StateA? {
      PollInSecond(k2, c, f.fut.fut, oracle, trace);
    }
  }

  /** While `b` runs, both brackets hold its future and `c`. */
  lemma PollInSecond(k2: Kind, c: Service, fb: Response, oracle: Oracle, trace: Trace)
    ensures var (p, q) := (Poll(StateA(k2, StateB(fb), c), oracle, trace),
                           Poll(StateB(StateA(k2, fb, c)), oracle, trace));
            && p.out == q.out && p.trace == q.trace
            && (p.out.Pending? ==>
                  || (p.fut.StateA? && p.fut.fut.StateB? && p.fut == StateA(k2, p.fut.fut, c)
                      && q.fut == StateB(StateA(k2, p.fut.fut.fut, c)))
                  || (p.fut.StateB? && q.fut == StateB(p.fut)))
  {
    var pb := Poll(fb, oracle, trace);
    assert Poll(StateB(fb), oracle, trace) == Step(pb.out, StateB(pb.fut), pb.trace);
    if !pb.out.Pending? && !(k2 == AndThen && pb.out.res.Err?) {
      var r := Call(c, pb.out.res, pb.trace);
      assert Poll(StateA(k2, fb, c), oracle, trace) == Poll(StateB(r.0), oracle, r.1);
    }
  }

  lemma PollInFirst(k1: Kind, k2: Kind, b: Service, c: Service, fa: Response, oracle: Oracle, trace: Trace)
    requires !(k1 == AndThen && k2 == Then)
    ensures var (f, g) := (StateA(k2, StateA(k1, fa, b), c), StateA(k1, fa, Chain(k2, b, c)));
            var (p, q) := (Poll(f, oracle, trace), Poll(g, oracle, trace));
            p.out == q.out && p.trace == q.trace && (p.out.Pending? ==> SamePoint(k1, k2, b, c, p.fut, q.fut))
  {
    var f, g := StateA(k2, StateA(k1, fa, b), c), StateA(k1, fa, Chain(k2, b, c));
    var pa := Poll(fa, oracle, trace);
    if !pa.out.Pending? && !(k1 == AndThen && pa.out.res.Err?) {
      var r := Call(b, pa.out.res, pa.trace);
      assert Poll(StateA(k1, fa, b), oracle, trace) == Poll(StateB(r.0), oracle, r.1);
      assert Poll(f, oracle, trace) == Poll(StateA(k2, StateB(r.0), c), oracle, r.1);
      assert Poll(g, oracle, trace) == Poll(StateB(StateA(k2, r.0, c)), oracle, r.1);
      PollInSecond(k2, c, r.0, oracle, r.1);
    } else {
      assert Poll(StateA(k1, fa, b), oracle, trace) == Step(pa.out, StateA(k1, pa.fut, b), pa.trace);
    }
  }

  lemma {:induction false} RunSamePoint(
      k1: Kind, k2: Kind, b: Service, c: Service, f: Response, g: Response,
      oracle: Oracle, trace: Trace, gaps: seq<Trace>)
    requires !(k1 == AndThen && k2 == Then) && SamePoint(k1, k2, b, c, f, g)
    ensures Run(f, oracle, trace, gaps) == Run(g, oracle, trace, gaps)
    decreases |gaps|
  {
    if gaps != [] {
      PollSamePoint(k1, k2, b, c, f, g, oracle, trace + gaps[0]);
      var p, q := Poll(f, oracle, trace + gaps[0]), Poll(g, oracle, trace + gaps[0]);
      if p.out.Pending? { RunSamePoint(k1, k2, b, c, p.fut, q.fut, oracle, p.trace, gaps[1..]); }
    }
  }

  /** Every leaf fails at once. */
  function AllFail(e: nat): Oracle { (trace, leaf) => Ready(Err(e)) }

  /** Then every chain fails at its first poll, and what happened before stays. */
  lemma {:induction false} FailsAtOnce(f: Response, e: nat, trace: Trace)
    ensures var p := Poll(f, AllFail(e), trace); p.out == Ready(Err(e)) && trace < p.trace
    decreases Size(f)
  {
    match f
    case Running(_, _) =>
    case StateA(kind, fut, b) =>
      FailsAtOnce(fut, e, trace);
      var p := Poll(fut, AllFail(e), trace);
      if kind == Then {
        var r := Call(b, p.out.res, p.trace);
        CallAppends(b, p.out.res, p.trace);
        FailsAtOnce(StateB(r.0), e, r.1);
        assert p.trace < r.1;
      }
    case StateB(fut) => FailsAtOnce(fut, e, trace);
  }

  lemma {:induction false} CallAppends(s: Service, req: Result, trace: Trace)
    ensures var r := Call(s, req, trace);
            r.1 == trace + [Called(Leaves(s)[0], req)] && Image(r.0).at == |trace|
  {
    if s.Chain? { CallAppends(s.a, req, trace); }
  }

  lemma CallBrackets(k1: Kind, k2: Kind, a: Service, b: Service, c: Service, req: Result, trace: Trace)
    ensures var r := Call(a, req, trace);
            && Call(Chain(k2, Chain(k1, a, b), c), req, trace) == (StateA(k2, StateA(k1, r.0, b), c), r.1)
            && Call(Chain(k1, a, Chain(k2, b, c)), req, trace) == (StateA(k1, r.0, Chain(k2, b, c)), r.1)
  {
    assert Call(Chain(k1, a, b), req, trace) == (StateA(k1, Call(a, req, trace).0, b), Call(a, req, trace).1);
  }

  /** `c` runs after an error of `a.and_then(b)`, and does not when it is inside. */
  lemma OnlyOneGoesOn(a: Service, b: Service, c: Service, e: nat)
    ensures !SameFor(Chain(Then, Chain(AndThen, a, b), c), Chain(AndThen, a, Chain(Then, b, c)),
                     Ok(0), AllFail(e), [], [[]])
  {
    var f := Call(Chain(Then, Chain(AndThen, a, b), c), Ok(0), []);
    var g := Call(Chain(AndThen, a, Chain(Then, b, c)), Ok(0), []);
    CallBrackets(AndThen, Then, a, b, c, Ok(0), []);
    var t := f.1 + [];
    assert t == f.1 == g.1;
    var fa := g.0.fut;
    assert f.0 == StateA(Then, StateA(AndThen, fa, b), c);
    FailsAtOnce(fa, e, t);
    var p := Poll(fa, AllFail(e), t);
    assert Poll(g.0, AllFail(e), t).trace == p.trace;
    assert Poll(StateA(AndThen, fa, b), AllFail(e), t) == Step(p.out, StateA(AndThen, p.fut, b), p.trace);
    var r := Call(c, Err(e), p.trace);
    CallAppends(c, Err(e), p.trace);
    FailsAtOnce(StateB(r.0), e, r.1);
    FailsAtOnce(g.0, e, t);
    FailsAtOnce(f.0, e, t);
    assert Poll(f.0, AllFail(e), t) == Poll(StateB(r.0), AllFail(e), r.1);
    assert |Poll(f.0, AllFail(e), t).trace| > |p.trace|;
  }

  /** The exact law: `(a.k1(b)).k2(c)` and `a.k1(b.k2(c))` cannot be told apart, for any services a,
      b and c and whatever chains they are themselves, unless k1 is `and_then` and k2 is `then`. */
  lemma ChainsAreAssociativeIff(k1: Kind, k2: Kind, a: Service, b: Service, c: Service)
    ensures Indistinguishable(Chain(k2, Chain(k1, a, b), c), Chain(k1, a, Chain(k2, b, c)))
            <==> !(k1 == AndThen && k2 == Then)
  {
    var s, t := Chain(k2, Chain(k1, a, b), c), Chain(k1, a, Chain(k2, b, c));
    if k1 == AndThen && k2 == Then {
      OnlyOneGoesOn(a, b, c, 0);
    } else {
      forall req, oracle, trace, gaps ensures SameFor(s, t, req, oracle, trace, gaps) {
        var (f, g) := (Call(s, req, trace), Call(t, req, trace));
        CallBrackets(k1, k2, a, b, c, req, trace);
        RunSamePoint(k1, k2, b, c, f.0, g.0, oracle, f.1, gaps);
      }
    }
  }

  // ---------------------------------------------------------------- no poll after completion

  /** No leaf future is polled once it has answered, and none before it exists. */
  predicate Sane(trace: Trace) {
    && (forall j :: 0 <= j < |trace| && trace[j].Polled? ==> trace[j].at < j)
    && forall i, j :: 0 <= i < j < |trace| && trace[i].Polled? && trace[j].Polled? && trace[i].at == trace[j].at ==>
         trace[i].out.Pending?
  }

  predicate Unanswered(at: nat, trace: Trace) {
    at < |trace| && forall i :: 0 <= i < |trace| && trace[i].Polled? && trace[i].at == at ==> trace[i].out.Pending?
  }

  /** A poll of any chain polls only futures that have not answered, and a chain that is pending is
      in such a future. */
  lemma {:induction false} PollIsSane(f: Response, oracle: Oracle, trace: Trace)
    requires Sane(trace) && Unanswered(Image(f).at, trace)
    ensures var p := Poll(f, oracle, trace);
            Sane(p.trace) && (p.out.Pending? ==> Unanswered(Image(p.fut).at, p.trace))
    decreases Size(f)
  {
    match f
    case Running(leaf, at) =>
      assert Sane(trace + [Polled(leaf, at, oracle(trace, leaf))]);
    case StateB(fut) => PollIsSane(fut, oracle, trace);
    case StateA(kind, fut, b) =>
      PollIsSane(fut, oracle, trace);
      var p := Poll(fut, oracle, trace);
      if !p.out.Pending? && !(kind == AndThen && p.out.res.Err?) {
        var c := Call(b, p.out.res, p.trace);
        CallAppends(b, p.out.res, p.trace);
        CallIsSane(b, p.out.res, p.trace);
        PollIsSane(StateB(c.0), oracle, c.1);
      }
  }

  lemma CallIsSane(s: Service, req: Result, trace: Trace)
    requires Sane(trace)
    ensures var r := Call(s, req, trace); Sane(r.1) && Unanswered(Image(r.0).at, r.1)
  {
    CallAppends(s, req, trace);
  }

  /** What others do between two polls is sane, and leaves the future of this line alone. */
  predicate OthersKeepOff(at: nat, trace: Trace, gap: Trace) {
    Sane(trace + gap) && forall i :: 0 <= i < |gap| && gap[i].Polled? ==> gap[i].at != at
  }

  predicate OthersBehave(f: Response, oracle: Oracle, trace: Trace, gaps: seq<Trace>)
    decreases |gaps|
  {
    gaps == [] ||
    (&& OthersKeepOff(Image(f).at, trace, gaps[0])
     && var p := Poll(f, oracle, trace + gaps[0]);
        p.out.Pending? ==> OthersBehave(p.fut, oracle, p.trace, gaps[1..]))
  }

  lemma {:induction false} RunIsSane(f: Response, oracle: Oracle, trace: Trace, gaps: seq<Trace>)
    requires Sane(trace) && Unanswered(Image(f).at, trace)
    requires OthersBehave(f, oracle, trace, gaps)
    ensures Sane(Run(f, oracle, trace, gaps).trace)
    decreases |gaps|
  {
    if gaps != [] {
      var t := trace + gaps[0];
      assert Unanswered(Image(f).at, t);
      PollIsSane(f, oracle, t);
      var p := Poll(f, oracle, t);
      if p.out.Pending? { RunIsSane(p.fut, oracle, p.trace, gaps[1..]); }
    }
  }

  /** From the call of any chain to its answer, no leaf future is polled after it was ready. */
  lemma NothingIsPolledAgain(s: Service, req: Result, oracle: Oracle, trace: Trace, gaps: seq<Trace>)
    requires Sane(trace)
    requires var f := Call(s, req, trace); OthersBehave(f.0, oracle, f.1, gaps)
    ensures var f := Call(s, req, trace); Sane(Run(f.0, oracle, f.1, gaps).trace)
  {
    var f := Call(s, req, trace);
    CallIsSane(s, req, trace);
    RunIsSane(f.0, oracle, f.1, gaps);
  }

  // ---------------------------------------------------------------- readiness

  datatype Readiness = NotReady | IsReady | ReadyFailed(error: nat)

  function ReadinessOf(out: Outcome): Readiness {
    match out
    case Pending => NotReady
    case Ready(Ok(_)) => IsReady
    case Ready(Err(e)) => ReadyFailed(e)
  }

  /** `poll_ready`, the same for both kinds: an error ends it at once, but the second part is polled
      also when the first is not ready. */
  function PollReady(s: Service, oracle: Oracle, trace: Trace): (Readiness, Trace) {
    match s
    case Leaf(id) =>
      var out := oracle(trace, id);
      (ReadinessOf(out), trace + [ReadyPolled(id, out)])
    case Chain(_, a, b) =>
      var pa := PollReady(a, oracle, trace);
      if pa.0.ReadyFailed? then pa
      else
        var pb := PollReady(b, oracle, pa.1);
        if pb.0.ReadyFailed? then pb
        else if pb.0.NotReady? || pa.0.NotReady? then (NotReady, pb.1)
        else (IsReady, pb.1)
  }

  /** The leaves polled one after the other, up to the first that fails. */
  function PollEach(ids: seq<nat>, oracle: Oracle, trace: Trace): Trace {
    if ids == [] then trace
    else
      var out := oracle(trace, ids[0]);
      var t := trace + [ReadyPolled(ids[0], out)];
      if ReadinessOf(out).ReadyFailed? then t else PollEach(ids[1..], oracle, t)
  }

  predicate AnyAnswer(trace: Trace, from: nat, r: Readiness) {
    exists i :: from <= i < |trace| && trace[i].ReadyPolled? && ReadinessOf(trace[i].out) == r
  }

  predicate AnyFailure(trace: Trace, from: nat) {
    exists i :: from <= i < |trace| && trace[i].ReadyPolled? && ReadinessOf(trace[i].out).ReadyFailed?
  }

  lemma {:induction false} PollEachAppend(a: seq<nat>, b: seq<nat>, oracle: Oracle, trace: Trace)
    ensures var t := PollEach(a, oracle, trace);
            && trace <= t
            && PollEach(a + b, oracle, trace) == if AnyFailure(t, |trace|) then t else PollEach(b, oracle, t)
    decreases |a|
  {
    if a == [] {
      assert a + b == b;
    } else {
      var out := oracle(trace, a[0]);
      var t := trace + [ReadyPolled(a[0], out)];
      assert (a + b)[1..] == a[1..] + b;
      if ReadinessOf(out).ReadyFailed? {
        assert t[|trace|].ReadyPolled?;
      } else {
        PollEachAppend(a[1..], b, oracle, t);
        var u := PollEach(a[1..], oracle, t);
        assert u[|trace|] == t[|trace|];
        assert AnyFailure(u, |t|) <==> AnyFailure(u, |trace|);
      }
    }
  }

  /** Readiness of a chain of either kind, or of both mixed: the leaves are asked in order up to the
      first that fails, which decides; otherwise all are asked, and the chain is ready exactly when
      all of them are. */
  lemma {:induction false} ReadinessIsThatOfTheLeaves(s: Service, oracle: Oracle, trace: Trace)
    ensures var (r, t) := PollReady(s, oracle, trace);
            && trace <= t && t == PollEach(Leaves(s), oracle, trace)
            && (r.ReadyFailed? <==> AnyFailure(t, |trace|))
            && (r.ReadyFailed? ==> AnyAnswer(t, |trace|, r))
            && (r.NotReady? <==> !AnyFailure(t, |trace|) && AnyAnswer(t, |trace|, NotReady))
  {
    match s
    case Leaf(id) =>
      var out := oracle(trace, id);
      var t := trace + [ReadyPolled(id, out)];
      assert t[|trace|] == ReadyPolled(id, out);
      assert PollEach([id], oracle, trace) == t;
    case Chain(_, a, b) =>
      ReadinessIsThatOfTheLeaves(a, oracle, trace);
      PollEachAppend(Leaves(a), Leaves(b), oracle, trace);
      var (ra, ta) := PollReady(a, oracle, trace);
      if !ra.ReadyFailed? {
        ReadinessIsThatOfTheLeaves(b, oracle, ta);
        ReadinessJoins(trace, ta, PollReady(b, oracle, ta).1);
      }
  }

  lemma ReadinessJoins(trace: Trace, ta: Trace, tb: Trace)
    requires trace <= ta <= tb && !AnyFailure(ta, |trace|)
    ensures AnyFailure(tb, |trace|) <==> AnyFailure(tb, |ta|)
    ensures forall r :: AnyAnswer(tb, |ta|, r) ==> AnyAnswer(tb, |trace|, r)
    ensures AnyAnswer(tb, |trace|, NotReady) <==> AnyAnswer(ta, |trace|, NotReady) || AnyAnswer(tb, |ta|, NotReady)
  {
    assert forall i :: 0 <= i < |ta| ==> tb[i] == ta[i];
  }

  // ---------------------------------------------------------------- factories

  datatype Factory = LeafFactory(id: nat) | ChainFactory(kind: Kind, a: Factory, b: Factory)

  /** The factory future: both parts, each with a slot for the service it made. */
  datatype Building =
    | Waiting(leaf: nat, at: nat)
    | Pair(kind: Kind, futA: Building, futB: Building, a: Option<Service>, b: Option<Service>)

  datatype Built = NotYet | Done(service: Service) | InitFailed(error: nat)

  datatype BuildStep = BuildStep(out: Built, fut: Building, trace: Trace)

  /** `new_service`. */
  function NewService(f: Factory, trace: Trace): (Building, Trace) {
    match f
    case LeafFactory(id) => (Waiting(id, |trace|), trace + [Created(id)])
    case ChainFactory(kind, a, b) =>
      var ra := NewService(a, trace);
      var rb := NewService(b, ra.1);
      (Pair(kind, ra.0, rb.0, None, None), rb.1)
  }

  function Fill(slot: Option<Service>, out: Built): Option<Service> {
    if out.Done? then Some(out.service) else slot
  }

  /** One poll of a factory future, the same for both kinds. A leaf answers with the number of the
      service it made. */
  function Build(f: Building, oracle: Oracle, trace: Trace): BuildStep {
    match f
    case Waiting(leaf, at) =>
      var out := oracle(trace, leaf);
      var t := trace + [Polled(leaf, at, out)];
      (match out
       case Pending => BuildStep(NotYet, f, t)
       case Ready(Ok(v)) => BuildStep(Done(Leaf(v)), f, t)
       case Ready(Err(e)) => BuildStep(InitFailed(e), f, t))
    case Pair(kind, futA, futB, a, b) =>
      var pa := if a.None? then Build(futA, oracle, trace) else BuildStep(NotYet, futA, trace);
      var g := f.(futA := pa.fut, a := Fill(a, pa.out));
      if pa.out.InitFailed? then BuildStep(pa.out, g, pa.trace)
      else
        var pb := if b.None? then Build(futB, oracle, pa.trace) else BuildStep(NotYet, futB, pa.trace);
        var h := g.(futB := pb.fut, b := Fill(b, pb.out));
        if pb.out.InitFailed? then BuildStep(pb.out, h, pb.trace)
        else if h.a.Some? && h.b.Some? then
          BuildStep(Done(Chain(kind, h.a.value, h.b.value)), h.(a := None, b := None), pb.trace)
        else BuildStep(NotYet, h, pb.trace)
  }

  /** A slot for each leaf: its future, or the service it made. */
  datatype Slot = Todo(leaf: nat, at: nat) | Made(id: nat)

  datatype SlotStep = SlotStep(error: Option<nat>, slots: seq<Slot>, trace: Trace)

  /** Polls the open slots in order, up to the first that fails. */
  function FillEach(slots: seq<Slot>, oracle: Oracle, trace: Trace): (r: SlotStep)
    ensures |r.slots| == |slots|
  {
    if slots == [] then SlotStep(None, [], trace)
    else if slots[0].Made? then
      var r := FillEach(slots[1..], oracle, trace);
      r.(slots := [slots[0]] + r.slots)
    else
      var out := oracle(trace, slots[0].leaf);
      var t := trace + [Polled(slots[0].leaf, slots[0].at, out)];
      match out
      case Ready(Err(e)) => SlotStep(Some(e), slots, t)
      case Ready(Ok(v)) =>
        var r := FillEach(slots[1..], oracle, t);
        r.(slots := [Made(v)] + r.slots)
      case Pending =>
        var r := FillEach(slots[1..], oracle, t);
        r.(slots := [slots[0]] + r.slots)
  }

  /** The slots that are still open. */
  function Open(slots: seq<Slot>): seq<Slot> {
    if slots == [] then []
    else if slots[0].Todo? then [slots[0]] + Open(slots[1..])
    else Open(slots[1..])
  }

  predicate PollOf(e: Event, slot: Slot) { e.Polled? && slot.Todo? && e.leaf == slot.leaf && e.at == slot.at }

  /** The error a poll gave, if it gave one. */
  predicate FailsWith(e: Event, error: Option<nat>) {
    e.Polled? && error == if e.out.Ready? && e.out.res.Err? then Some(e.out.res.error) else None
  }

  /** From one trace to the next the slots were polled in order, all of them unless one failed, and that
      was the last. */
  ghost predicate PolledInOrder(slots: seq<Slot>, before: Trace, after: Trace, error: Option<nat>) {
    && before <= after && |after| - |before| <= |slots|
    && (forall j :: |before| <= j < |after| ==> PollOf(after[j], slots[j - |before|]))
    && (error.None? ==> |after| - |before| == |slots|)
    && (error.Some? ==> |after| > |before|)
    && (forall j :: |before| <= j < |after| ==>
          FailsWith(after[j], if j == |after| - 1 then error else None))
  }

  lemma OnePolledFirst(slot: Slot, slots: seq<Slot>, before: Trace, e: Event, after: Trace, error: Option<nat>)
    requires PollOf(e, slot) && FailsWith(e, None) && PolledInOrder(slots, before + [e], after, error)
    ensures PolledInOrder([slot] + slots, before, after, error)
  {
    var t := before + [e];
    assert t[|before|] == e;
    forall j | |before| <= j < |after|
      ensures PollOf(after[j], ([slot] + slots)[j - |before|])
      ensures FailsWith(after[j], if j == |after| - 1 then error else None)
    {
      if j == |before| { assert after[j] == t[j]; }
    }
  }

  lemma OnlyPolled(slot: Slot, slots: seq<Slot>, before: Trace, e: Event)
    requires PollOf(e, slot) && e.out.Ready? && e.out.res.Err?
    ensures PolledInOrder([slot] + slots, before, before + [e], Some(e.out.res.error))
  {
    var t := before + [e];
    assert t[|before|] == e && t[..|before|] == before;
  }

  lemma {:induction false} FillEachPolls(slots: seq<Slot>, oracle: Oracle, trace: Trace)
    ensures var r := FillEach(slots, oracle, trace); PolledInOrder(Open(slots), trace, r.trace, r.error)
    decreases |slots|
  {
    if slots != [] {
      if slots[0].Made? {
        FillEachPolls(slots[1..], oracle, trace);
      } else {
        var e := Polled(slots[0].leaf, slots[0].at, oracle(trace, slots[0].leaf));
        if !(e.out.Ready? && e.out.res.Err?) {
          FillEachPolls(slots[1..], oracle, trace + [e]);
          var r := FillEach(slots[1..], oracle, trace + [e]);
          OnePolledFirst(slots[0], Open(slots[1..]), trace, e, r.trace, r.error);
          assert FillEach(slots, oracle, trace).error == r.error;
        } else {
          OnlyPolled(slots[0], Open(slots[1..]), trace, e);
        }
      }
    }
  }

  /** Without a failure, an open slot takes the service that its future gave, or stays open; that poll
      sees all that was done before it. */
  ghost predicate Filled(slot: Slot, now: Slot, k: nat, t: Trace, oracle: Oracle) {
    if slot.Made? then now == slot
    else
      && k < |t| && PollOf(t[k], slot) && t[k].out == oracle(t[..k], slot.leaf)
      && (t[k].out.Pending? ==> now == slot)
      && (t[k].out.Ready? ==> t[k].out.res.Ok? && now == Made(t[k].out.res.value))
  }

  lemma {:induction false} FillEachFills(slots: seq<Slot>, oracle: Oracle, trace: Trace, i: nat)
    requires i < |slots| && FillEach(slots, oracle, trace).error.None?
    ensures var r := FillEach(slots, oracle, trace);
            Filled(slots[i], r.slots[i], |trace| + |Open(slots[..i])|, r.trace, oracle)
    decreases |slots|
  {
    if i == 0 {
      FirstIsFilled(slots, oracle, trace);
    } else {
      var t := if slots[0].Made? then trace
               else trace + [Polled(slots[0].leaf, slots[0].at, oracle(trace, slots[0].leaf))];
      FillEachFills(slots[1..], oracle, t, i - 1);
      assert slots[..i][0] == slots[0] && slots[..i][1..] == slots[1..][..i - 1];
    }
  }

  lemma FirstIsFilled(slots: seq<Slot>, oracle: Oracle, trace: Trace)
    requires slots != [] && FillEach(slots, oracle, trace).error.None?
    ensures var r := FillEach(slots, oracle, trace); Filled(slots[0], r.slots[0], |trace|, r.trace, oracle)
  {
    if slots[0].Todo? {
      var t := trace + [Polled(slots[0].leaf, slots[0].at, oracle(trace, slots[0].leaf))];
      FillEachPolls(slots[1..], oracle, t);
      var r := FillEach(slots[1..], oracle, t);
      assert r.trace[|trace|] == t[|trace|] && r.trace[..|trace|] == trace;
    }
  }

  predicate AllMade(slots: seq<Slot>) {
    forall i :: 0 <= i < |slots| ==> slots[i].Made?
  }

  function Mades(ids: seq<nat>): (slots: seq<Slot>)
    ensures |slots| == |ids|
    ensures forall i :: 0 <= i < |ids| ==> slots[i] == Made(ids[i])
  {
    seq(|ids|, i requires 0 <= i < |ids| => Made(ids[i]))
  }

  function Slots(f: Building): seq<Slot> {
    match f
    case Waiting(leaf, at) => [Todo(leaf, at)]
    case Pair(_, futA, futB, a, b) =>
      (if a.Some? then Mades(Leaves(a.value)) else Slots(futA)) +
      (if b.Some? then Mades(Leaves(b.value)) else Slots(futB))
  }

  /** A future that is still awaited has a part that is not there yet. */
  predicate Awaited(f: Building) {
    f.Pair? ==>
      && (f.a.None? || f.b.None?)
      && (f.a.None? ==> Awaited(f.futA))
      && (f.b.None? ==> Awaited(f.futB))
  }

  lemma MadesAppend(a: seq<nat>, b: seq<nat>)
    ensures Mades(a + b) == Mades(a) + Mades(b)
  {
  }

  lemma {:induction false} FillMade(ids: seq<nat>, oracle: Oracle, trace: Trace)
    ensures FillEach(Mades(ids), oracle, trace) == SlotStep(None, Mades(ids), trace)
  {
    if ids != [] {
      assert Mades(ids)[1..] == Mades(ids[1..]);
      FillMade(ids[1..], oracle, trace);
    }
  }

  lemma {:induction false} FillAppend(a: seq<Slot>, b: seq<Slot>, oracle: Oracle, trace: Trace)
    ensures var ra := FillEach(a, oracle, trace);
            FillEach(a + b, oracle, trace) ==
              if ra.error.Some? then SlotStep(ra.error, ra.slots + b, ra.trace)
              else var rb := FillEach(b, oracle, ra.trace); SlotStep(rb.error, ra.slots + rb.slots, rb.trace)
    decreases |a|
  {
    if a == [] {
      assert a + b == b;
    } else {
      assert (a + b)[1..] == a[1..] + b;
      if a[0].Made? {
        FillAppend(a[1..], b, oracle, trace);
      } else {
        var out := oracle(trace, a[0].leaf);
        FillAppend(a[1..], b, oracle, trace + [Polled(a[0].leaf, a[0].at, out)]);
      }
    }
  }

  /** What a poll of a factory future has to do with the slots of its leaves. */
  predicate BuildsAs(p: BuildStep, r: SlotStep) {
    && p.trace == r.trace
    && (p.out.InitFailed? <==> r.error.Some?)
    && (p.out.InitFailed? ==> r.error == Some(p.out.error))
    && (p.out.Done? ==> r.slots == Mades(Leaves(p.out.service)))
    && (p.out.NotYet? ==> Awaited(p.fut) && Slots(p.fut) == r.slots)
  }

  /** A factory future of either kind polls exactly the leaf futures that have not made their service
      yet, in order, up to the first that fails. */
  lemma {:induction false} BuildIsFillEach(f: Building, oracle: Oracle, trace: Trace)
    requires Awaited(f)
    ensures BuildsAs(Build(f, oracle, trace), FillEach(Slots(f), oracle, trace))
  {
    match f
    case Waiting(leaf, at) =>
      BuildLeaf(leaf, at, oracle, trace);
    case Pair(kind, futA, futB, a, b) =>
      var sa := if a.Some? then Mades(Leaves(a.value)) else Slots(futA);
      var sb := if b.Some? then Mades(Leaves(b.value)) else Slots(futB);
      FillAppend(sa, sb, oracle, trace);
      if a.Some? { FillMade(Leaves(a.value), oracle, trace); } else { BuildIsFillEach(futA, oracle, trace); }
      var ra := FillEach(sa, oracle, trace);
      if ra.error.None? {
        if b.Some? { FillMade(Leaves(b.value), oracle, ra.trace); } else { BuildIsFillEach(futB, oracle, ra.trace); }
      }
      var p := Build(f, oracle, trace);
      if p.out.Done? { MadesAppend(Leaves(p.out.service.a), Leaves(p.out.service.b)); }
  }

  lemma BuildLeaf(leaf: nat, at: nat, oracle: Oracle, trace: Trace)
    ensures BuildsAs(Build(Waiting(leaf, at), oracle, trace), FillEach([Todo(leaf, at)], oracle, trace))
  {
    var slots := [Todo(leaf, at)];
    assert slots[1..] == [];
    var out := oracle(trace, leaf);
    if out.Ready? && out.res.Ok? {
      assert [out.res.value][1..] == [];
      assert Mades([out.res.value]) == [Made(out.res.value)];
    }
  }

  datatype SeenBuild = SeenBuild(outs: seq<Built>, trace: Trace)

  function RunBuild(f: Building, oracle: Oracle, trace: Trace, gaps: seq<Trace>): SeenBuild
    decreases |gaps|
  {
    if gaps == [] then SeenBuild([], trace)
    else
      var p := Build(f, oracle, trace + gaps[0]);
      if !p.out.NotYet? then SeenBuild([p.out], p.trace)
      else
        var later := RunBuild(p.fut, oracle, p.trace, gaps[1..]);
        SeenBuild([p.out] + later.outs, later.trace)
  }

  /** The same answers, but that the services may be bracketed differently. */
  predicate Alike(x: Built, y: Built) {
    x == y || (x.Done? && y.Done? && Leaves(x.service) == Leaves(y.service))
  }

  predicate AllAlike(xs: seq<Built>, ys: seq<Built>) {
    |xs| == |ys| && forall i :: 0 <= i < |xs| ==> Alike(xs[i], ys[i])
  }

  lemma MadesInjective(a: seq<nat>, b: seq<nat>)
    requires Mades(a) == Mades(b)
    ensures a == b
  {
    assert |a| == |Mades(a)| == |b|;
    forall i | 0 <= i < |a| ensures a[i] == b[i] { assert Mades(a)[i] == Made(a[i]); }
  }

  lemma {:induction false} NotAllMade(f: Building)
    requires Awaited(f)
    ensures !AllMade(Slots(f))
  {
    match f
    case Waiting(leaf, at) =>
      assert Slots(f)[0] == Todo(leaf, at);
    case Pair(_, futA, futB, a, b) =>
      var sa := if a.Some? then Mades(Leaves(a.value)) else Slots(futA);
      var sb := if b.Some? then Mades(Leaves(b.value)) else Slots(futB);
      if a.None? {
        NotAllMade(futA);
        var i :| 0 <= i < |sa| && !sa[i].Made?;
        assert Slots(f)[i] == sa[i];
      } else {
        NotAllMade(futB);
        var i :| 0 <= i < |sb| && !sb[i].Made?;
        assert Slots(f)[|sa| + i] == sb[i];
      }
  }

  lemma SameSlotsSameBuild(f: Building, g: Building, oracle: Oracle, trace: Trace)
    requires Awaited(f) && Awaited(g) && Slots(f) == Slots(g)
    ensures var (p, q) := (Build(f, oracle, trace), Build(g, oracle, trace));
            && p.trace == q.trace && Alike(p.out, q.out)
            && (p.out.NotYet? ==> Awaited(p.fut) && Awaited(q.fut) && Slots(p.fut) == Slots(q.fut))
  {
    BuildIsFillEach(f, oracle, trace);
    BuildIsFillEach(g, oracle, trace);
    var p, q := Build(f, oracle, trace), Build(g, oracle, trace);
    if p.out.NotYet? { NotAllMade(p.fut); }
    if q.out.NotYet? { NotAllMade(q.fut); }
    if p.out.Done? && q.out.Done? { MadesInjective(Leaves(p.out.service), Leaves(q.out.service)); }
  }

  lemma {:induction false} SameSlotsSameRun(f: Building, g: Building, oracle: Oracle, trace: Trace, gaps: seq<Trace>)
    requires Awaited(f) && Awaited(g) && Slots(f) == Slots(g)
    ensures var (x, y) := (RunBuild(f, oracle, trace, gaps), RunBuild(g, oracle, trace, gaps));
            x.trace == y.trace && AllAlike(x.outs, y.outs)
    decreases |gaps|
  {
    if gaps != [] {
      SameSlotsSameBuild(f, g, oracle, trace + gaps[0]);
      var p, q := Build(f, oracle, trace + gaps[0]), Build(g, oracle, trace + gaps[0]);
      if p.out.NotYet? { SameSlotsSameRun(p.fut, q.fut, oracle, p.trace, gaps[1..]); }
    }
  }

  function FactoryLeaves(f: Factory): seq<nat> {
    match f
    case LeafFactory(id) => [id]
    case ChainFactory(_, a, b) => FactoryLeaves(a) + FactoryLeaves(b)
  }

  /** `new_service` on the leaves in order. */
  function CreateEach(ids: seq<nat>, trace: Trace): (seq<Slot>, Trace) {
    if ids == [] then ([], trace)
    else
      var r := CreateEach(ids[1..], trace + [Created(ids[0])]);
      ([Todo(ids[0], |trace|)] + r.0, r.1)
  }

  /** Each leaf is made once, in order, and its future is known by that position. */
  lemma {:induction false} CreateEachIs(ids: seq<nat>, trace: Trace)
    ensures var (slots, t) := CreateEach(ids, trace);
            && trace <= t && |t| == |trace| + |ids| && |slots| == |ids|
            && forall i :: 0 <= i < |ids| ==> t[|trace| + i] == Created(ids[i]) && slots[i] == Todo(ids[i], |trace| + i)
    decreases |ids|
  {
    if ids != [] {
      var next := trace + [Created(ids[0])];
      CreateEachIs(ids[1..], next);
      var (slots, t) := CreateEach(ids[1..], next);
      assert t[|trace|] == next[|trace|];
      forall i | 0 < i < |ids| ensures t[|trace| + i] == Created(ids[i]) && slots[i - 1] == Todo(ids[i], |trace| + i) {
        assert t[|next| + (i - 1)] == Created(ids[1..][i - 1]);
      }
    }
  }

  lemma {:induction false} CreateAppend(a: seq<nat>, b: seq<nat>, trace: Trace)
    ensures var ra := CreateEach(a, trace);
            var rb := CreateEach(b, ra.1);
            CreateEach(a + b, trace) == (ra.0 + rb.0, rb.1)
    decreases |a|
  {
    if a == [] {
      assert a + b == b;
      assert [] + CreateEach(b, trace).0 == CreateEach(b, trace).0;
    } else {
      assert (a + b)[1..] == a[1..] + b;
      var t := trace + [Created(a[0])];
      CreateAppend(a[1..], b, t);
      var ra := CreateEach(a[1..], t);
      var rb := CreateEach(b, ra.1);
      assert [Todo(a[0], |trace|)] + (ra.0 + rb.0) == ([Todo(a[0], |trace|)] + ra.0) + rb.0;
    }
  }

  lemma {:induction false} NewServiceIsCreateEach(f: Factory, trace: Trace)
    ensures var r := NewService(f, trace);
            Awaited(r.0) && (Slots(r.0), r.1) == CreateEach(FactoryLeaves(f), trace)
  {
    match f
    case LeafFactory(id) =>
      assert [id][1..] == [];
      assert CreateEach([], trace + [Created(id)]) == ([], trace + [Created(id)]);
      assert [Todo(id, |trace|)] + [] == [Todo(id, |trace|)];
    case ChainFactory(_, a, b) =>
      NewServiceIsCreateEach(a, trace);
      NewServiceIsCreateEach(b, NewService(a, trace).1);
      CreateAppend(FactoryLeaves(a), FactoryLeaves(b), trace);
  }

  /** Factories with the same leaves cannot be told apart, however they are bracketed, and whatever
      kinds they mix: the same leaf futures are made and polled in the same order, and the services
      they give have the same leaves. */
  lemma FactoryBracketsDoNotMatter(f: Factory, g: Factory, oracle: Oracle, trace: Trace, gaps: seq<Trace>)
    requires FactoryLeaves(f) == FactoryLeaves(g)
    ensures var (x, y) := (NewService(f, trace), NewService(g, trace));
            && x.1 == y.1
            && var (u, v) := (RunBuild(x.0, oracle, x.1, gaps), RunBuild(y.0, oracle, y.1, gaps));
               u.trace == v.trace && AllAlike(u.outs, v.outs)
  {
    NewServiceIsCreateEach(f, trace);
    NewServiceIsCreateEach(g, trace);
    SameSlotsSameRun(NewService(f, trace).0, NewService(g, trace).0, oracle, NewService(f, trace).1, gaps);
  }

  // ---------------------------------------------------------------- the services a factory makes

  /** A service put together as a factory is: the same chains of the same kinds. */
  predicate Shaped(f: Factory, s: Service) {
    match f
    case LeafFactory(_) => s.Leaf?
    case ChainFactory(kind, a, b) => s.Chain? && s.kind == kind && Shaped(a, s.a) && Shaped(b, s.b)
  }

  /** A future that makes such a service. */
  predicate Makes(f: Factory, g: Building) {
    match f
    case LeafFactory(_) => g.Waiting?
    case ChainFactory(kind, a, b) =>
      && g.Pair? && g.kind == kind
      && (if g.a.Some? then Shaped(a, g.a.value) else Makes(a, g.futA))
      && (if g.b.Some? then Shaped(b, g.b.value) else Makes(b, g.futB))
  }

  lemma {:induction false} NewServiceMakes(f: Factory, trace: Trace)
    ensures Makes(f, NewService(f, trace).0)
  {
    if f.ChainFactory? {
      NewServiceMakes(f.a, trace);
      NewServiceMakes(f.b, NewService(f.a, trace).1);
    }
  }

  lemma {:induction false} BuildMakes(f: Factory, g: Building, oracle: Oracle, trace: Trace)
    requires Makes(f, g)
    ensures var p := Build(g, oracle, trace);
            (p.out.Done? ==> Shaped(f, p.out.service)) && (p.out.NotYet? ==> Makes(f, p.fut))
  {
    if f.ChainFactory? {
      if g.a.None? { BuildMakes(f.a, g.futA, oracle, trace); }
      var pa := if g.a.None? then Build(g.futA, oracle, trace) else BuildStep(NotYet, g.futA, trace);
      if !pa.out.InitFailed? && g.b.None? { BuildMakes(f.b, g.futB, oracle, pa.trace); }
    }
  }

  /** Whatever service a factory gives, it is put together as the factory is. */
  lemma {:induction false} GivesItsShape(f: Factory, g: Building, oracle: Oracle, trace: Trace, gaps: seq<Trace>)
    requires Makes(f, g)
    ensures forall out :: out in RunBuild(g, oracle, trace, gaps).outs && out.Done? ==> Shaped(f, out.service)
    decreases |gaps|
  {
    if gaps != [] {
      BuildMakes(f, g, oracle, trace + gaps[0]);
      var p := Build(g, oracle, trace + gaps[0]);
      if p.out.NotYet? { GivesItsShape(f, p.fut, oracle, p.trace, gaps[1..]); }
    }
  }

  /** What a factory answers, from `new_service` on. */
  function Answers(f: Factory, oracle: Oracle, trace: Trace, gaps: seq<Trace>): seq<Built> {
    var x := NewService(f, trace);
    RunBuild(x.0, oracle, x.1, gaps).outs
  }

  /** Two factories with the same leaves give their services at the same polls, with the same leaves,
      and each service is put together as its factory is. */
  lemma ServicesGiven(f: Factory, g: Factory, oracle: Oracle, trace: Trace, gaps: seq<Trace>, i: nat)
    requires FactoryLeaves(f) == FactoryLeaves(g)
    requires var x := Answers(f, oracle, trace, gaps); i < |x| && x[i].Done?
    ensures var (x, y) := (Answers(f, oracle, trace, gaps), Answers(g, oracle, trace, gaps));
            && i < |y| && y[i].Done? && Leaves(x[i].service) == Leaves(y[i].service)
            && Shaped(f, x[i].service) && Shaped(g, y[i].service)
  {
    FactoryBracketsDoNotMatter(f, g, oracle, trace, gaps);
    var x, y := Answers(f, oracle, trace, gaps), Answers(g, oracle, trace, gaps);
    assert Alike(x[i], y[i]);
    NewServiceMakes(f, trace);
    NewServiceMakes(g, trace);
    GivesItsShape(f, NewService(f, trace).0, oracle, NewService(f, trace).1, gaps);
    GivesItsShape(g, NewService(g, trace).0, oracle, NewService(g, trace).1, gaps);
    assert x[i] in x && y[i] in y;
  }

  predicate UniformFactory(k: Kind, f: Factory) {
    f.LeafFactory? || (f.kind == k && UniformFactory(k, f.a) && UniformFactory(k, f.b))
  }

  lemma {:induction false} UniformGives(k: Kind, f: Factory, s: Service)
    requires UniformFactory(k, f) && Shaped(f, s)
    ensures UniformService(k, s)
  {
    if f.ChainFactory? {
      UniformGives(k, f.a, s.a);
      UniformGives(k, f.b, s.b);
    }
  }

  /** The services that two bracketings of one kind give cannot be told apart either. */
  lemma FactoriesGiveLikeServices(
      k: Kind, f: Factory, g: Factory, oracle: Oracle, trace: Trace, gaps: seq<Trace>, i: nat)
    requires UniformFactory(k, f) && UniformFactory(k, g) && FactoryLeaves(f) == FactoryLeaves(g)
    requires var x := Answers(f, oracle, trace, gaps); i < |x| && x[i].Done?
    ensures var (x, y) := (Answers(f, oracle, trace, gaps), Answers(g, oracle, trace, gaps));
            i < |y| && y[i].Done? && Indistinguishable(x[i].service, y[i].service)
  {
    ServicesGiven(f, g, oracle, trace, gaps, i);
    var s, t := Answers(f, oracle, trace, gaps)[i].service, Answers(g, oracle, trace, gaps)[i].service;
    UniformGives(k, f, s);
    UniformGives(k, g, t);
    forall req, oracle, trace, gaps ensures SameFor(s, t, req, oracle, trace, gaps) {
      BracketsDoNotMatter(k, s, t, req, oracle, trace, gaps);
    }
  }

  lemma {:induction false} ShapeAndLeavesDecide(f: Factory, s: Service, t: Service)
    requires Shaped(f, s) && Shaped(f, t)
    ensures |Leaves(s)| == |Leaves(t)|
    ensures Leaves(s) == Leaves(t) ==> s == t
  {
    if f.ChainFactory? {
      ShapeAndLeavesDecide(f.a, s.a, t.a);
      ShapeAndLeavesDecide(f.b, s.b, t.b);
      var n := |Leaves(s.a)|;
      assert Leaves(s)[..n] == Leaves(s.a) && Leaves(s)[n..] == Leaves(s.b);
      assert Leaves(t)[..n] == Leaves(t.a) && Leaves(t)[n..] == Leaves(t.b);
    }
  }

  /** The exact law for factories, whatever chains a, b and c are: the services that `(a.k1(b)).k2(c)`
      and `a.k1(b.k2(c))` give cannot be told apart, unless k1 is `and_then` and k2 is `then`. */
  lemma FactoryChainsAreAssociativeIff(
      k1: Kind, k2: Kind, a: Factory, b: Factory, c: Factory, oracle: Oracle, trace: Trace, gaps: seq<Trace>, i: nat)
    requires var x := Answers(ChainFactory(k2, ChainFactory(k1, a, b), c), oracle, trace, gaps);
             i < |x| && x[i].Done?
    ensures var (x, y) := (Answers(ChainFactory(k2, ChainFactory(k1, a, b), c), oracle, trace, gaps),
                           Answers(ChainFactory(k1, a, ChainFactory(k2, b, c)), oracle, trace, gaps));
            && i < |y| && y[i].Done?
            && (Indistinguishable(x[i].service, y[i].service) <==> !(k1 == AndThen && k2 == Then))
  {
    var f, g := ChainFactory(k2, ChainFactory(k1, a, b), c), ChainFactory(k1, a, ChainFactory(k2, b, c));
    assert (FactoryLeaves(a) + FactoryLeaves(b)) + FactoryLeaves(c)
           == FactoryLeaves(a) + (FactoryLeaves(b) + FactoryLeaves(c));
    ServicesGiven(f, g, oracle, trace, gaps, i);
    var s, t := Answers(f, oracle, trace, gaps)[i].service, Answers(g, oracle, trace, gaps)[i].service;
    SameParts(a, b, c, s, t.a, t.b.a, t.b.b);
    ChainsAreAssociativeIff(k1, k2, t.a, t.b.a, t.b.b);
  }

  /** Three services side by side are determined by their shapes and leaves. */
  lemma SameParts(fa: Factory, fb: Factory, fc: Factory, s: Service, a: Service, b: Service, c: Service)
    requires s.Chain? && s.a.Chain? && Shaped(fa, s.a.a) && Shaped(fb, s.a.b) && Shaped(fc, s.b)
    requires Shaped(fa, a) && Shaped(fb, b) && Shaped(fc, c)
    requires Leaves(s) == Leaves(a) + (Leaves(b) + Leaves(c))
    ensures s.a.a == a && s.a.b == b && s.b == c
  {
    ShapeAndLeavesDecide(fa, s.a.a, a);
    ShapeAndLeavesDecide(fb, s.a.b, b);
    ShapeAndLeavesDecide(fc, s.b, c);
    SplitTwice(Leaves(s.a.a), Leaves(s.a.b), Leaves(s.b), Leaves(a), Leaves(b), Leaves(c));
  }

  lemma SplitTwice(a: seq<nat>, b: seq<nat>, c: seq<nat>, x: seq<nat>, y: seq<nat>, z: seq<nat>)
    requires (a + b) + c == x + (y + z) && |a| == |x| && |b| == |y|
    ensures a == x && b == y && c == z
  {
    var u, v := (a + b) + c, x + (y + z);
    assert u[..|a|] == a && v[..|a|] == x;
    assert u[|a|..] == b + c && v[|a|..] == y + z;
    assert (b + c)[..|b|] == b && (y + z)[..|b|] == y;
    assert (b + c)[|b|..] == c && (y + z)[|b|..] == z;
  }

  // ---------------------------------------------------------------- no factory future is polled again

  /** Every open slot has a future of its own that has not answered. */
  predicate OpenSlots(slots: seq<Slot>, trace: Trace) {
    && (forall i :: 0 <= i < |slots| && slots[i].Todo? ==> Unanswered(slots[i].at, trace))
    && forall i, j :: 0 <= i < j < |slots| && slots[i].Todo? && slots[j].Todo? ==> slots[i].at != slots[j].at
  }

  /** One round over the slots polls only futures of its own that have not answered, and leaves open
      only such. */
  lemma {:induction false} FillEachIsSane(slots: seq<Slot>, oracle: Oracle, trace: Trace)
    requires Sane(trace) && OpenSlots(slots, trace)
    ensures var r := FillEach(slots, oracle, trace);
            && trace <= r.trace && Sane(r.trace) && (r.error.None? ==> OpenSlots(r.slots, r.trace))
            && (forall k :: |trace| <= k < |r.trace| ==> r.trace[k].Polled? && PolledSlot(slots, r.trace[k].at))
            && forall i :: 0 <= i < |slots| ==> r.slots[i] == slots[i] || (slots[i].Todo? && r.slots[i].Made?)
    decreases |slots|
  {
    if slots != [] {
      var tail := slots[1..];
      if slots[0].Made? {
        FillEachIsSane(tail, oracle, trace);
      } else {
        var out := oracle(trace, slots[0].leaf);
        var e := Polled(slots[0].leaf, slots[0].at, out);
        PollSlot(slots, e, trace);
        if !(out.Ready? && out.res.Err?) {
          FillEachIsSane(tail, oracle, trace + [e]);
          KeepsFirst(slots, FillEach(tail, oracle, trace + [e]), e, trace);
        }
      }
    }
  }

  predicate PolledSlot(slots: seq<Slot>, at: nat) {
    exists i :: 0 <= i < |slots| && slots[i].Todo? && slots[i].at == at
  }

  lemma PollSlot(slots: seq<Slot>, e: Event, trace: Trace)
    requires slots != [] && slots[0].Todo? && e.Polled? && e.at == slots[0].at
    requires Sane(trace) && OpenSlots(slots, trace)
    ensures Sane(trace + [e]) && OpenSlots(slots[1..], trace + [e])
  {
    forall i | 0 <= i < |slots[1..]| && slots[1..][i].Todo? ensures Unanswered(slots[1..][i].at, trace + [e]) {
      assert Unanswered(slots[i + 1].at, trace) && slots[0].at != slots[i + 1].at;
    }
  }

  /** The first slot stays unanswered while the others are polled. */
  lemma KeepsFirst(slots: seq<Slot>, r: SlotStep, e: Event, trace: Trace)
    requires slots != [] && slots[0].Todo? && e.Polled? && e.at == slots[0].at && |r.slots| == |slots| - 1
    requires OpenSlots(slots, trace) && trace + [e] <= r.trace
    requires forall k :: |trace| < k < |r.trace| ==> r.trace[k].Polled? && PolledSlot(slots[1..], r.trace[k].at)
    requires r.error.None? ==> OpenSlots(r.slots, r.trace)
    requires forall i :: 0 <= i < |slots| - 1 ==>
               r.slots[i] == slots[1..][i] || (slots[1..][i].Todo? && r.slots[i].Made?)
    ensures forall k :: |trace| <= k < |r.trace| ==> r.trace[k].Polled? && PolledSlot(slots, r.trace[k].at)
    ensures r.error.None? && e.out.Pending? ==> OpenSlots([slots[0]] + r.slots, r.trace)
    ensures r.error.None? ==> forall v :: OpenSlots([Made(v)] + r.slots, r.trace)
  {
    forall k | |trace| <= k < |r.trace|
      ensures r.trace[k].Polled? && PolledSlot(slots, r.trace[k].at)
      ensures k > |trace| ==> r.trace[k].at != slots[0].at
    {
      if k == |trace| {
        assert r.trace[k] == e;
      } else {
        assert PolledSlot(slots[1..], r.trace[k].at);
        var i :| 0 <= i < |slots[1..]| && slots[1..][i].Todo? && slots[1..][i].at == r.trace[k].at;
        assert slots[i + 1] == slots[1..][i];
      }
    }
    if e.out.Pending? {
      assert Unanswered(slots[0].at, trace);
      forall i | 0 <= i < |r.trace| && r.trace[i].Polled? && r.trace[i].at == slots[0].at
        ensures r.trace[i].out.Pending?
      {
        assert i < |trace| ==> r.trace[i] == trace[i];
        assert i == |trace| ==> r.trace[i] == e;
      }
      assert Unanswered(slots[0].at, r.trace);
    }
  }

  lemma {:induction false} NewSlotsAreOpen(ids: seq<nat>, trace: Trace)
    requires Sane(trace)
    ensures var r := CreateEach(ids, trace);
            && trace <= r.1 && Sane(r.1) && OpenSlots(r.0, r.1)
            && forall i :: 0 <= i < |r.0| ==> r.0[i].Todo? && r.0[i].at >= |trace|
    decreases |ids|
  {
    if ids != [] {
      var t := trace + [Created(ids[0])];
      NewSlotsAreOpen(ids[1..], t);
      var r := CreateEach(ids[1..], t);
      assert forall i :: |t| <= i < |r.1| ==> !r.1[i].Polled? by { CreatesOnly(ids[1..], t); }
      assert Unanswered(|trace|, r.1);
    }
  }

  lemma {:induction false} CreatesOnly(ids: seq<nat>, trace: Trace)
    ensures var t := CreateEach(ids, trace).1;
            trace <= t && forall i :: |trace| <= i < |t| ==> t[i].Created?
    decreases |ids|
  {
    if ids != [] {
      CreatesOnly(ids[1..], trace + [Created(ids[0])]);
    }
  }

  predicate OthersLeaveSlots(slots: seq<Slot>, trace: Trace, gap: Trace) {
    Sane(trace + gap) && forall i :: 0 <= i < |gap| && gap[i].Polled? ==> !PolledSlot(slots, gap[i].at)
  }

  predicate OthersLeaveBuilding(f: Building, oracle: Oracle, trace: Trace, gaps: seq<Trace>)
    decreases |gaps|
  {
    gaps == [] ||
    (&& OthersLeaveSlots(Slots(f), trace, gaps[0])
     && var p := Build(f, oracle, trace + gaps[0]);
        p.out.NotYet? ==> OthersLeaveBuilding(p.fut, oracle, p.trace, gaps[1..]))
  }

  lemma {:induction false} BuildRunIsSane(f: Building, oracle: Oracle, trace: Trace, gaps: seq<Trace>)
    requires Awaited(f) && Sane(trace) && OpenSlots(Slots(f), trace)
    requires OthersLeaveBuilding(f, oracle, trace, gaps)
    ensures Sane(RunBuild(f, oracle, trace, gaps).trace)
    decreases |gaps|
  {
    if gaps != [] {
      var t := trace + gaps[0];
      GapKeepsOpen(Slots(f), trace, gaps[0]);
      BuildIsFillEach(f, oracle, t);
      FillEachIsSane(Slots(f), oracle, t);
      var p := Build(f, oracle, t);
      if p.out.NotYet? { BuildRunIsSane(p.fut, oracle, p.trace, gaps[1..]); }
    }
  }

  lemma GapKeepsOpen(slots: seq<Slot>, trace: Trace, gap: Trace)
    requires OpenSlots(slots, trace) && OthersLeaveSlots(slots, trace, gap)
    ensures OpenSlots(slots, trace + gap)
  {
    forall i | 0 <= i < |slots| && slots[i].Todo? ensures Unanswered(slots[i].at, trace + gap) {
      assert Unanswered(slots[i].at, trace);
      assert forall k :: 0 <= k < |gap| && gap[k].Polled? ==> gap[k].at != slots[i].at;
    }
  }

  /** From `new_service` to its answer, no leaf factory future is polled after it was ready. */
  lemma NoFactoryFutureIsPolledAgain(f: Factory, oracle: Oracle, trace: Trace, gaps: seq<Trace>)
    requires Sane(trace)
    requires var x := NewService(f, trace); OthersLeaveBuilding(x.0, oracle, x.1, gaps)
    ensures var x := NewService(f, trace); Sane(RunBuild(x.0, oracle, x.1, gaps).trace)
  {
    NewServiceIsCreateEach(f, trace);
    NewSlotsAreOpen(FactoryLeaves(f), trace);
    BuildRunIsSane(NewService(f, trace).0, oracle, NewService(f, trace).1, gaps);
  }
}
