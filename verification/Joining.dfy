/** `join_all` of actix-server: one future that polls many and keeps their order. */
module Joining {

  /** A future that still runs, known by its number, or its result. `Taken` is what `take` leaves. */
  datatype Slot<+T> = Running(id: nat) | Result(value: T) | Taken

  datatype Answer<+T> = Pending | Ready(value: T)

  datatype Event<+T> = Polled(id: nat, answer: Answer<T>)

  /** What a future answers may depend on everything that was polled before. */
  type Oracle<!T> = (seq<Event<T>>, nat) -> Answer<T>

  /** One round of polls over the futures that still run. */
  function Round<T>(slots: seq<Slot<T>>, oracle: Oracle<T>, trace: seq<Event<T>>): (r: (seq<Slot<T>>, seq<Event<T>>))
    ensures |r.0| == |slots|
  {
    if slots == [] then ([], trace)
    else
      var first := PollSlot(slots[0], oracle, trace);
      var rest := Round(slots[1..], oracle, first.1);
      ([first.0] + rest.0, rest.1)
  }

  function PollSlot<T>(slot: Slot<T>, oracle: Oracle<T>, trace: seq<Event<T>>): (Slot<T>, seq<Event<T>>) {
    match slot
    case Running(id) =>
      var answer := oracle(trace, id);
      (if answer.Ready? then Result(answer.value) else slot, trace + [Polled(id, answer)])
    case _ => (slot, trace)
  }

  lemma {:induction false} RoundAppend<T>(a: seq<Slot<T>>, b: seq<Slot<T>>, oracle: Oracle<T>, trace: seq<Event<T>>)
    ensures var ra := Round(a, oracle, trace);
            var rb := Round(b, oracle, ra.1);
            Round(a + b, oracle, trace) == (ra.0 + rb.0, rb.1)
    decreases |a|
  {
    if a == [] {
      assert a + b == b;
      assert [] + Round(b, oracle, trace).0 == Round(b, oracle, trace).0;
    } else {
      assert (a + b)[1..] == a[1..] + b;
      var first := PollSlot(a[0], oracle, trace);
      RoundAppend(a[1..], b, oracle, first.1);
      var ra := Round(a[1..], oracle, first.1);
      var rb := Round(b, oracle, ra.1);
      assert [first.0] + (ra.0 + rb.0) == ([first.0] + ra.0) + rb.0;
    }
  }

  /** The futures that run, in order. */
  function RunningIds<T>(slots: seq<Slot<T>>): seq<nat> {
    if slots == [] then []
    else if slots[0].Running? then [slots[0].id] + RunningIds(slots[1..])
    else RunningIds(slots[1..])
  }

  function Ids<T>(events: seq<Event<T>>): (ids: seq<nat>)
    ensures |ids| == |events| && forall k :: 0 <= k < |ids| ==> ids[k] == events[k].id
  {
    seq(|events|, k requires 0 <= k < |events| => events[k].id)
  }

  /** A round polls each future that runs, once and in order, and no other. */
  lemma {:induction false} RoundPollsEach<T>(slots: seq<Slot<T>>, oracle: Oracle<T>, trace: seq<Event<T>>)
    ensures var t := Round(slots, oracle, trace).1; trace <= t && Ids(t[|trace|..]) == RunningIds(slots)
    decreases |slots|
  {
    if slots == [] {
      assert trace[|trace|..] == [];
    } else {
      var first := PollSlot(slots[0], oracle, trace);
      RoundPollsEach(slots[1..], oracle, first.1);
      var t := Round(slots[1..], oracle, first.1).1;
      assert t[|trace|..] == first.1[|trace|..] + t[|first.1|..];
      assert Ids(t[|trace|..]) == Ids(first.1[|trace|..]) + Ids(t[|first.1|..]);
      assert Ids(first.1[|trace|..]) == if slots[0].Running? then [slots[0].id] else [];
    }
  }

  /** A future is asked in the light of all that was polled before it; its slot takes the answer, and
      every other slot stays. */
  lemma {:induction false} RoundKeepsAnswers<T>(
      slots: seq<Slot<T>>, oracle: Oracle<T>, trace: seq<Event<T>>, i: nat)
    requires i < |slots|
    ensures var (now, t) := Round(slots, oracle, trace);
            match slots[i]
            case Running(id) =>
              var k := |trace| + |RunningIds(slots[..i])|;
              && k < |t| && t[k] == Polled(id, oracle(t[..k], id))
              && now[i] == if t[k].answer.Ready? then Result(t[k].answer.value) else slots[i]
            case _ => now[i] == slots[i]
    decreases |slots|
  {
    var first := PollSlot(slots[0], oracle, trace);
    var t := Round(slots[1..], oracle, first.1).1;
    RoundPollsEach(slots[1..], oracle, first.1);
    if i == 0 {
      assert t[..|trace|] == trace;
    } else {
      RoundKeepsAnswers(slots[1..], oracle, first.1, i - 1);
      assert slots[..i][0] == slots[0] && slots[..i][1..] == slots[1..][..i - 1];
    }
  }

  /** The answers so far are those of the futures that gave them: slot `i` is future `i`, which runs
      and has not answered, or its answer. No future is polled after it has answered. */
  ghost predicate Ordered<T>(slots: seq<Slot<T>>, trace: seq<Event<T>>) {
    && (forall i :: 0 <= i < |slots| ==> InOrder(slots, trace, i))
    && (forall k :: 0 <= k < |trace| ==> trace[k].id < |slots|)
    && forall k, m :: 0 <= k < m < |trace| && trace[k].id == trace[m].id ==> trace[k].answer.Pending?
  }

  ghost predicate InOrder<T>(slots: seq<Slot<T>>, trace: seq<Event<T>>, i: nat)
    requires i < |slots|
  {
    match slots[i]
    case Running(id) => id == i && forall k :: 0 <= k < |trace| && trace[k].id == i ==> trace[k].answer.Pending?
    case Result(value) => Polled(i, Ready(value)) in trace
    case Taken => false
  }

  /** The order holds while a round has come as far as `n`. */
  lemma PollKeepsOrder<T>(slots: seq<Slot<T>>, oracle: Oracle<T>, trace: seq<Event<T>>, n: nat)
    requires n < |slots| && Ordered(slots, trace)
    ensures var r := PollSlot(slots[n], oracle, trace); Ordered(slots[n := r.0], r.1) && trace <= r.1
  {
    assert InOrder(slots, trace, n);
    var r := PollSlot(slots[n], oracle, trace);
    var next := slots[n := r.0];
    if slots[n].Running? {
      assert r.1[|trace|] == Polled(n, oracle(trace, n));
      forall i | 0 <= i < |slots| ensures InOrder(next, r.1, i) {
        assert InOrder(slots, trace, i);
      }
    } else {
      assert next == slots;
    }
  }

  class JoinAll<T> {
    var fut: seq<Slot<T>>
    const oracle: Oracle<T>
    var trace: seq<Event<T>>

    ghost predicate Valid() reads this { Ordered(fut, trace) }

    constructor (n: nat, oracle: Oracle<T>)
      ensures Valid() && |fut| == n && trace == [] && this.oracle == oracle
      ensures forall i :: 0 <= i < n ==> fut[i] == Running(i)
    {
      fut := seq(n, (i: nat) => Running(i));
      this.oracle := oracle;
      trace := [];
    }

    /** `poll`: polls what still runs, once and in order; when all are through it hands out the
        results in the order of the futures, whatever the order in which they came. */
    method Poll() returns (r: Answer<seq<T>>)
      requires Valid()
      modifies this
      ensures (old(Round(fut, oracle, trace)).1) == trace && old(trace) <= trace && |fut| == old(|fut|)
      ensures Ids(trace[|old(trace)|..]) == RunningIds(old(fut))
      ensures r.Pending? ==>
                Valid() && fut == old(Round(fut, oracle, trace)).0 && exists i :: 0 <= i < |fut| && fut[i].Running?
      ensures r.Ready? ==>
                && |r.value| == |fut|
                && forall i :: 0 <= i < |fut| ==> Polled(i, Ready(r.value[i])) in trace && fut[i] == Taken
    {
      var ready := true;
      ghost var (was, slow) := (fut, 0);
      for i := 0 to |fut|
        invariant |fut| == |was| && Ordered(fut, trace) && old(trace) <= trace
        invariant fut[i..] == was[i..]
        invariant (fut[..i], trace) == Round(was[..i], oracle, old(trace))
        invariant ready ==> forall k :: 0 <= k < i ==> !fut[k].Running?
        invariant !ready ==> 0 <= slow < i && fut[slow].Running?
      {
        ghost var (now, p) := (fut, PollSlot(fut[i], oracle, trace));
        PollKeepsOrder(fut, oracle, trace, i);
        RoundStep(was, fut, oracle, old(trace), trace, i);
        match fut[i] {
          case Running(id) =>
            var answer := oracle(trace, id);
            trace := trace + [Polled(id, answer)];
            match answer {
              case Ready(t) => fut := fut[i := Result(t)];
              case Pending => ready, slow := false, i;
            }
          case _ =>
        }
        assert fut == now[i := p.0] && trace == p.1;
        assert fut[i + 1..] == now[i..][1..] == was[i..][1..] == was[i + 1..];
      }
      assert was[..|was|] == was && fut[..|fut|] == fut;
      RoundPollsEach(was, oracle, old(trace));
      if !ready { return Pending; }
      var res := TakeAll();
      return Ready(res);
    }

    /** Takes the result out of every slot. */
    method TakeAll() returns (res: seq<T>)
      requires Valid() && forall i :: 0 <= i < |fut| ==> !fut[i].Running?
      modifies this`fut
      ensures |res| == |fut| == old(|fut|)
      ensures forall i :: 0 <= i < |fut| ==> fut[i] == Taken && Polled(i, Ready(res[i])) in trace
    {
      res := [];
      for i := 0 to |fut|
        invariant |res| == i && |fut| == old(|fut|) && fut[i..] == old(fut)[i..]
        invariant forall k :: 0 <= k < i ==> fut[k] == Taken && Polled(k, Ready(res[k])) in trace
      {
        assert InOrder(old(fut), trace, i) && fut[i] == fut[i..][0];
        res := res + [fut[i].value];
        fut := fut[i := Taken];
      }
    }
  }

  /** A round that has come as far as `i` goes on with slot `i`. */
  lemma RoundStep<T>(
      was: seq<Slot<T>>, now: seq<Slot<T>>, oracle: Oracle<T>, start: seq<Event<T>>, trace: seq<Event<T>>, i: nat)
    requires i < |was| == |now| && now[i..] == was[i..]
    requires (now[..i], trace) == Round(was[..i], oracle, start)
    ensures var p := PollSlot(now[i], oracle, trace);
            (now[i := p.0][..i + 1], p.1) == Round(was[..i + 1], oracle, start)
  {
    assert was[..i + 1] == was[..i] + [was[i]];
    assert now[i] == now[i..][0] == was[i..][0] == was[i];
    RoundAppend(was[..i], [was[i]], oracle, start);
    var p := PollSlot(was[i], oracle, trace);
    assert [was[i]][1..] == [];
    assert Round([], oracle, p.1) == ([], p.1);
    assert [p.0] + [] == [p.0];
    assert Round([was[i]], oracle, trace) == ([p.0], p.1);
    assert now[i := p.0][..i + 1] == now[..i] + [p.0];
  }
}
