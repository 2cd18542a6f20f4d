/** The task-notifying counter of actix-utils, on the same one-slot waker. */
module TaskCounter {
  import opened LocalWake
  import opened Options

  /** A counter as a value: guards, the task in the slot, and the tasks woken so far. */
  datatype View = View(count: nat, slot: Option<Waker>, woken: seq<Waker>)

  datatype Op = Get | Release | Ask(w: Waker)

  function AfterOp(capacity: nat, v: View, op: Op): View {
    match op
    case Get => v.(count := v.count + 1)
    case Release =>
      if v.count == 0 then v
      else if v.count != capacity then v.(count := v.count - 1)
      else View(v.count - 1, None, v.woken + if v.slot.Some? then [v.slot.value] else [])
    case Ask(w) => if v.count < capacity then v else v.(slot := Some(w))
  }

  function AfterOps(capacity: nat, v: View, ops: seq<Op>): View
    decreases |ops|
  {
    if ops == [] then v else AfterOps(capacity, AfterOp(capacity, v, ops[0]), ops[1..])
  }

  function Gets(ops: seq<Op>): nat { if ops == [] then 0 else (if ops[0].Get? then 1 else 0) + Gets(ops[1..]) }

  function Releases(ops: seq<Op>): nat {
    if ops == [] then 0 else (if ops[0].Release? then 1 else 0) + Releases(ops[1..])
  }

  /** Only guards that exist are dropped. */
  ghost predicate DropsWhatIsThere(n: nat, ops: seq<Op>) {
    forall k :: 0 <= k <= |ops| ==> Releases(ops[..k]) <= n + Gets(ops[..k])
  }

  /** The count is that of the guards created less those dropped, at any capacity. */
  lemma {:induction false} CountIsGuards(capacity: nat, v: View, ops: seq<Op>)
    requires DropsWhatIsThere(v.count, ops)
    ensures AfterOps(capacity, v, ops).count == v.count + Gets(ops) - Releases(ops)
    decreases |ops|
  {
    if ops != [] {
      assert ops[..1] == [ops[0]] && [ops[0]][1..] == [];
      assert Releases(ops[..1]) <= v.count + Gets(ops[..1]);
      var w := AfterOp(capacity, v, ops[0]);
      forall k | 0 <= k <= |ops[1..]| ensures Releases(ops[1..][..k]) <= w.count + Gets(ops[1..][..k]) {
        assert ops[..k + 1][0] == ops[0] && ops[..k + 1][1..] == ops[1..][..k];
      }
      CountIsGuards(capacity, w, ops[1..]);
      assert w.count + (if ops[0].Release? then 1 else 0) == v.count + if ops[0].Get? then 1 else 0;
      assert AfterOps(capacity, v, ops) == AfterOps(capacity, w, ops[1..]);
    }
  }

  /** No drop in between makes room. */
  predicate StaysFull(capacity: nat, v: View, ops: seq<Op>)
    decreases |ops|
  {
    v.count >= capacity && (ops == [] || StaysFull(capacity, AfterOp(capacity, v, ops[0]), ops[1..]))
  }

  /** The task that was told to wait last. */
  function LastTold(first: Waker, ops: seq<Op>): Waker
    decreases |ops|
  {
    if ops == [] then first else LastTold(if ops[0].Ask? then ops[0].w else first, ops[1..])
  }

  lemma {:induction false} SlotHoldsTheLast(capacity: nat, v: View, first: Waker, ops: seq<Op>)
    requires v.slot == Some(first) && StaysFull(capacity, v, ops)
    ensures var t := AfterOps(capacity, v, ops);
            t.slot == Some(LastTold(first, ops)) && t.woken == v.woken && t.count >= capacity
    decreases |ops|
  {
    if ops != [] {
      SlotHoldsTheLast(capacity, AfterOp(capacity, v, ops[0]), if ops[0].Ask? then ops[0].w else first, ops[1..]);
    }
  }

  /** Every other task that is told to wait is followed by this one again. */
  ghost predicate NoOtherAfter(w: Waker, ops: seq<Op>) {
    forall i :: 0 <= i < |ops| && ops[i].Ask? && ops[i].w != w ==> exists j :: i < j < |ops| && ops[j] == Ask(w)
  }

  lemma {:induction false} LastToldIff(first: Waker, w: Waker, ops: seq<Op>)
    ensures LastTold(first, ops) == w <==> NoOtherAfter(w, ops) && (first == w || Ask(w) in ops)
    decreases |ops|
  {
    if ops != [] {
      var next := if ops[0].Ask? then ops[0].w else first;
      var rest := ops[1..];
      LastToldIff(next, w, rest);
      assert forall i :: 0 < i < |ops| ==> ops[i] == rest[i - 1];
      if NoOtherAfter(w, ops) {
        forall i | 0 <= i < |rest| && rest[i].Ask? && rest[i].w != w
          ensures exists j :: i < j < |rest| && rest[j] == Ask(w)
        {
          var j :| i + 1 < j < |ops| && ops[j] == Ask(w);
          assert rest[j - 1] == Ask(w);
        }
      }
      if NoOtherAfter(w, rest) && (next == w || Ask(w) in rest) {
        forall i | 0 <= i < |ops| && ops[i].Ask? && ops[i].w != w
          ensures exists j :: i < j < |ops| && ops[j] == Ask(w)
        {
          if i == 0 {
            var j :| 0 <= j < |rest| && rest[j] == Ask(w);
            assert ops[j + 1] == Ask(w);
          } else {
            assert rest[i - 1] == ops[i];
            var j :| i - 1 < j < |rest| && rest[j] == Ask(w);
            assert ops[j + 1] == Ask(w);
          }
        }
      }
    }
  }

  /** A task told to wait is woken by the next drop that makes room if and only if no other task was
      told to wait after it; and that drop wakes one task in any case. */
  lemma WokenIff(capacity: nat, v: View, w: Waker, ops: seq<Op>)
    requires v.count >= capacity > 0
    requires StaysFull(capacity, AfterOp(capacity, v, Ask(w)), ops)
    requires AfterOps(capacity, AfterOp(capacity, v, Ask(w)), ops).count == capacity
    ensures var t := AfterOp(capacity, AfterOps(capacity, AfterOp(capacity, v, Ask(w)), ops), Release);
            && t.count < capacity && t.slot.None?
            && |t.woken| == |v.woken| + 1 && v.woken <= t.woken
            && (t.woken == v.woken + [w] <==> NoOtherAfter(w, ops))
  {
    SlotHoldsTheLast(capacity, AfterOp(capacity, v, Ask(w)), w, ops);
    LastToldIff(w, w, ops);
    var last := LastTold(w, ops);
    assert (v.woken + [last])[|v.woken|] == last && (v.woken + [w])[|v.woken|] == w;
  }

  class Counter {
    const capacity: nat
    const task: LocalWaker
    var count: nat

    ghost function Value(): View reads this, task { View(count, task.waker, task.woken) }

    constructor (capacity: nat)
      ensures fresh(task) && this.capacity == capacity && Value() == View(0, None, [])
    {
      this.capacity, count := capacity, 0;
      task := new LocalWaker();
    }

    /** Creating a guard; it does not ask for capacity. */
    method Inc()
      modifies this`count
      ensures Value() == old(Value()).(count := old(count) + 1) == AfterOp(capacity, old(Value()), Get)
    {
      count := count + 1;
    }

    /** Dropping a guard; the drop that makes room wakes the task in the slot. */
    method Dec()
      requires count > 0
      modifies this`count, task
      ensures Value() == AfterOp(capacity, old(Value()), Release) && count == old(count) - 1
      ensures old(count) != capacity ==> task.waker == old(task.waker) && task.woken == old(task.woken)
      ensures old(count) == capacity ==>
                && task.waker.None?
                && task.woken == old(task.woken) + if old(task.waker).Some? then [old(task.waker).value] else []
    {
      var num := count;
      count := num - 1;
      if num == capacity { task.Wake(); }
    }

    /** True below capacity; otherwise the task is promised a wake, in place of an earlier one. */
    method Available(w: Waker) returns (r: bool)
      modifies task`waker
      ensures r <==> count < capacity
      ensures task.waker == if r then old(task.waker) else Some(w)
      ensures Value() == AfterOp(capacity, old(Value()), Ask(w))
    {
      if count < capacity { return true; }
      var _ := task.Register(w);
      return false;
    }
  }

  /** Any program over one counter; a guard is dropped only if there is one. */
  method RunCounter(capacity: nat, ops: seq<Op>) returns (c: Counter)
    ensures c.capacity == capacity && c.Value() == AfterOps(capacity, View(0, None, []), ops)
  {
    c := new Counter(capacity);
    ghost var start := c.Value();
    for i := 0 to |ops|
      invariant c.capacity == capacity && fresh(c) && fresh(c.task)
      invariant AfterOps(capacity, c.Value(), ops[i..]) == AfterOps(capacity, start, ops)
    {
      assert ops[i..][0] == ops[i] && ops[i..][1..] == ops[i + 1..];
      match ops[i] {
        case Get => c.Inc();
        case Release => if c.count > 0 { c.Dec(); }
        case Ask(w) => var _ := c.Available(w);
      }
    }
  }
}
