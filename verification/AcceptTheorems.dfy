/** Theorems about how fairly the accept thread treats workers and listeners. */
module AcceptTheorems {
  import opened Protocol
  import opened ProtocolProofs
  import opened ProtocolTheorems
  import opened AcceptSteps
  import opened AcceptSearch

  // ---------------------------------------------------------------- turns of workers

  /** How many of the next `m` connections go to handle `i` when all workers stay available. */
  function Turns(n: nat, len: nat, i: nat, m: nat): nat
    requires n < len
    decreases m
  {
    if m == 0 then 0 else (if n == i then 1 else 0) + Turns(Ring(n, 1, len), len, i, m - 1)
  }

  function Distance(n: nat, i: nat, len: nat): nat
    requires n < len && i < len
  {
    if i >= n then i - n else i + len - n
  }

  lemma {:induction false} TurnsBound(n: nat, len: nat, i: nat, m: nat)
    requires n < len && i < len
    ensures var t := Turns(n, len, i, m);
            len * t - len + Distance(n, i, len) < m || (t == 0)
    ensures m <= len * Turns(n, len, i, m) + Distance(n, i, len)
    decreases m
  {
    if m > 0 {
      TurnsBound(Ring(n, 1, len), len, i, m - 1);
      var t := Turns(Ring(n, 1, len), len, i, m - 1);
      if n == i { TimesOneMore(len, t); }
    }
  }

  /** Round robin: over any number of connections no worker gets two more than another. */
  lemma TurnsAreFair(n: nat, len: nat, i: nat, j: nat, m: nat)
    requires n < len && i < len && j < len
    ensures Turns(n, len, i, m) <= Turns(n, len, j, m) + 1
  {
    TurnsBound(n, len, i, m);
    TurnsBound(n, len, j, m);
    var a, b := Turns(n, len, i, m), Turns(n, len, j, m);
    if a >= b + 2 { MoreTurns(len, a, b); }
  }

  lemma {:induction false} MoreTurns(len: nat, a: nat, b: nat)
    requires a >= b + 2
    ensures len * a >= len * b + len + len
    decreases a
  {
    TimesOneMore(len, b);
    TimesOneMore(len, b + 1);
    if a > b + 2 {
      MoreTurns(len, a - 1, b);
      TimesOneMore(len, a - 1);
    }
  }

  lemma TimesOneMore(len: nat, x: nat)
    ensures len * (x + 1) == len * x + len
  {
  }

  /** A dispatch of `accept_one` with every worker marked goes to the next handle in turn. */
  lemma AllMarkedTakeTurns(s: State, t: State, conn: Conn)
    requires RoundRobin(s, t, conn) && AllMarked(s.handles, s.bits)
    ensures t.next == Ring(s.next, 1, |s.handles|)
    ensures t.deliveries == s.deliveries + [Delivery(conn, s.handles[s.next].wid)]
  {
    assert s.handles[s.next] in s.handles;
    assert Ring(s.next, 0, |s.handles|) == s.next;
    assert Marked(s.handles, s.bits, s.next, 0);
  }

  /** Dispatch `k` led from `starts[k]` to `ends[k]`, with every worker marked. */
  ghost predicate IsDispatch(starts: seq<State>, ends: seq<State>, conns: seq<Conn>, k: nat)
    requires |starts| == |ends| == |conns| && k < |conns|
  {
    && RoundRobin(starts[k], ends[k], conns[k]) && AllMarked(starts[k].handles, starts[k].bits)
    && ends[k].handles == starts[k].handles
  }

  /** Between two dispatches others do what they like; the accept thread places nothing. */
  ghost predicate IsPause(s: State, t: State) {
    t.handles == s.handles && t.next == s.next && t.deliveries == s.deliveries
  }

  /** A run of dispatches during which all workers stay available. */
  ghost predicate AreDispatches(starts: seq<State>, ends: seq<State>, conns: seq<Conn>) {
    && |starts| == |ends| == |conns|
    && (forall k :: 0 <= k < |conns| ==> IsDispatch(starts, ends, conns, k))
    && forall k :: 0 < k < |conns| ==> IsPause(ends[k - 1], starts[k])
  }

  /** Different handles lead to different workers. */
  ghost predicate DistinctWorkers(hs: seq<Handle>) {
    forall j, k :: 0 <= j < k < |hs| ==> hs[j].wid != hs[k].wid
  }

  lemma HandlesLeadApart(s: State)
    requires Inv(s)
    ensures DistinctWorkers(s.handles)
  {
    DistinctHandles(s);
    forall j, k | 0 <= j < k < |s.handles| ensures s.handles[j].wid != s.handles[k].wid {
      assert HandleOk(s, s.handles[j]) && HandleOk(s, s.handles[k]);
    }
  }

  /** How many connections worker `w` got. */
  function Got(s: State, w: nat): nat { |DeliveredTo(s.deliveries, w)| }

  lemma DispatchesTail(starts: seq<State>, ends: seq<State>, conns: seq<Conn>)
    requires AreDispatches(starts, ends, conns) && conns != []
    ensures AreDispatches(starts[1..], ends[1..], conns[1..])
  {
    forall k | 0 <= k < |conns[1..]| ensures IsDispatch(starts[1..], ends[1..], conns[1..], k) {
      assert IsDispatch(starts, ends, conns, k + 1);
    }
    forall k | 0 < k < |conns[1..]| ensures IsPause(ends[1..][k - 1], starts[1..][k]) {
      assert IsPause(ends[k], starts[k + 1]);
    }
  }

  /** What a worker gets in such a run is its turns. */
  lemma {:induction false} DispatchesAreTurns(starts: seq<State>, ends: seq<State>, conns: seq<Conn>, i: nat)
    requires AreDispatches(starts, ends, conns) && conns != []
    requires i < |starts[0].handles| && DistinctWorkers(starts[0].handles) && starts[0].next < |starts[0].handles|
    ensures var m := |conns|;
            var (s, w) := (starts[0], starts[0].handles[i].wid);
            Got(ends[m - 1], w) == Got(s, w) + Turns(s.next, |s.handles|, i, m)
    decreases |conns|
  {
    var s, t := starts[0], ends[0];
    var w := s.handles[i].wid;
    assert IsDispatch(starts, ends, conns, 0);
    AllMarkedTakeTurns(s, t, conns[0]);
    assert t.deliveries[..|s.deliveries|] == s.deliveries;
    assert Got(t, w) == Got(s, w) + if s.next == i then 1 else 0;
    assert Turns(t.next, |s.handles|, i, 0) == 0;
    if |conns| > 1 {
      DispatchesTail(starts, ends, conns);
      assert IsPause(ends[0], starts[1]);
      DispatchesAreTurns(starts[1..], ends[1..], conns[1..], i);
    }
  }

  /** While all workers stay available, no worker gets two connections more than another, over any
      number of dispatches and whatever happens between them. */
  lemma DispatchIsFair(starts: seq<State>, ends: seq<State>, conns: seq<Conn>, a: nat, b: nat)
    requires AreDispatches(starts, ends, conns) && conns != [] && Inv(starts[0])
    requires a < |starts[0].handles| && b < |starts[0].handles|
    ensures var (s, t) := (starts[0], ends[|conns| - 1]);
            var (v, w) := (s.handles[a].wid, s.handles[b].wid);
            Got(t, v) - Got(s, v) <= Got(t, w) - Got(s, w) + 1
  {
    HandlesLeadApart(starts[0]);
    assert IsDispatch(starts, ends, conns, 0);
    DispatchesAreTurns(starts, ends, conns, a);
    DispatchesAreTurns(starts, ends, conns, b);
    TurnsAreFair(starts[0].next, |starts[0].handles|, a, b, |conns|);
  }

  // ---------------------------------------------------------------- turns of listeners

  /** Where the scan after `k` more scans begins. */
  function ScanStart(start: nat, n: nat, k: nat): (r: nat)
    requires start < n
    ensures r < n
    decreases k
  {
    if k == 0 then start else ScanStart(NextScan(start, n), n, k - 1)
  }

  lemma {:induction false} ScanStartIs(start: nat, n: nat, k: nat)
    requires start < n && 2 <= n && k < n
    ensures ScanStart(start, n, k) == Ring(start, k, n)
    decreases k
  {
    if k > 0 {
      ScanStartIs(NextScan(start, n), n, k - 1);
    }
  }

  /** One scan offers each listener exactly once. */
  lemma ScanOffersEachOnce(start: nat, n: nat, l: nat)
    requires start < n && l < n
    ensures |ScanOrder(start, n)| == n
    ensures exists e :: 0 <= e < n && ScanOrder(start, n)[e] == l
    ensures forall d, e :: 0 <= d < e < n ==> ScanOrder(start, n)[d] != ScanOrder(start, n)[e]
  {
    var e := Distance(start, l, n);
    assert ScanOrder(start, n)[e] == l;
  }

  /** Over `n` consecutive scans each listener is the first to be offered exactly once. */
  lemma EachListenerGoesFirstOnce(start: nat, n: nat, l: nat)
    requires start < n && 2 <= n && l < n
    ensures exists k :: 0 <= k < n && ScanOrder(ScanStart(start, n, k), n)[0] == l
    ensures forall j, k :: 0 <= j < k < n ==>
              ScanOrder(ScanStart(start, n, j), n)[0] != ScanOrder(ScanStart(start, n, k), n)[0]
  {
    forall k | 0 <= k < n ensures ScanOrder(ScanStart(start, n, k), n)[0] == Ring(start, k, n) {
      ScanStartIs(start, n, k);
    }
    assert ScanOrder(ScanStart(start, n, Distance(start, l, n)), n)[0] == l;
  }
}
