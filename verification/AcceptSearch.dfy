/** How the accept thread finds a worker for one connection: the search of `accept_one` on values,
    exactly when it ends, and what one attempt of the code does to it. */
module AcceptSearch {
  import opened Options
  import opened Protocol
  import opened ProtocolProofs
  import opened ProtocolTheorems
  import opened AcceptSteps

  // ---------------------------------------------------------------- when the search ends

  /** The search of `accept_one` for one connection, against workers of which those in `dead` refuse
      it: still going on, or ended with the worker that took it, if any. */
  datatype Search = Going(handles: seq<Handle>, next: nat, bits: set<nat>) | Ended(taker: Option<nat>)

  /** The search without a dead worker's handle. */
  function Without(hs: seq<Handle>, n: nat, bits: set<nat>): Search
    requires n < |hs|
  {
    var rest := SwapRemove(hs, n);
    if rest == [] then Ended(None) else Going(rest, if |rest| <= n then 0 else n, bits - {hs[n].idx})
  }

  /** Trying every worker until one takes the connection. */
  function Forced(hs: seq<Handle>, n: nat, dead: set<nat>): Search
    requires n < |hs|
    ensures Forced(hs, n, dead).Ended?
    decreases |hs|
  {
    if hs[n].wid !in dead then Ended(Some(hs[n].wid))
    else
      var rest := Without(hs, n, {});
      if rest.Ended? then rest else Forced(rest.handles, rest.next, dead)
  }

  /** One turn of the loop. */
  function Turn(hs: seq<Handle>, n: nat, bits: set<nat>, dead: set<nat>): Search
    requires n < |hs|
  {
    if hs[n].idx in bits then
      if hs[n].wid !in dead then Ended(Some(hs[n].wid)) else Without(hs, n, bits)
    else if bits == {} then Forced(hs, Ring(n, 1, |hs|), dead)
    else Going(hs, Ring(n, 1, |hs|), bits)
  }

  function AfterTurns(s: Search, dead: set<nat>, k: nat): Search
    decreases k
  {
    if k == 0 || s.Ended? then s
    else if s.next < |s.handles| then AfterTurns(Turn(s.handles, s.next, s.bits, dead), dead, k - 1)
    else s
  }

  ghost predicate SearchEnds(hs: seq<Handle>, n: nat, bits: set<nat>, dead: set<nat>) {
    exists k :: AfterTurns(Going(hs, n, bits), dead, k).Ended?
  }

  /** Some live worker is marked available. */
  ghost predicate LiveMarked(hs: seq<Handle>, bits: set<nat>, dead: set<nat>) {
    exists h :: h in hs && h.idx in bits && h.wid !in dead
  }

  ghost predicate AllMarked(hs: seq<Handle>, bits: set<nat>) { forall h :: h in hs ==> h.idx in bits }

  /** The exact condition: a live worker is marked, or every flag belongs to a handle, or every
      handle is marked. */
  ghost predicate WillEnd(hs: seq<Handle>, bits: set<nat>, dead: set<nat>) {
    LiveMarked(hs, bits, dead) || bits <= HandleIds(hs) || AllMarked(hs, bits)
  }

  lemma OneTurn(hs: seq<Handle>, n: nat, bits: set<nat>, dead: set<nat>, k: nat)
    requires n < |hs|
    requires AfterTurns(Turn(hs, n, bits, dead), dead, k).Ended?
    ensures AfterTurns(Going(hs, n, bits), dead, k + 1).Ended?
  {
  }

  lemma RemovalKeepsDistinct(hs: seq<Handle>, k: nat)
    requires k < |hs| && Distinct(hs)
    ensures Distinct(SwapRemove(hs, k))
  {
  }

  /** Removing a dead, marked handle does not change whether the search ends. */
  lemma RemovalKeepsWillEnd(hs: seq<Handle>, n: nat, bits: set<nat>, dead: set<nat>)
    requires n < |hs| && Distinct(hs) && hs[n].idx in bits && hs[n].wid in dead
    ensures WillEnd(SwapRemove(hs, n), bits - {hs[n].idx}, dead) <==> WillEnd(hs, bits, dead)
  {
    var rest, less := SwapRemove(hs, n), bits - {hs[n].idx};
    SwapRemoveDrops(hs, n);
    SwapRemoveKeepsIds(hs, n, bits);
    SwapRemoveHas(hs, n);
    assert forall h :: h in rest ==> (h.idx in less <==> h.idx in bits);
    assert forall h :: h in hs && h != hs[n] ==> h in rest;
    assert LiveMarked(rest, less, dead) <==> LiveMarked(hs, bits, dead);
    assert AllMarked(rest, less) <==> AllMarked(hs, bits);
    if less <= HandleIds(rest) {
      forall i | i in bits ensures i in HandleIds(hs) {
        if i == hs[n].idx { assert hs[n] in hs; }
        else {
          assert i in less && i in HandleIds(rest);
          var h :| h in rest && h.idx == i;
          assert h in hs;
        }
      }
    }
  }

  lemma SwapRemoveHas(hs: seq<Handle>, n: nat)
    requires n < |hs|
    ensures forall h :: h in hs && h != hs[n] ==> h in SwapRemove(hs, n)
  {
    forall h | h in hs && h != hs[n] ensures h in SwapRemove(hs, n) {
      var j :| 0 <= j < |hs| && hs[j] == h;
      assert SwapRemove(hs, n)[if j == |hs| - 1 then n else j] == h;
    }
  }

  lemma {:induction false} EndsWhenItWill(hs: seq<Handle>, n: nat, bits: set<nat>, dead: set<nat>) returns (k: nat)
    requires n < |hs| && Distinct(hs) && WillEnd(hs, bits, dead)
    ensures AfterTurns(Going(hs, n, bits), dead, k).Ended?
    decreases |hs|, FirstMarked(hs, bits, n)
  {
    assert hs[n] in hs;
    if hs[n].idx in bits && hs[n].wid in dead && |hs| > 1 {
      RemovalKeepsDistinct(hs, n);
      RemovalKeepsWillEnd(hs, n, bits, dead);
      var rest := Without(hs, n, bits);
      k := EndsWhenItWill(rest.handles, rest.next, rest.bits, dead);
      OneTurn(hs, n, bits, dead, k);
      k := k + 1;
    } else if hs[n].idx !in bits && bits != {} {
      assert exists h :: h in hs && h.idx in bits;
      NoneMarked(hs, bits, n);
      assert Ring(n, 0, |hs|) == n;
      SkipOne(hs, bits, n);
      k := EndsWhenItWill(hs, Ring(n, 1, |hs|), bits, dead);
      OneTurn(hs, n, bits, dead, k);
      k := k + 1;
    } else {
      k := 1;
      assert AfterTurns(Turn(hs, n, bits, dead), dead, 0).Ended?;
    }
  }

  lemma {:induction false} SpinsOtherwise(hs: seq<Handle>, n: nat, bits: set<nat>, dead: set<nat>, k: nat)
    requires n < |hs| && Distinct(hs) && !WillEnd(hs, bits, dead)
    ensures AfterTurns(Going(hs, n, bits), dead, k).Going?
    decreases k
  {
    if k > 0 {
      assert hs[n] in hs;
      if hs[n].idx in bits {
        RemovalKeepsDistinct(hs, n);
        RemovalKeepsWillEnd(hs, n, bits, dead);
        var rest := Without(hs, n, bits);
        assert rest.Going? by {
          assert exists h :: h in hs && h.idx !in bits;
        }
        SpinsOtherwise(rest.handles, rest.next, rest.bits, dead, k - 1);
      } else {
        assert bits != {} by { assert !(bits <= HandleIds(hs)); }
        SpinsOtherwise(hs, Ring(n, 1, |hs|), bits, dead, k - 1);
      }
    }
  }

  /** The search of `accept_one` ends for exactly those flags and handles; otherwise it goes round
      for ever. A stale notification of a replaced worker can set such a flag. */
  lemma SearchEndsIff(hs: seq<Handle>, n: nat, bits: set<nat>, dead: set<nat>)
    requires n < |hs| && Distinct(hs)
    ensures SearchEnds(hs, n, bits, dead) <==> WillEnd(hs, bits, dead)
  {
    if WillEnd(hs, bits, dead) {
      var k := EndsWhenItWill(hs, n, bits, dead);
    } else {
      forall k: nat ensures !AfterTurns(Going(hs, n, bits), dead, k).Ended? {
        SpinsOtherwise(hs, n, bits, dead, k);
      }
    }
  }

  /** A flag without a handle, and no handle marked: the search goes round for ever. */
  lemma StaleFlagSpins(hs: seq<Handle>, n: nat, bits: set<nat>, dead: set<nat>)
    requires n < |hs| && Distinct(hs) && bits != {} && forall h :: h in hs ==> h.idx !in bits
    ensures !SearchEnds(hs, n, bits, dead)
  {
    SearchEndsIff(hs, n, bits, dead);
    var i :| i in bits;
    assert i !in HandleIds(hs);
    assert hs[n] in hs;
  }

  // ---------------------------------------------------------------- the search in the code

  /** The connection went to exactly one worker that the accept thread held, or there is no worker
      left. */
  ghost predicate DeliveredOnce(s: State, t: State, conn: Conn) {
    || (t.handles == [] && t.deliveries == s.deliveries)
    || exists h :: h in s.handles && t.deliveries == s.deliveries + [Delivery(conn, h.wid)]
  }

  /** No worker held is marked available, and some other id is: looking on changes nothing. */
  ghost predicate Spinning(s: State) {
    s.placing.Looking? && s.handles != [] && s.bits != {} && forall h :: h in s.handles ==> h.idx !in s.bits
  }

  /** The accept thread looks for a worker, and goes round for ever or has none to index. */
  ghost predicate Halting(s: State) { Spinning(s) || (s.placing.Looking? && s.handles == []) }

  /** What a search without dead workers does: the first available worker from the next one on gets
      the connection, and the next search will begin after it. */
  ghost predicate RoundRobin(s: State, t: State, conn: Conn) {
    && s.next < |s.handles|
    && var d := FirstMarked(s.handles, s.bits, s.next);
       && d < |s.handles|
       && var k := Ring(s.next, d, |s.handles|);
          && t.deliveries == s.deliveries + [Delivery(conn, s.handles[k].wid)]
          && t.next == Ring(k, 1, |s.handles|)
          && (t.bits == s.bits || t.bits == s.bits - {s.handles[k].idx})
  }

  /** The workers that are dead. */
  function Dead(s: State): set<nat> { set w: nat | w < |s.workers| && !s.workers[w].alive }

  /** Nobody died in between. */
  ghost predicate SameLives(s: State, t: State) {
    |s.workers| <= |t.workers| && forall w :: 0 <= w < |s.workers| ==> t.workers[w].alive == s.workers[w].alive
  }

  function Begin(s: State): Search { Going(s.handles, s.next, s.bits) }

  /** The workers of the handles exist. */
  ghost predicate HandlesExist(s: State) { forall h :: h in s.handles ==> h.wid < |s.workers| }

  /** The state `t` of a search that began in `s`. If nobody died since, it is where the search on
      values is after some turns. */
  ghost predicate Searching(s: State, t: State) {
    && s.next < |s.handles| && t.next < |t.handles| <= |s.handles|
    && t.deliveries == s.deliveries && HandlesExist(s) && LivesOnlyEnd(s, t)
    && (forall h :: h in t.handles ==> h in s.handles)
    && (s.bits <= HandleIds(s.handles) ==> t.bits <= HandleIds(t.handles))
    && (if |t.handles| == |s.handles| then
          && t.handles == s.handles && t.bits == s.bits
          && Ring(t.next, FirstMarked(t.handles, t.bits, t.next), |s.handles|)
             == Ring(s.next, FirstMarked(s.handles, s.bits, s.next), |s.handles|)
          && (FirstMarked(t.handles, t.bits, t.next) == |s.handles|
              <==> FirstMarked(s.handles, s.bits, s.next) == |s.handles|)
        else !AllAlive(t))
  }

  /** The search on values has come as far as `t`, before or within its last turn. */
  ghost predicate InStep(s: State, t: State) {
    SameLives(s, t) ==>
      exists k: nat :: if t.placing.Forcing? then ForcedAt(s, t, k) else AfterTurns(Begin(s), Dead(s), k) == Begin(t)
  }

  ghost predicate ForcedAt(s: State, t: State, k: nat) {
    t.next < |t.handles| && AfterTurns(Begin(s), Dead(s), k) == Forced(t.handles, t.next, Dead(s))
  }

  /** The outcome of the code is that of the search on values. */
  ghost predicate Agrees(s: State, t: State, conn: Conn) {
    exists k: nat :: EndsIn(AfterTurns(Begin(s), Dead(s), k), s, t, conn)
  }

  ghost predicate EndsIn(x: Search, s: State, t: State, conn: Conn) {
    x.Ended? && t.deliveries == s.deliveries + if x.taker.Some? then [Delivery(conn, x.taker.value)] else []
  }

  /** What one attempt to send to the next worker does. */
  ghost predicate SendTried(t: State, u: State, conn: Conn, settled: bool)
    requires t.next < |t.handles|
  {
    var h := t.handles[t.next];
    if settled && u.handles == t.handles then
      && h.wid < |t.workers| && t.workers[h.wid].alive
      && u.deliveries == t.deliveries + [Delivery(conn, h.wid)]
      && u.next == Ring(t.next, 1, |u.handles|)
      && (u.bits == t.bits || u.bits == t.bits - {h.idx})
    else
      && h.wid < |u.workers| && !u.workers[h.wid].alive
      && u.deliveries == t.deliveries
      && u.handles == SwapRemove(t.handles, t.next)
      && u.next == (if |u.handles| <= t.next then 0 else t.next)
      && u.bits == t.bits - {h.idx}
      && (settled <==> u.handles == [])
      && (!settled ==> u.placing == t.placing)
  }

  lemma SearchingMeanwhile(s: State, t: State, f: nat, u: State, g: nat)
    requires Searching(s, t) && Meanwhile(t, f, u, g)
    ensures Searching(s, u)
    ensures InStep(s, t) ==> InStep(s, u)
  {
    if SameLives(s, u) { assert SameLives(s, t); }
  }

  /** One attempt of a search either ends it properly or leaves it going on with fewer workers. */
  lemma Tried(s: State, t: State, u: State, conn: Conn, settled: bool)
    requires Searching(s, t) && SendTried(t, u, conn, settled) && LivesOnlyEnd(t, u)
    requires t.handles[t.next].idx in t.bits || t.bits == {}
    requires s.bits != {}
    ensures settled ==> DeliveredOnce(s, u, conn)
    ensures settled && u.handles == s.handles ==> RoundRobin(s, u, conn)
    ensures !settled ==> Searching(s, u) && |u.handles| < |t.handles|
  {
    assert t.handles[t.next] in t.handles;
    if settled && u.handles == s.handles {
      assert Ring(t.next, 0, |s.handles|) == t.next;
      assert Marked(t.handles, t.bits, t.next, 0);
      assert FirstMarked(t.handles, t.bits, t.next) == 0;
    }
    if !settled {
      SwapRemoveKeeps(t.handles, t.next);
      SwapRemoveKeepsIds(t.handles, t.next, t.bits);
    }
  }

  /** An attempt does to the search on values what it does in the code. */
  lemma TriedInStep(s: State, t: State, u: State, conn: Conn, settled: bool)
    requires Searching(s, t) && InStep(s, t) && SendTried(t, u, conn, settled) && LivesOnlyEnd(t, u)
    requires t.placing.Forcing? || t.handles[t.next].idx in t.bits
    requires t.placing.Forcing? ==> t.bits == {}
    requires SameLives(s, u)
    ensures settled ==> Agrees(s, u, conn)
    ensures !settled ==> InStep(s, u)
  {
    var h := t.handles[t.next];
    assert h in t.handles && h in s.handles;
    assert SameLives(s, t);
    var dead := Dead(s);
    if t.placing.Forcing? {
      var k: nat :| ForcedAt(s, t, k);
      var x := AfterTurns(Begin(s), dead, k);
      if settled { assert EndsIn(x, s, u, conn); } else { assert ForcedAt(s, u, k); }
    } else {
      var k: nat :| AfterTurns(Begin(s), dead, k) == Begin(t);
      OneMoreTurn(Begin(s), dead, k);
      var x := AfterTurns(Begin(s), dead, k + 1);
      assert x == Turn(t.handles, t.next, t.bits, dead);
      if settled { assert EndsIn(x, s, u, conn); } else { assert x == Begin(u); }
    }
  }

  /** Passing over a worker is a turn of the search, or the beginning of its last. */
  lemma SkippedInStep(s: State, t: State, u: State)
    requires Searching(s, t) && InStep(s, t) && Enabled(t, Skip) && u == Next(t, Skip)
    ensures InStep(s, u)
  {
    if SameLives(s, u) {
      assert SameLives(s, t);
      var dead := Dead(s);
      var k: nat :| AfterTurns(Begin(s), dead, k) == Begin(t);
      OneMoreTurn(Begin(s), dead, k);
      var x := AfterTurns(Begin(s), dead, k + 1);
      assert x == Turn(t.handles, t.next, t.bits, dead);
      if t.bits == {} { assert ForcedAt(s, u, k + 1); } else { assert x == Begin(u); }
    }
  }

  lemma {:induction false} OneMoreTurn(x: Search, dead: set<nat>, k: nat)
    requires var y := AfterTurns(x, dead, k); y.Going? && y.next < |y.handles|
    ensures var y := AfterTurns(x, dead, k); AfterTurns(x, dead, k + 1) == Turn(y.handles, y.next, y.bits, dead)
    decreases k
  {
    if k > 0 && x.Going? && x.next < |x.handles| {
      OneMoreTurn(Turn(x.handles, x.next, x.bits, dead), dead, k - 1);
    } else if k == 0 {
      assert AfterTurns(Turn(x.handles, x.next, x.bits, dead), dead, 0) == Turn(x.handles, x.next, x.bits, dead);
    }
  }

  lemma {:induction false} AfterMoreTurns(x: Search, dead: set<nat>, j: nat, k: nat)
    ensures AfterTurns(x, dead, j + k) == AfterTurns(AfterTurns(x, dead, j), dead, k)
    decreases j
  {
    if j > 0 && x.Going? && x.next < |x.handles| {
      AfterMoreTurns(Turn(x.handles, x.next, x.bits, dead), dead, j - 1, k);
    }
  }

  /** A search that has come to where no worker held is marked does not end, and one that has not
      ended in the code either goes on or ends on values as well. */
  lemma SpinsForGood(s: State, t: State)
    requires Searching(s, t) && InStep(s, t) && Spinning(t) && SameLives(s, t) && Distinct(t.handles)
    ensures !SearchEnds(s.handles, s.next, s.bits, Dead(s))
  {
    var dead := Dead(s);
    var k: nat :| AfterTurns(Begin(s), dead, k) == Begin(t);
    StaleFlagSpins(t.handles, t.next, t.bits, dead);
    forall j: nat ensures !AfterTurns(Begin(s), dead, j).Ended? {
      if j >= k {
        AfterMoreTurns(Begin(s), dead, k, j - k);
      } else {
        AfterMoreTurns(Begin(s), dead, j, k - j);
      }
    }
  }

  lemma AgreesEnds(s: State, t: State, conn: Conn)
    requires Agrees(s, t, conn)
    ensures SearchEnds(s.handles, s.next, s.bits, Dead(s))
  {
    var k: nat :| EndsIn(AfterTurns(Begin(s), Dead(s), k), s, t, conn);
  }

  lemma SwapRemoveKeeps(hs: seq<Handle>, k: nat)
    requires k < |hs|
    ensures forall h :: h in SwapRemove(hs, k) ==> h in hs
  {
  }

  lemma SwapRemoveKeepsIds(hs: seq<Handle>, k: nat, bits: set<nat>)
    requires k < |hs|
    ensures bits <= HandleIds(hs) ==> bits - {hs[k].idx} <= HandleIds(SwapRemove(hs, k))
  {
    if bits <= HandleIds(hs) {
      forall i | i in bits - {hs[k].idx} ensures i in HandleIds(SwapRemove(hs, k)) {
        var h :| h in hs && h.idx == i;
        var j :| 0 <= j < |hs| && hs[j] == h;
        assert SwapRemove(hs, k)[if j == |hs| - 1 then k else j] == h;
      }
    }
  }
}
