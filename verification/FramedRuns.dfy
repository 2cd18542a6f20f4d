/** Whole runs of a transport: any number of polls against any read script, any mix of sends and
    flushes against any write script, and the two ends put together. */
module FramedRuns {
  import opened Lines
  import opened Codec
  import opened FramedTransport
  import opened Options

  // ---------------------------------------------------------------- reading

  /** A run of polls: `vs[k]` becomes `vs[k + 1]` by poll `k`, which returned `rs[k]`. */
  ghost predicate IsRun(c: Config, vs: seq<View>, rs: seq<Polled>) {
    && |vs| == |rs| + 1
    && ViewOk(vs[0])
    && forall k :: 0 <= k < |rs| ==> IsPoll(c, vs[k], rs[k], vs[k + 1])
  }

  ghost predicate IsPoll(c: Config, v: View, r: Polled, w: View) { (r, w) == PollStep(c, v) }

  /** Any number of polls of a transport is such a run. */
  method PollTimes(f: Framed, n: nat) returns (rs: seq<Polled>, ghost vs: seq<View>)
    requires f.Valid() && ViewOk(f.ReadView())
    modifies f`eof, f`readable, f.codec`nextIndex, f.readBuf, f.io`inputs
    ensures f.Valid() && |rs| == n && IsRun(f.codec.config, vs, rs)
    ensures vs[0] == old(f.ReadView()) && vs[n] == f.ReadView()
  {
    rs, vs := [], [f.ReadView()];
    for i := 0 to n
      invariant f.Valid() && |rs| == i && IsRun(f.codec.config, vs, rs)
      invariant vs[0] == old(f.ReadView()) && vs[i] == f.ReadView()
    {
      var r := f.NextItem();
      assert IsPoll(f.codec.config, vs[i], r, f.ReadView());
      rs, vs := rs + [r], vs + [f.ReadView()];
    }
  }

  /** The items and decode errors a run hands out, up to the first overlong error. */
  function Delivered(rs: seq<Polled>): seq<Item> {
    if rs == [] then []
    else if rs[0] == Yield(TooLong) then [TooLong]
    else (if rs[0].Yield? then [rs[0].item] else []) + Delivered(rs[1..])
  }

  predicate Finished(rs: seq<Polled>) { End in rs || Yield(TooLong) in rs }

  lemma RunTail(c: Config, vs: seq<View>, rs: seq<Polled>)
    requires IsRun(c, vs, rs) && rs != []
    ensures PollOk(c, vs[0], rs[0], vs[1]) && IsRun(c, vs[1..], rs[1..])
  {
    assert IsPoll(c, vs[0], rs[0], vs[1]);
    PollKeepsItems(c, vs[0]);
    forall k | 0 <= k < |rs[1..]| ensures IsPoll(c, vs[1..][k], rs[1..][k], vs[1..][k + 1]) {
      assert IsPoll(c, vs[k + 1], rs[k + 1], vs[k + 2]);
    }
  }

  /** One poll, seen from outside: what it adds to what is delivered afterwards. */
  lemma OnePoll(c: Config, v: View, r: Polled, w: View)
    requires PollOk(c, v, r, w)
    ensures r == Yield(TooLong) ==> Items(c, Ahead(v)) == [TooLong]
    ensures r == End ==> Items(c, Ahead(v)) == [] && Ended(c, w)
    ensures r.Yield? && r.item != TooLong ==> Items(c, Ahead(v)) == [r.item] + Items(c, Ahead(w))
    ensures r == NotYet || r == IoError ==> Items(c, Ahead(v)) == Items(c, Ahead(w))
  {
  }

  /** Every run delivers a prefix of the one-shot reading of all its bytes, and all of it once it
      has ended or rejected a line: how the bytes were cut into chunks, and where polls found
      nothing or failed, makes no difference. */
  lemma {:induction false} DeliveredIsOneShot(c: Config, vs: seq<View>, rs: seq<Polled>)
    requires IsRun(c, vs, rs)
    ensures Delivered(rs) <= Items(c, Ahead(vs[0]))
    ensures Finished(rs) ==> Delivered(rs) == Items(c, Ahead(vs[0]))
    decreases |rs|
  {
    if rs != [] {
      RunTail(c, vs, rs);
      OnePoll(c, vs[0], rs[0], vs[1]);
      if rs[0] == End {
        EndIsFinal(c, vs[1..], rs[1..]);
      } else if rs[0] != Yield(TooLong) {
        DeliveredIsOneShot(c, vs[1..], rs[1..]);
        assert Finished(rs) ==> Finished(rs[1..]);
        PrefixCons(if rs[0].Yield? then [rs[0].item] else [], Delivered(rs[1..]), Items(c, Ahead(vs[1])));
      }
    }
  }

  lemma PrefixCons(x: seq<Item>, a: seq<Item>, b: seq<Item>)
    requires a <= b
    ensures x + a <= x + b
  {
  }

  /** After the end every poll reports the end; nothing is delivered any more. */
  lemma {:induction false} EndIsFinal(c: Config, vs: seq<View>, rs: seq<Polled>)
    requires IsRun(c, vs, rs) && Ended(c, vs[0])
    ensures forall k :: 0 <= k < |rs| ==> rs[k] == End
    ensures Delivered(rs) == []
    decreases |rs|
  {
    if rs != [] {
      RunTail(c, vs, rs);
      EndIsFinal(c, vs[1..], rs[1..]);
      assert forall k :: 1 <= k < |rs| ==> rs[k] == rs[1..][k - 1];
    }
  }

  /** After an overlong line every poll reports that line again. */
  lemma {:induction false} OverlongIsFinal(c: Config, vs: seq<View>, rs: seq<Polled>)
    requires IsRun(c, vs, rs) && Stuck(c, vs[0])
    ensures forall k :: 0 <= k < |rs| ==> rs[k] == Yield(TooLong)
    decreases |rs|
  {
    if rs != [] {
      RunTail(c, vs, rs);
      OverlongIsFinal(c, vs[1..], rs[1..]);
      assert forall k :: 1 <= k < |rs| ==> rs[k] == rs[1..][k - 1];
    }
  }

  function IoErrors(rs: seq<Polled>): nat {
    if rs == [] then 0 else (if rs[0] == IoError then 1 else 0) + IoErrors(rs[1..])
  }

  /** Over a run, every failed read is reported once: the I/O errors are as many as the failures used up. */
  lemma {:induction false} FailuresAreReported(c: Config, vs: seq<View>, rs: seq<Polled>)
    requires IsRun(c, vs, rs)
    ensures Failures(vs[0].inputs) == Failures(vs[|rs|].inputs) + IoErrors(rs)
    decreases |rs|
  {
    if rs != [] {
      assert IsPoll(c, vs[0], rs[0], vs[1]);
      PollReports(c, vs[0]);
      RunTail(c, vs, rs);
      FailuresAreReported(c, vs[1..], rs[1..]);
    }
  }

  function Work(v: View): nat { |Ahead(v)| + |v.inputs| }

  /** A run over a script that ends is finished after more polls than there are bytes and
      outcomes left, so every line is delivered. */
  lemma {:induction false} EnoughPollsFinish(c: Config, vs: seq<View>, rs: seq<Polled>)
    requires IsRun(c, vs, rs) && EofAhead(vs[0]) && |rs| > Work(vs[0])
    ensures Finished(rs)
    decreases |rs|
  {
    RunTail(c, vs, rs);
    if rs[0] != End && rs[0] != Yield(TooLong) {
      assert rs[0] == NotYet ==> vs[1].inputs != [];
      EnoughPollsFinish(c, vs[1..], rs[1..]);
      assert Finished(rs[1..]);
    }
  }

  /** Chunking independence between any two runs over the same bytes. */
  lemma ChunkingIndependence(c: Config, vs: seq<View>, rs: seq<Polled>, ws: seq<View>, qs: seq<Polled>)
    requires IsRun(c, vs, rs) && Finished(rs)
    requires IsRun(c, ws, qs) && Finished(qs)
    requires Ahead(vs[0]) == Ahead(ws[0])
    ensures Delivered(rs) == Delivered(qs)
  {
    DeliveredIsOneShot(c, vs, rs);
    DeliveredIsOneShot(c, ws, qs);
  }

  /** A transport as `new` leaves it, with a codec that may have been used before. */
  function NewView(next: nat, slack: seq<nat>, inputs: seq<ReadOutcome>): View {
    View(false, false, next, [], Room(HW, slack), inputs)
  }

  /** What the first read brings, if the I/O object has bytes. */
  function FirstBytes(inputs: seq<ReadOutcome>): Bytes
    requires inputs != [] && inputs[0].Chunk?
  {
    inputs[0].bytes[..Min(|inputs[0].bytes|, HW)]
  }

  /** A transport made with a codec that was used before: its first poll gives the same answer as with
      a new codec, with the same buffer and the same input left, exactly if decoding the first bytes
      is not misled by the old scan index. Then all is the same but perhaps the index. */
  lemma UsedCodecIff(c: Config, next: nat, slack: seq<nat>, inputs: seq<ReadOutcome>)
    requires inputs != [] && inputs[0].Chunk? && inputs[0].bytes != []
    ensures var ((r, v), (q, w)) := (PollStep(c, NewView(next, slack, inputs)), PollStep(c, NewView(0, slack, inputs)));
            && ((r == q && v.buf == w.buf && v.inputs == w.inputs) <==> SameDecode(c, next, FirstBytes(inputs)))
            && (SameDecode(c, next, FirstBytes(inputs)) ==> r == q && v.(next := 0) == w.(next := 0))
  {
    FirstPoll(c, next, slack, inputs);
    FirstPoll(c, 0, slack, inputs);
    StaleIndexIff(c, next, FirstBytes(inputs));
    var x := AfterFirstRead(next, slack, inputs);
    if Decode(c, next, x.buf).item.None? { PollReads(c, x); }
  }

  function AfterFirstRead(next: nat, slack: seq<nat>, inputs: seq<ReadOutcome>): View
    requires inputs != [] && inputs[0].Chunk? && inputs[0].bytes != []
  {
    var b := FirstBytes(inputs);
    View(false, true, next, b, Room(HW - |b|, slack), AfterTake(inputs, |b|))
  }

  lemma FirstPoll(c: Config, next: nat, slack: seq<nat>, inputs: seq<ReadOutcome>)
    requires inputs != [] && inputs[0].Chunk? && inputs[0].bytes != []
    ensures PollStep(c, NewView(next, slack, inputs)) == PollStep(c, AfterFirstRead(next, slack, inputs))
  {
    var v, w := NewView(next, slack, inputs), AfterFirstRead(next, slack, inputs);
    assert v.buf + FirstBytes(inputs) == w.buf;
    assert ReadStep(v) == (None, w);
  }

  /** A poll of a readable transport that finds nothing in the buffer reads on. */
  lemma PollReads(c: Config, v: View)
    requires v.readable && !v.eof && Decode(c, v.next, v.buf).item.None?
    ensures var (r, w) := PollStep(c, v); r in {NotYet, IoError} || ReadWork(w.inputs) < ReadWork(v.inputs)
  {
    var base := v.(next := Decode(c, v.next, v.buf).next, readable := false);
    var r := ReadStep(base);
    if r.0.None? {
      TakeWork(v.inputs, r.1.inputs);
      PollNeverUnreads(c, r.1);
    }
  }

  lemma {:induction false} PollNeverUnreads(c: Config, v: View)
    ensures ReadWork(PollStep(c, v).1.inputs) <= ReadWork(v.inputs)
    decreases ReadWork(v.inputs)
  {
    var d := DecodeStep(c, v);
    if !(v.readable && (d.item.Some? || v.eof)) {
      var w := v.(next := d.next, buf := d.rest);
      var r := ReadStep(if v.readable then w.(readable := false) else v);
      if r.0.None? {
        TakeWork(v.inputs, r.1.inputs);
        PollNeverUnreads(c, r.1);
      }
    }
  }

  // ---------------------------------------------------------------- writing

  /** What a sender does. `SendWhenReady` is a sender that asks first and holds its item back
      when the sink is not ready. */
  datatype SinkOp = Send(item: Bytes) | SendWhenReady(item: Bytes) | DoFlush

  function AfterOp(s: Sink, op: SinkOp): Sink {
    match op
    case Send(item) => s.(buf := s.buf + Encode(item))
    case SendWhenReady(item) =>
      var (r, t) := ReadyStep(s);
      if r == FlushedAll then t.(buf := t.buf + Encode(item)) else t
    case DoFlush => FlushStep(s).1
  }

  /** The items an operation puts in the buffer. */
  function SentBy(s: Sink, op: SinkOp): seq<Bytes> {
    match op
    case Send(item) => [item]
    case SendWhenReady(item) => if ReadyStep(s).0 == FlushedAll then [item] else []
    case DoFlush => []
  }

  function AfterOps(s: Sink, ops: seq<SinkOp>): Sink
    decreases |ops|
  {
    if ops == [] then s else AfterOps(AfterOp(s, ops[0]), ops[1..])
  }

  function Sent(s: Sink, ops: seq<SinkOp>): seq<Bytes>
    decreases |ops|
  {
    if ops == [] then [] else SentBy(s, ops[0]) + Sent(AfterOp(s, ops[0]), ops[1..])
  }

  /** Any sender of a transport does what these operations do. */
  method RunSink(f: Framed, ops: seq<SinkOp>)
    requires f.Valid()
    modifies f.writeBuf, f.io`outputs, f.io`flushes, f.io`wire
    ensures f.Valid() && f.SinkView() == AfterOps(old(f.SinkView()), ops)
  {
    ghost var start := f.SinkView();
    for i := 0 to |ops|
      invariant f.Valid() && AfterOps(f.SinkView(), ops[i..]) == AfterOps(start, ops)
    {
      assert ops[i..][0] == ops[i] && ops[i..][1..] == ops[i + 1..];
      match ops[i] {
        case Send(item) => WriteItem(f, item);
        case SendWhenReady(item) =>
          var r := f.PollReady();
          if r == FlushedAll { WriteItem(f, item); }
        case DoFlush => var _ := f.Flush();
      }
    }
  }

  method WriteItem(f: Framed, item: Bytes)
    requires f.Valid()
    modifies f.writeBuf
    ensures f.Valid() && f.SinkView() == old(f.SinkView()).(buf := old(f.SinkView().buf) + Encode(item))
  {
    f.Write(item);
    Assoc(old(f.writeBuf.data), item, [LF]);
  }

  /** A flush moves bytes from the buffer to the wire in order; it succeeds only if it moved all,
      and fails with "zero bytes written" only if some are left. */
  lemma {:induction false} FlushConserves(s: Sink)
    ensures var (r, t) := FlushStep(s);
            && t.wire + t.buf == s.wire + s.buf
            && s.wire <= t.wire
            && (r == FlushedAll ==> t.buf == [])
            && (r == WriteZero ==> t.buf != [])
    decreases |s.outputs|
  {
    if s.buf != [] && s.outputs != [] && s.outputs[0].Take? {
      var n := Min(s.outputs[0].n, |s.buf|);
      if n > 0 {
        var t := Sink(s.wire + s.buf[..n], s.buf[n..], s.outputs[1..], s.flushes);
        assert t.wire + t.buf == s.wire + s.buf by {
          Assoc(s.wire, s.buf[..n], s.buf[n..]);
          assert s.buf[..n] + s.buf[n..] == s.buf;
        }
        FlushConserves(t);
      }
    }
  }

  /** How many offers come before the first outcome that takes nothing. */
  function Willing(outputs: seq<WriteOutcome>): (k: nat)
    ensures k <= |outputs|
    ensures forall i :: 0 <= i < k ==> outputs[i].Take? && outputs[i].n > 0
    ensures k < |outputs| ==> outputs[k].WritePending? || outputs[k].WriteFailed? || outputs[k] == Take(0)
  {
    if outputs == [] || !outputs[0].Take? || outputs[0].n == 0 then 0 else 1 + Willing(outputs[1..])
  }

  /** All that the offers of a script can take. */
  function Offered(outputs: seq<WriteOutcome>): nat {
    if outputs == [] then 0 else (if outputs[0].Take? then outputs[0].n else 0) + Offered(outputs[1..])
  }

  /** The outcome that ends the writing, if the offers before it do not cover the buffer. */
  function Stopper(outputs: seq<WriteOutcome>): WriteOutcome {
    var k := Willing(outputs);
    if k < |outputs| then outputs[k] else WritePending
  }

  /** What the offers before the first outcome that takes nothing amount to. */
  function Offer(s: Sink): nat { Offered(s.outputs[..Willing(s.outputs)]) }

  /** A flush moves as many bytes as those offers take, and goes on to flush the I/O object exactly if
      they cover the buffer. */
  lemma {:induction false} FlushMoves(s: Sink)
    ensures var (t, moved) := (FlushStep(s).1, Min(Offer(s), |s.buf|));
            && t.wire == s.wire + s.buf[..moved] && t.buf == s.buf[moved..]
            && t.flushes == (if Offer(s) >= |s.buf| then Tail(s.flushes) else s.flushes)
    decreases |s.outputs|
  {
    if s.buf != [] && Willing(s.outputs) > 0 {
      var u := Taken(s);
      FlushTakes(s);
      FlushMoves(u);
      var n, m := |u.wire| - |s.wire|, Min(Offer(u), |u.buf|);
      TakeTwice(s.wire, s.buf, n, m);
    }
  }

  lemma TakeTwice(wire: Bytes, buf: Bytes, n: nat, m: nat)
    requires n + m <= |buf|
    ensures (wire + buf[..n]) + buf[n..][..m] == wire + buf[..n + m] && buf[n..][m..] == buf[n + m..]
  {
    assert buf[..n + m] == buf[..n] + buf[n..][..m];
  }

  /** If the offers do not cover the buffer, the outcome that ended the writing is the answer; otherwise
      it is what flushing the I/O object gives. */
  lemma {:induction false} FlushAnswers(s: Sink)
    ensures var (r, covered) := (FlushStep(s).0, Offer(s) >= |s.buf|);
            var (last, stop) := (NextOutcome(s.flushes), Stopper(s.outputs));
            && (r == FlushedAll <==> covered && last == FlushDone)
            && (r == WriteZero <==> !covered && stop == Take(0))
            && (r == FlushIoError <==> if covered then last == FlushFailed else stop == WriteFailed)
            && (r == FlushNotYet <==> if covered then last == FlushPending else stop == WritePending)
    decreases |s.outputs|
  {
    if s.buf != [] && Willing(s.outputs) > 0 {
      FlushTakes(s);
      FlushAnswers(Taken(s));
    }
  }

  /** If they do not cover it, the script is used up to that outcome. */
  lemma {:induction false} FlushUses(s: Sink)
    requires Offer(s) < |s.buf|
    ensures FlushStep(s).1.outputs == Tail(s.outputs[Willing(s.outputs)..])
    decreases |s.outputs|
  {
    if Willing(s.outputs) > 0 {
      FlushTakes(s);
      FlushUses(Taken(s));
      assert s.outputs[Willing(s.outputs)..] == s.outputs[1..][Willing(s.outputs) - 1..];
    }
  }

  /** The sink after its first offer. */
  function Taken(s: Sink): Sink
    requires s.outputs != [] && s.outputs[0].Take?
  {
    var n := Min(s.outputs[0].n, |s.buf|);
    Sink(s.wire + s.buf[..n], s.buf[n..], s.outputs[1..], s.flushes)
  }

  lemma FlushTakes(s: Sink)
    requires s.buf != [] && Willing(s.outputs) > 0
    ensures FlushStep(s) == FlushStep(Taken(s))
    ensures Offer(s) == s.outputs[0].n + Offer(Taken(s)) && Stopper(s.outputs) == Stopper(Taken(s).outputs)
    ensures Willing(Taken(s).outputs) == Willing(s.outputs) - 1
  {
    var k := Willing(s.outputs);
    assert s.outputs[..k][0] == s.outputs[0] && s.outputs[..k][1..] == s.outputs[1..][..k - 1];
  }

  /** The outcomes at which a flush stops with bytes left. */
  function Stops(outputs: seq<WriteOutcome>): nat {
    if outputs == [] then 0
    else (if outputs[0].Take? && outputs[0].n > 0 then 0 else 1) + Stops(outputs[1..])
  }

  lemma {:induction false} StopsAndOffers(a: seq<WriteOutcome>, k: nat)
    requires k <= |a|
    ensures Stops(a) == Stops(a[..k]) + Stops(a[k..])
    ensures Offered(a) == Offered(a[..k]) + Offered(a[k..])
    decreases k
  {
    if k == 0 {
      assert a[..0] == [] && a[0..] == a;
    } else {
      StopsAndOffers(a[1..], k - 1);
      assert a[..k][0] == a[0] && a[..k][1..] == a[1..][..k - 1] && a[k..] == a[1..][k - 1..];
    }
  }

  /** `n` flushes in a row. */
  function Flushes(n: nat): (ops: seq<SinkOp>)
    ensures |ops| == n && forall i :: 0 <= i < n ==> ops[i] == DoFlush
  {
    seq(n, _ => DoFlush)
  }

  /** More flushes than the script has stops empty the buffer, if its offers cover it. */
  lemma {:induction false} EnoughFlushesEmpty(s: Sink, n: nat)
    requires Offered(s.outputs) >= |s.buf| && (Stops(s.outputs) < n || s.buf == [])
    ensures AfterOps(s, Flushes(n)).buf == []
    decreases n
  {
    if n > 0 {
      assert Flushes(n)[1..] == Flushes(n - 1);
      FlushMoves(s);
      if Offer(s) < |s.buf| { FlushUsesAStop(s); }
      EnoughFlushesEmpty(FlushStep(s).1, n - 1);
    }
  }

  lemma FlushUsesAStop(s: Sink)
    requires Offer(s) < |s.buf| <= Offered(s.outputs)
    ensures var t := FlushStep(s).1;
            Stops(t.outputs) < Stops(s.outputs) && Offered(t.outputs) >= |t.buf|
  {
    var k := Willing(s.outputs);
    FlushMoves(s);
    FlushUses(s);
    StopsAndOffers(s.outputs, k);
    assert s.outputs[k..] != [];
  }

  lemma {:induction false} OpsAppend(s: Sink, a: seq<SinkOp>, b: seq<SinkOp>)
    ensures AfterOps(s, a + b) == AfterOps(AfterOps(s, a), b)
    ensures Sent(s, a + b) == Sent(s, a) + Sent(AfterOps(s, a), b)
    decreases |a|
  {
    if a == [] {
      assert a + b == b;
    } else {
      assert (a + b)[0] == a[0] && (a + b)[1..] == a[1..] + b;
      OpsAppend(AfterOp(s, a[0]), a[1..], b);
    }
  }

  lemma {:induction false} FlushesSendNothing(s: Sink, n: nat)
    ensures Sent(s, Flushes(n)) == []
    decreases n
  {
    if n > 0 {
      assert Flushes(n)[1..] == Flushes(n - 1);
      FlushesSendNothing(AfterOp(s, DoFlush), n - 1);
    }
  }

  lemma OpConserves(s: Sink, op: SinkOp)
    ensures var t := AfterOp(s, op);
            && s.wire <= t.wire
            && t.wire + t.buf == s.wire + s.buf + EncodeAll(SentBy(s, op))
  {
    FlushConserves(s);
    EncodeAllOne(op);
    match op
    case DoFlush =>
    case Send(item) => Assoc(s.wire, s.buf, Encode(item));
    case SendWhenReady(item) => var t := ReadyStep(s).1; Assoc(t.wire, t.buf, Encode(item));
  }

  lemma EncodeAllOne(op: SinkOp)
    ensures !op.DoFlush? ==> EncodeAll([op.item]) == Encode(op.item)
  {
    if !op.DoFlush? { assert EncodeAll([op.item][1..]) == []; }
  }

  /** What the I/O object took followed by what is buffered is always the encoding of everything
      sent, in order, through any partial writes, pending attempts and errors. */
  lemma {:induction false} WritesConserve(s: Sink, ops: seq<SinkOp>)
    ensures var t := AfterOps(s, ops);
            && s.wire <= t.wire
            && t.wire + t.buf == s.wire + s.buf + EncodeAll(Sent(s, ops))
    decreases |ops|
  {
    if ops != [] {
      var m := AfterOp(s, ops[0]);
      OpConserves(s, ops[0]);
      WritesConserve(m, ops[1..]);
      EncodeAllAppend(SentBy(s, ops[0]), Sent(m, ops[1..]));
      Assoc(s.wire + s.buf, EncodeAll(SentBy(s, ops[0])), EncodeAll(Sent(m, ops[1..])));
    } else {
      assert EncodeAll([]) == [];
    }
  }

  /** A sender that asks before it sends never has more than the high-water mark and one encoded
      item in the buffer. */
  lemma {:induction false} PoliteSenderBound(s: Sink, ops: seq<SinkOp>, longest: nat)
    requires |s.buf| < HW + longest + 1
    requires forall k :: 0 <= k < |ops| ==> !ops[k].Send?
    requires forall k :: 0 <= k < |ops| && ops[k].SendWhenReady? ==> |ops[k].item| <= longest
    ensures |AfterOps(s, ops).buf| < HW + longest + 1
    decreases |ops|
  {
    if ops != [] {
      FlushConserves(s);
      assert |AfterOp(s, ops[0]).buf| < HW + longest + 1;
      PoliteSenderBound(AfterOp(s, ops[0]), ops[1..], longest);
    }
  }

  // ---------------------------------------------------------------- both ends

  /** A sender writes through any partial writes until its buffer is empty; a receiver reads those
      bytes in any chunks. The receiver gets exactly the items sent, if all of them are clean, and
      otherwise something else. */
  lemma EndToEnd(c: Config, s: Sink, ops: seq<SinkOp>, vs: seq<View>, rs: seq<Polled>)
    requires s.wire == [] && s.buf == []
    requires AfterOps(s, ops).buf == []
    requires IsRun(c, vs, rs) && |rs| > Work(vs[0])
    requires vs[0] == View(false, false, 0, [], vs[0].room, vs[0].inputs) && HasEof(vs[0].inputs)
    requires Remaining(vs[0].inputs) == AfterOps(s, ops).wire
    ensures Delivered(rs) == Frames(Sent(s, ops)) <==>
            forall k :: 0 <= k < |Sent(s, ops)| ==> Clean(c, Sent(s, ops)[k])
  {
    WritesConserve(s, ops);
    EnoughPollsFinish(c, vs, rs);
    DeliveredIsOneShot(c, vs, rs);
    RoundTripIff(c, Sent(s, ops));
    var t := AfterOps(s, ops);
    assert t.wire + t.buf == t.wire;
    assert s.wire + s.buf + EncodeAll(Sent(s, ops)) == EncodeAll(Sent(s, ops));
    assert Ahead(vs[0]) == Remaining(vs[0].inputs);
  }

  /** The same for any sender whose script is willing in the end: it flushes often enough, and then all
      it sent arrives, if all of it is clean. */
  lemma WillingEndToEnd(c: Config, s: Sink, ops: seq<SinkOp>, n: nat, vs: seq<View>, rs: seq<Polled>)
    requires s.wire == [] && s.buf == []
    requires var u := AfterOps(s, ops); Offered(u.outputs) >= |u.buf| && Stops(u.outputs) < n
    requires IsRun(c, vs, rs) && |rs| > Work(vs[0])
    requires vs[0] == View(false, false, 0, [], vs[0].room, vs[0].inputs) && HasEof(vs[0].inputs)
    requires Remaining(vs[0].inputs) == AfterOps(s, ops + Flushes(n)).wire
    ensures Delivered(rs) == Frames(Sent(s, ops)) <==>
            forall k :: 0 <= k < |Sent(s, ops)| ==> Clean(c, Sent(s, ops)[k])
  {
    var u := AfterOps(s, ops);
    OpsAppend(s, ops, Flushes(n));
    EnoughFlushesEmpty(u, n);
    FlushesSendNothing(u, n);
    assert Sent(s, ops) + [] == Sent(s, ops);
    EndToEnd(c, s, ops + Flushes(n), vs, rs);
  }
}
