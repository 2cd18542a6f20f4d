/** The framed transport over an I/O object that follows a script of outcomes. */
module FramedTransport {
  import opened Lines
  import opened Codec
  import opened Options

  /** Low-water and high-water mark of the buffers. */
  const LW: nat := 1024
  const HW: nat := 8 * 1024

  // ---------------------------------------------------------------- the I/O object

  /** What one attempt to read finds. An empty chunk is the end of the stream. */
  datatype ReadOutcome = Chunk(bytes: Bytes) | ReadPending | ReadFailed

  /** What one attempt to write meets: an offer to take at most `n` bytes, or no progress. */
  datatype WriteOutcome = Take(n: nat) | WritePending | WriteFailed

  datatype FlushOutcome = FlushDone | FlushPending | FlushFailed

  datatype IoPoll = Pending | Failed | Ready(n: nat)

  /** The bytes a reading script still delivers, up to its end of stream. */
  function Remaining(inputs: seq<ReadOutcome>): Bytes {
    if inputs == [] then []
    else match inputs[0]
      case Chunk(bytes) => if bytes == [] then [] else bytes + Remaining(inputs[1..])
      case _ => Remaining(inputs[1..])
  }

  function ReadWork(inputs: seq<ReadOutcome>): nat {
    if inputs == [] then 0
    else (if inputs[0].Chunk? then |inputs[0].bytes| + 1 else 1) + ReadWork(inputs[1..])
  }

  predicate HasEof(inputs: seq<ReadOutcome>) { exists k :: 0 <= k < |inputs| && inputs[k] == Chunk([]) }

  /** A script that has run out leaves every later attempt pending. */
  class Io {
    var inputs: seq<ReadOutcome>
    var outputs: seq<WriteOutcome>
    var flushes: seq<FlushOutcome>
    var shutdowns: seq<FlushOutcome>
    var wire: Bytes

    constructor (inputs: seq<ReadOutcome>, outputs: seq<WriteOutcome>, flushes: seq<FlushOutcome>,
                 shutdowns: seq<FlushOutcome>)
      ensures this.inputs == inputs && this.outputs == outputs && this.flushes == flushes && wire == []
      ensures this.shutdowns == shutdowns
    {
      this.inputs, this.outputs, this.flushes, this.shutdowns, wire := inputs, outputs, flushes, shutdowns, [];
    }

    /** One read into the spare room of `dst`; what does not fit stays in the script.
        Without spare room a read would return zero, which means end of stream. */
    method PollRead(dst: BytesMut) returns (r: IoPoll)
      requires dst.Valid() && dst.Space().spare > 0
      modifies this`inputs, dst
      ensures dst.Valid()
      ensures r.Ready? <==> old(inputs) != [] && old(inputs)[0].Chunk?
      ensures r.Failed? <==> old(inputs) != [] && old(inputs)[0].ReadFailed?
      ensures !r.Ready? ==> dst.data == old(dst.data) && dst.Space() == old(dst.Space()) && inputs == Tail(old(inputs))
      ensures r.Ready? ==>
                var chunk := old(inputs)[0].bytes;
                var room := old(dst.Space());
                && r.n == Min(|chunk|, room.spare)
                && dst.data == old(dst.data) + chunk[..r.n] && dst.Space() == room.(spare := room.spare - r.n)
                && inputs == AfterTake(old(inputs), r.n)
    {
      if inputs == [] { return Pending; }
      match inputs[0] {
        case ReadPending => inputs := inputs[1..]; return Pending;
        case ReadFailed => inputs := inputs[1..]; return Failed;
        case Chunk(chunk) =>
          var n := Min(|chunk|, dst.capacity - |dst.data|);
          dst.PutSlice(chunk[..n]);
          inputs := AfterTake(inputs, n);
          return Ready(n);
      }
    }

    /** One write; the I/O object takes at most the bytes it is given. */
    method PollWrite(src: Bytes) returns (r: IoPoll)
      modifies this`outputs, this`wire
      ensures r.Ready? ==> r.n <= |src| && wire == old(wire) + src[..r.n]
      ensures !r.Ready? ==> wire == old(wire)
      ensures old(outputs) == [] ==> r.Pending? && outputs == []
      ensures old(outputs) != [] ==>
                && outputs == old(outputs)[1..]
                && r == match old(outputs)[0]
                        case WritePending => Pending
                        case WriteFailed => Failed
                        case Take(n) => Ready(Min(n, |src|))
    {
      if outputs == [] { return Pending; }
      var outcome := outputs[0];
      outputs := outputs[1..];
      match outcome {
        case WritePending => return Pending;
        case WriteFailed => return Failed;
        case Take(n) =>
          var taken := Min(n, |src|);
          wire := wire + src[..taken];
          return Ready(taken);
      }
    }

    method PollFlush() returns (r: FlushOutcome)
      modifies this`flushes
      ensures r == NextOutcome(old(flushes)) && flushes == Tail(old(flushes))
    {
      r, flushes := NextOutcome(flushes), Tail(flushes);
    }

    method PollShutdown() returns (r: FlushOutcome)
      modifies this`shutdowns
      ensures r == NextOutcome(old(shutdowns)) && shutdowns == Tail(old(shutdowns))
    {
      r, shutdowns := NextOutcome(shutdowns), Tail(shutdowns);
    }
  }

  function Tail<T>(s: seq<T>): seq<T> { if s == [] then [] else s[1..] }

  function NextOutcome(s: seq<FlushOutcome>): FlushOutcome { if s == [] then FlushPending else s[0] }

  // ---------------------------------------------------------------- reading, on values

  /** The reading half of a transport as a value. */
  datatype View = View(eof: bool, readable: bool, next: nat, buf: Bytes, room: Room, inputs: seq<ReadOutcome>)

  /** What a poll returns: an item or a decode error, an I/O error, the end, or nothing yet. */
  datatype Polled = Yield(item: Item) | IoError | End | NotYet

  /** All bytes this transport has still to decode: buffered, then to come. */
  function Ahead(v: View): Bytes { v.buf + if v.eof then [] else Remaining(v.inputs) }

  predicate ViewOk(v: View) { IndexOk(v.next, v.buf) && (v.eof ==> v.readable) }

  /** The next decode rejects the buffer. */
  predicate Stuck(c: Config, v: View) { v.readable && Decode(c, v.next, v.buf).item == Some(TooLong) }

  predicate Ended(c: Config, v: View) { v.eof && Items(c, v.buf) == [] }

  predicate EofAhead(v: View) { v.eof || HasEof(v.inputs) }

  /** Nothing can be decoded from the bytes received so far. */
  predicate Drained(c: Config, v: View) { !v.eof && NoLf(v.buf) && !Overlong(c, v.buf) }

  /** True of every transport that started with an empty buffer, or has read anything since. */
  predicate Settled(c: Config, v: View) { v.readable || Drained(c, v) }

  /** What one poll may do: it takes the next item off the meaning of the bytes ahead, or leaves
      that meaning alone; it reports "not yet" or an I/O error only with nothing left to decode. */
  predicate PollOk(c: Config, v: View, r: Polled, w: View) {
    && ViewOk(w)
    && (EofAhead(v) ==> EofAhead(w))
    && |w.inputs| <= |v.inputs|
    && (Stuck(c, v) ==> r == Yield(TooLong))
    && (Ended(c, v) ==> r == End)
    && (Settled(c, v) ==> Settled(c, w))
    && match r
       case Yield(item) =>
         if item == TooLong then
           Stuck(c, w) && Ahead(w) == Ahead(v) && Items(c, Ahead(v)) == [TooLong]
         else
           |Ahead(w)| < |Ahead(v)| && Items(c, Ahead(v)) == [item] + Items(c, Ahead(w))
       case End => Ended(c, w) && Items(c, Ahead(v)) == []
       case IoError => NothingDecoded(c, v, w) && |w.inputs| < |v.inputs|
       case NotYet => NothingDecoded(c, v, w) && (|w.inputs| < |v.inputs| || w.inputs == [])
  }

  predicate NothingDecoded(c: Config, v: View, w: View) {
    Ahead(w) == Ahead(v) && !w.eof && (Settled(c, v) ==> Drained(c, w))
  }

  /** The room that the transport makes before a read or a write. */
  function MakeRoom(room: Room): (r: Room)
    ensures r.spare >= LW
  {
    if room.spare < LW then Reserved(room, HW - room.spare) else room
  }

  /** One attempt to read into the room made: the answer, if it ends the poll, and what is left. */
  function ReadStep(v: View): (Option<Polled>, View) {
    var w := v.(room := MakeRoom(v.room));
    if v.inputs == [] then (Some(NotYet), w)
    else match v.inputs[0]
      case ReadPending => (Some(NotYet), w.(inputs := v.inputs[1..]))
      case ReadFailed => (Some(IoError), w.(inputs := v.inputs[1..]))
      case Chunk(bytes) =>
        var n := Min(|bytes|, w.room.spare);
        var left := w.room.(spare := w.room.spare - n);
        (None, View(v.eof || n == 0, true, v.next, v.buf + bytes[..n], left, AfterTake(v.inputs, n)))
  }

  /** What can be decoded from the buffer as it is. */
  function DecodeStep(c: Config, v: View): Decoded {
    if v.eof then DecodeEof(c, v.next, v.buf) else Decode(c, v.next, v.buf)
  }

  /** One poll of the reading half, on values. */
  function PollStep(c: Config, v: View): (Polled, View)
    decreases ReadWork(v.inputs)
  {
    var d := DecodeStep(c, v);
    var w := v.(next := d.next, buf := d.rest);
    if v.readable && d.item.Some? then (Yield(d.item.value), w)
    else if v.readable && v.eof then (End, w)
    else
      var r := ReadStep(if v.readable then w.(readable := false) else v);
      if r.0.Some? then (r.0.value, r.1)
      else
        TakeWork(v.inputs, r.1.inputs);
        PollStep(c, r.1)
  }

  lemma TakeWork(inputs: seq<ReadOutcome>, left: seq<ReadOutcome>)
    requires inputs != [] && inputs[0].Chunk?
    requires exists n ::
               0 <= n <= |inputs[0].bytes| && (n == 0 ==> inputs[0].bytes == []) && left == AfterTake(inputs, n)
    ensures ReadWork(left) < ReadWork(inputs)
  {
    var n :| 0 <= n <= |inputs[0].bytes| && (n == 0 ==> inputs[0].bytes == []) && left == AfterTake(inputs, n);
    if n > 0 { TakeChunk(inputs, n); }
  }

  // ---------------------------------------------------------------- writing, on values

  datatype Flushed = FlushedAll | FlushNotYet | FlushIoError | WriteZero

  /** The writing half of a transport as a value: what the I/O object took, what is still buffered,
      and the outcomes the I/O object has in store. */
  datatype Sink = Sink(wire: Bytes, buf: Bytes, outputs: seq<WriteOutcome>, flushes: seq<FlushOutcome>)

  function Min(a: nat, b: nat): nat { if a < b then a else b }

  /** A flush: writes while there is something to write, then flushes the I/O object. */
  function FlushStep(s: Sink): (Flushed, Sink)
    decreases |s.outputs|
  {
    if s.buf == [] then
      if s.flushes == [] then (FlushNotYet, s)
      else (match s.flushes[0]
            case FlushDone => FlushedAll
            case FlushPending => FlushNotYet
            case FlushFailed => FlushIoError, s.(flushes := s.flushes[1..]))
    else if s.outputs == [] then (FlushNotYet, s)
    else
      var rest := s.(outputs := s.outputs[1..]);
      match s.outputs[0]
      case WritePending => (FlushNotYet, rest)
      case WriteFailed => (FlushIoError, rest)
      case Take(n) =>
        var taken := Min(n, |s.buf|);
        if taken == 0 then (WriteZero, rest)
        else FlushStep(rest.(wire := s.wire + s.buf[..taken], buf := s.buf[taken..]))
  }

  function ReadyStep(s: Sink): (Flushed, Sink) {
    if |s.buf| < HW then (FlushedAll, s) else FlushStep(s)
  }

  // ---------------------------------------------------------------- the transport

  class Framed {
    const io: Io
    const codec: LinesCodec
    const readBuf: BytesMut
    const writeBuf: BytesMut
    var eof: bool
    var readable: bool

    /** The buffers of a transport are its own. */
    ghost predicate Valid()
      reads this, readBuf, writeBuf
    {
      readBuf != writeBuf && readBuf.Valid() && writeBuf.Valid()
    }

    ghost function ReadView(): View
      requires readBuf.Valid()
      reads this, io, codec, readBuf
    {
      View(eof, readable, codec.nextIndex, readBuf.data, readBuf.Space(), io.inputs)
    }

    /** `new`, with any codec, also one that was used before. */
    constructor (io: Io, codec: LinesCodec, slack: seq<nat>)
      ensures Valid() && this.io == io && this.codec == codec && fresh(readBuf) && fresh(writeBuf)
      ensures ReadView() == View(false, false, codec.nextIndex, [], Room(HW, slack), io.inputs) && writeBuf.data == []
    {
      this.io, this.codec := io, codec;
      eof, readable := false, false;
      readBuf := new BytesMut([], HW, slack);
      writeBuf := new BytesMut([], HW, slack);
    }

    /** `from_parts`: the parts keep the buffers and the flags of the transport they were taken from;
        parts that are newly made have no flags. */
    constructor FromParts(io: Io, codec: LinesCodec, readBuf: BytesMut, writeBuf: BytesMut, eof: bool, readable: bool)
      requires readBuf != writeBuf && readBuf.Valid() && writeBuf.Valid()
      ensures Valid() && this.io == io && this.codec == codec
      ensures this.readBuf == readBuf && this.writeBuf == writeBuf
      ensures ReadView() == View(eof, readable, codec.nextIndex, readBuf.data, readBuf.Space(), io.inputs)
    {
      this.io, this.codec, this.readBuf, this.writeBuf := io, codec, readBuf, writeBuf;
      this.eof, this.readable := eof, readable;
    }

    /** Repeatedly decodes what is buffered and reads more, until there is something to report. */
    method NextItem() returns (r: Polled)
      requires Valid()
      modifies this`eof, this`readable, codec`nextIndex, readBuf, io`inputs
      ensures Valid()
      ensures (r, ReadView()) == PollStep(codec.config, old(ReadView()))
    {
      ghost var v := ReadView();
      while true
        invariant Valid()
        invariant PollStep(codec.config, ReadView()) == PollStep(codec.config, v)
        decreases ReadWork(io.inputs)
      {
        ghost var w := ReadView();
        if readable {
          if eof {
            var last := codec.DecodeEofStep(readBuf);
            return if last.Some? then Yield(last.value) else End;
          }
          var item := codec.DecodeStep(readBuf);
          if item.Some? { return Yield(item.value); }
          readable := false;
        }
        ghost var x := ReadView();
        var stalled := ReadMore();
        if stalled.Some? { return stalled.value; }
        TakeWork(x.inputs, io.inputs);
      }
    }

    /** The reading half: makes room, reads once, and sets the flags. The room made is never zero,
        so a read of zero bytes can only mean the end of the stream. */
    method ReadMore() returns (r: Option<Polled>)
      requires Valid() && !readable
      modifies this`eof, this`readable, readBuf, io`inputs
      ensures Valid() && codec.nextIndex == old(codec.nextIndex)
      ensures (r, ReadView()) == ReadStep(old(ReadView()))
    {
      var remaining := readBuf.capacity - |readBuf.data|;
      if remaining < LW { readBuf.Reserve(HW - remaining); }
      var cnt := io.PollRead(readBuf);
      match cnt {
        case Pending => return Some(NotYet);
        case Failed => return Some(IoError);
        case Ready(n) =>
          if n == 0 { eof := true; }
          readable := true;
          return None;
      }
    }

    /** Serializes an item into the write buffer. */
    method Write(item: Bytes)
      requires Valid()
      modifies writeBuf
      ensures Valid() && writeBuf.data == old(writeBuf.data) + item + [LF]
    {
      var remaining := writeBuf.capacity - |writeBuf.data|;
      if remaining < LW { writeBuf.Reserve(HW - remaining); }
      codec.EncodeItem(item, writeBuf);
    }

    ghost function SinkView(): Sink
      reads this, io, writeBuf
    {
      Sink(io.wire, writeBuf.data, io.outputs, io.flushes)
    }

    method Flush() returns (r: Flushed)
      requires Valid()
      modifies writeBuf, io`outputs, io`flushes, io`wire
      ensures Valid()
      ensures (r, SinkView()) == FlushStep(old(SinkView()))
    {
      while writeBuf.data != []
        invariant Valid()
        invariant FlushStep(SinkView()) == FlushStep(old(SinkView()))
        decreases |writeBuf.data|
      {
        ghost var wire := io.wire;
        var n := io.PollWrite(writeBuf.data);
        if n.Pending? { return FlushNotYet; }
        if n.Failed? { return FlushIoError; }
        if n.n == 0 {
          assert io.wire == wire;
          return WriteZero;
        }
        writeBuf.Advance(n.n);
      }
      var done := io.PollFlush();
      match done {
        case FlushDone => return FlushedAll;
        case FlushPending => return FlushNotYet;
        case FlushFailed => return FlushIoError;
      }
    }

    /** The sink half: ready below the high-water mark, otherwise after a complete flush. */
    method PollReady() returns (r: Flushed)
      requires Valid()
      modifies writeBuf, io`outputs, io`flushes, io`wire
      ensures Valid()
      ensures (r, SinkView()) == ReadyStep(old(SinkView()))
      ensures (r, SinkView()) == if |old(writeBuf.data)| < HW then (FlushedAll, old(SinkView()))
                                 else FlushStep(old(SinkView()))
    {
      if |writeBuf.data| < HW { return FlushedAll; }
      r := Flush();
    }

    /** `close` flushes the I/O object and shuts it down, but leaves the write buffer as it is. */
    method Close() returns (r: FlushOutcome)
      requires Valid()
      modifies io`flushes, io`shutdowns
      ensures Valid() && writeBuf.data == old(writeBuf.data) && io.wire == old(io.wire)
      ensures io.flushes == Tail(old(io.flushes))
      ensures if NextOutcome(old(io.flushes)) == FlushDone
              then r == NextOutcome(old(io.shutdowns)) && io.shutdowns == Tail(old(io.shutdowns))
              else r == NextOutcome(old(io.flushes)) && io.shutdowns == old(io.shutdowns)
    {
      r := io.PollFlush();
      if r != FlushDone { return; }
      r := io.PollShutdown();
    }
  }

  // ---------------------------------------------------------------- a poll against the one-shot reading

  /** What holds at the head of the read loop: nothing was decoded since the poll began. */
  predicate Reading(c: Config, v: View, w: View) {
    && ViewOk(v) && ViewOk(w)
    && Ahead(w) == Ahead(v)
    && (EofAhead(v) ==> EofAhead(w))
    && |w.inputs| <= |v.inputs|
    && (Stuck(c, v) ==> w == v)
    && (v.eof ==> w == v)
    && (Settled(c, v) ==> Settled(c, w))
  }

  lemma EofPoll(c: Config, v: View, w: View, x: View)
    requires Reading(c, v, w) && w.eof
    requires x.eof && x.readable && x.inputs == w.inputs
    requires var d := DecodeEof(c, w.next, w.buf); d.next == x.next && d.rest == x.buf
    ensures var item := DecodeEof(c, w.next, w.buf).item;
            PollOk(c, v, if item.Some? then Yield(item.value) else End, x)
  {
    DecodeEofKeepsItems(c, w.next, w.buf);
    assert Ahead(w) == w.buf && Ahead(x) == x.buf;
  }

  lemma DataPoll(c: Config, v: View, w: View, x: View)
    requires Reading(c, v, w) && w.readable && !w.eof
    requires !x.eof && x.readable && x.inputs == w.inputs
    requires var d := Decode(c, w.next, w.buf); d.next == x.next && d.rest == x.buf
    ensures var item := Decode(c, w.next, w.buf).item;
            if item.Some? then PollOk(c, v, Yield(item.value), x)
            else Reading(c, v, x.(readable := false)) && Drained(c, x) && !Stuck(c, v)
  {
    DecodeKeepsItems(c, w.next, w.buf, Remaining(w.inputs));
    IndexSurvives(w.next, w.buf, []);
  }

  lemma NoRead(c: Config, v: View, w: View, x: View)
    requires Reading(c, v, w) && !w.eof && !w.readable
    requires w.inputs == [] || !w.inputs[0].Chunk?
    requires x == w.(room := x.room, inputs := Tail(w.inputs))
    ensures PollOk(c, v, NotYet, x)
    ensures w.inputs != [] ==> PollOk(c, v, IoError, x)
  {
    if w.inputs != [] { HasEofTail(w.inputs); }
  }

  lemma HasEofTail(inputs: seq<ReadOutcome>)
    requires inputs != [] && inputs[0] != Chunk([])
    ensures HasEof(inputs) ==> HasEof(inputs[1..])
  {
    if k :| 0 <= k < |inputs| && inputs[k] == Chunk([]) { assert inputs[1..][k - 1] == Chunk([]); }
  }

  /** The script left after taking `n` bytes of its first chunk. */
  function AfterTake(inputs: seq<ReadOutcome>, n: nat): seq<ReadOutcome>
    requires inputs != [] && inputs[0].Chunk? && n <= |inputs[0].bytes|
  {
    if n == |inputs[0].bytes| then inputs[1..] else inputs[0 := Chunk(inputs[0].bytes[n..])]
  }

  lemma TakeChunk(inputs: seq<ReadOutcome>, n: nat)
    requires inputs != [] && inputs[0].Chunk? && 0 < n <= |inputs[0].bytes|
    ensures Remaining(inputs) == inputs[0].bytes[..n] + Remaining(AfterTake(inputs, n))
    ensures ReadWork(AfterTake(inputs, n)) < ReadWork(inputs)
  {
    var chunk := inputs[0].bytes;
    if n < |chunk| {
      var left := AfterTake(inputs, n);
      assert left[1..] == inputs[1..];
      Assoc(chunk[..n], chunk[n..], Remaining(inputs[1..]));
      assert chunk[..n] + chunk[n..] == chunk;
    }
  }

  lemma TakeKeepsEof(inputs: seq<ReadOutcome>, n: nat)
    requires inputs != [] && inputs[0].Chunk? && 0 < n <= |inputs[0].bytes|
    ensures HasEof(inputs) ==> HasEof(AfterTake(inputs, n))
  {
    if k :| 0 <= k < |inputs| && inputs[k] == Chunk([]) {
      if n < |inputs[0].bytes| { assert AfterTake(inputs, n)[k] == Chunk([]); }
      else { HasEofTail(inputs); }
    }
  }

  /** What a read of `n` bytes makes of a transport. */
  predicate IsRead(w: View, n: nat, x: View) {
    && w.inputs != [] && w.inputs[0].Chunk? && n <= |w.inputs[0].bytes|
    && (n == 0 <==> w.inputs[0].bytes == [])
    && x.buf == w.buf + w.inputs[0].bytes[..n]
    && x.inputs == AfterTake(w.inputs, n)
    && x.eof == (n == 0) && x.readable && x.next == w.next
  }

  /** Reading moves bytes from ahead of the buffer into it and changes nothing else. */
  lemma ReadKeepsAhead(w: View, n: nat, x: View)
    requires !w.eof && IsRead(w, n, x)
    ensures Ahead(x) == Ahead(w)
    ensures EofAhead(w) ==> EofAhead(x)
    ensures |x.inputs| <= |w.inputs| && ReadWork(x.inputs) < ReadWork(w.inputs)
  {
    if n > 0 {
      TakeChunk(w.inputs, n);
      TakeKeepsEof(w.inputs, n);
      Assoc(w.buf, w.inputs[0].bytes[..n], Remaining(x.inputs));
    } else {
      assert Remaining(w.inputs) == [];
    }
  }

  lemma ReadSome(c: Config, v: View, w: View, n: nat, x: View)
    requires Reading(c, v, w) && !w.eof && !w.readable && IsRead(w, n, x)
    ensures Reading(c, v, x) && ReadWork(x.inputs) < ReadWork(w.inputs)
  {
    ReadKeepsAhead(w, n, x);
    IndexSurvives(w.next, w.buf, w.inputs[0].bytes[..n]);
  }

  lemma {:induction false} PollFrom(c: Config, v: View, w: View)
    requires Reading(c, v, w)
    ensures var (r, x) := PollStep(c, w); PollOk(c, v, r, x)
    decreases ReadWork(w.inputs)
  {
    var d := DecodeStep(c, w);
    var x := w.(next := d.next, buf := d.rest);
    if w.readable && w.eof {
      EofPoll(c, v, w, x);
    } else {
      var base := w;
      if w.readable {
        DataPoll(c, v, w, x);
        base := x.(readable := false);
      }
      if !(w.readable && d.item.Some?) {
        var r := ReadStep(base);
        if r.0.Some? {
          NoRead(c, v, base, r.1);
        } else {
          ReadSome(c, v, base, Min(|base.inputs[0].bytes|, MakeRoom(base.room).spare), r.1);
          PollFrom(c, v, r.1);
        }
      }
    }
  }

  /** One poll takes the next item off the one-shot reading of all bytes, buffered and to come, or
      leaves that reading alone, whatever the allocator does. */
  lemma PollKeepsItems(c: Config, v: View)
    requires ViewOk(v)
    ensures var (r, w) := PollStep(c, v); PollOk(c, v, r, w)
  {
    PollFrom(c, v, v);
  }

  // ---------------------------------------------------------------- what a poll reports, by the outcomes it used up

  /** The outcome that was used up last on the way from one script to what is left of it. */
  function LastUsed(before: seq<ReadOutcome>, after: seq<ReadOutcome>): Option<ReadOutcome> {
    if |after| < |before| then Some(before[|before| - |after| - 1]) else None
  }

  function Failures(inputs: seq<ReadOutcome>): nat {
    if inputs == [] then 0 else (if inputs[0].ReadFailed? then 1 else 0) + Failures(inputs[1..])
  }

  /** A poll of any transport hands out an item or the end exactly if it leaves the transport readable.
      It reports an I/O error exactly if the last outcome it used up was a failure, and "not yet"
      exactly if that was pending or the script had run out. No failure goes unreported. */
  lemma {:induction false} PollReports(c: Config, v: View)
    ensures var (r, w) := PollStep(c, v);
            && |w.inputs| <= |v.inputs|
            && (r.Yield? || r == End <==> w.readable)
            && var last := LastUsed(v.inputs, w.inputs);
               && (r == IoError <==> last == Some(ReadFailed))
               && (r == NotYet <==>
                     last == Some(ReadPending) || (!w.readable && w.inputs == [] && last != Some(ReadFailed)))
               && Failures(v.inputs) == Failures(w.inputs) + if r == IoError then 1 else 0
    decreases ReadWork(v.inputs)
  {
    var d := DecodeStep(c, v);
    if !(v.readable && (d.item.Some? || v.eof)) {
      var w := v.(next := d.next, buf := d.rest);
      var base := if v.readable then w.(readable := false) else v;
      var r := ReadStep(base);
      if r.0.None? {
        TakeWork(v.inputs, r.1.inputs);
        PollReports(c, r.1);
        TakenScript(v.inputs, r.1.inputs, PollStep(c, r.1).1.inputs);
      }
    }
  }

  /** Taking bytes of a chunk uses up no failure and nothing pending. */
  lemma TakenScript(inputs: seq<ReadOutcome>, left: seq<ReadOutcome>, after: seq<ReadOutcome>)
    requires inputs != [] && inputs[0].Chunk? && |after| <= |left|
    requires exists n :: 0 <= n <= |inputs[0].bytes| && left == AfterTake(inputs, n)
    ensures |left| <= |inputs| && Failures(left) == Failures(inputs)
    ensures LastUsed(inputs, after) == LastUsed(left, after)
            || (LastUsed(left, after).None? && LastUsed(inputs, after).value.Chunk?)
            || (LastUsed(inputs, after).Some? && LastUsed(inputs, after).value.Chunk?
                && LastUsed(left, after).Some? && LastUsed(left, after).value.Chunk?)
  {
    var n :| 0 <= n <= |inputs[0].bytes| && left == AfterTake(inputs, n);
    if n < |inputs[0].bytes| { assert left[1..] == inputs[1..]; }
  }

  // ---------------------------------------------------------------- "not yet" with an item at hand

  /** A poll that may report "not yet" or an I/O error before it looks at the buffer. */
  predicate LooksAway(v: View) { !v.readable && (v.inputs == [] || !v.inputs[0].Chunk?) }

  /** A poll reports "not yet" or an I/O error although an item can be decoded from the buffer exactly
      if the transport is not marked readable and the next read brings no bytes. Such a transport
      comes from newly made parts with a buffer. */
  lemma NotYetWithAnItemIff(c: Config, v: View)
    requires ViewOk(v) && DecodeStep(c, v).item.Some?
    ensures PollStep(c, v).0 in {NotYet, IoError} <==> LooksAway(v)
    ensures !v.readable ==> !Drained(c, v)
  {
    IndexSurvives(v.next, v.buf, []);
    if !v.readable && !LooksAway(v) {
      var (r, w) := ReadStep(v);
      var bytes := v.inputs[0].bytes[..Min(|v.inputs[0].bytes|, MakeRoom(v.room).spare)];
      MoreStillDecodes(c, v.next, v.buf, bytes);
      assert w.buf == v.buf + bytes;
    }
  }

  /** An item that can be decoded can still be decoded when bytes are appended. */
  lemma MoreStillDecodes(c: Config, next: nat, b: Bytes, more: Bytes)
    requires IndexOk(next, b) && Decode(c, next, b).item.Some?
    ensures Decode(c, next, b + more).item.Some? && DecodeEof(c, next, b + more).item.Some?
  {
    DecodeFromGoodIndex(c, next, b);
    IndexSurvives(next, b, more);
    DecodeFromGoodIndex(c, next, b + more);
    FindLfPrefix(b, more);
    if FindLf(b, 0) == |b| && FindLf(b + more, 0) == |b + more| {
      OverlongGrows(c, b, more);
    } else if FindLf(b, 0) == |b| {
      var i := FindLf(b + more, 0);
      OverlongGrows(c, b, (b + more)[|b|..i]);
    }
  }
}
