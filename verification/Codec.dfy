/** The lines codec as the source writes it: a struct that keeps a scan index and works on a
    caller's buffer in place. Each method is proved against the functions of module `Lines`. */
module Codec {
  import opened Lines
  import opened Options

  /** The room in a buffer: what is there, and how much more than asked for the allocator will give
      at each growth to come. */
  datatype Room = Room(spare: nat, slack: seq<nat>)

  /** The room after a request for `additional` bytes. */
  function Reserved(room: Room, additional: nat): (r: Room)
    ensures r.spare >= additional && r.spare >= room.spare
  {
    if room.spare >= additional then room
    else if room.slack == [] then Room(additional, [])
    else Room(additional + room.slack[0], room.slack[1..])
  }

  /** A growable byte buffer (`bytes::BytesMut`): its contents, and how much it can hold. */
  class BytesMut {
    var data: Bytes
    var capacity: nat
    var slack: seq<nat>

    ghost predicate Valid() reads this { |data| <= capacity }

    ghost function Space(): Room
      requires Valid()
      reads this
    {
      Room(capacity - |data|, slack)
    }

    constructor (data: Bytes, capacity: nat, slack: seq<nat>)
      requires |data| <= capacity
      ensures Valid() && this.data == data && this.capacity == capacity && this.slack == slack
    {
      this.data, this.capacity, this.slack := data, capacity, slack;
    }

    /** Makes room for at least `additional` more bytes. */
    method Reserve(additional: nat)
      requires Valid()
      modifies this
      ensures Valid() && data == old(data) && Space() == Reserved(old(Space()), additional)
    {
      if capacity - |data| < additional {
        capacity := |data| + additional;
        if slack != [] { capacity, slack := capacity + slack[0], slack[1..]; }
      }
    }

    method PutSlice(bytes: Bytes)
      requires Valid()
      modifies this
      ensures Valid() && data == old(data) + bytes
      ensures var r := Reserved(old(Space()), |bytes|); Space() == Room(r.spare - |bytes|, r.slack)
    {
      Reserve(|bytes|);
      data := data + bytes;
    }

    /** Cuts the first `n` bytes off the buffer and returns them. */
    method SplitTo(n: nat) returns (front: Bytes)
      requires Valid() && n <= |data|
      modifies this
      ensures Valid() && front == old(data)[..n] && data == old(data)[n..] && Space() == old(Space())
    {
      front := data[..n];
      data, capacity := data[n..], capacity - n;
    }

    method Advance(n: nat)
      requires Valid() && n <= |data|
      modifies this
      ensures Valid() && data == old(data)[n..] && Space() == old(Space())
    {
      data, capacity := data[n..], capacity - n;
    }
  }

  /** `memchr`: the first occurrence of a byte, found by a loop. */
  method Memchr(needle: byte, haystack: Bytes) returns (r: Option<nat>)
    ensures r.Some? ==> r.value < |haystack| && haystack[r.value] == needle
    ensures forall k :: 0 <= k < (if r.Some? then r.value else |haystack|) ==> haystack[k] != needle
  {
    for i := 0 to |haystack|
      invariant forall k :: 0 <= k < i ==> haystack[k] != needle
    {
      if haystack[i] == needle { return Some(i); }
    }
    return None;
  }

  /** `memchr` on the part of a buffer that starts at `start`, as a position in the whole buffer. */
  method ScanFrom(b: Bytes, start: nat) returns (r: Option<nat>)
    requires start <= |b|
    ensures (if r.Some? then r.value else |b|) == FindLf(b, start)
    ensures r.Some? ==> r.value < |b|
  {
    var n := Memchr(LF, b[start..]);
    r := if n.Some? then Some(start + n.value) else None;
    var end := if r.Some? then r.value else |b|;
    forall k | start <= k < end ensures b[k] != LF { assert b[start..][k - start] == b[k]; }
    FindLfIs(b, start, end);
  }

  class LinesCodec {
    const config: Config
    var nextIndex: nat

    constructor (config: Config)
      ensures this.config == config && nextIndex == 0
    {
      this.config, nextIndex := config, 0;
    }

    method EncodeItem(item: Bytes, dst: BytesMut)
      requires dst.Valid()
      modifies dst
      ensures dst.Valid() && dst.data == old(dst.data) + item + [LF]
    {
      dst.Reserve(|item| + 1);
      dst.PutSlice(item);
      dst.PutSlice([LF]);
    }

    /** The length test of the source, with its saturating addition written out. */
    method ExceedsLimit(line: Bytes) returns (r: bool)
      ensures r <==> !Within(config, if EndsInCr(line) then |line| - 1 else |line|)
      ensures r <==> Overlong(config, line)
    {
      var max := config.maxLength;
      if max == USIZE_MAX { return false; }
      var maxCr := if max + 1 > USIZE_MAX then USIZE_MAX else max + 1;
      return |line| > max && !(|line| == maxCr && line[|line| - 1] == CR);
    }

    /** No precondition ties the index to the buffer: a caller may have replaced it. */
    method DecodeStep(src: BytesMut) returns (item: Option<Item>)
      requires src.Valid()
      modifies this`nextIndex, src
      ensures src.Valid() && src.Space() == old(src.Space())
      ensures Decoded(item, nextIndex, src.data) == Decode(config, old(nextIndex), old(src.data))
    {
      if src.data == [] {
        nextIndex := 0;
        return None;
      }
      var start := if nextIndex < |src.data| then nextIndex else 0;
      var found := ScanFrom(src.data, start);
      if found.None? {
        var reject := ExceedsLimit(src.data);
        if reject { return Some(TooLong); }
        nextIndex := |src.data|;
        return None;
      }
      var len := found.value;
      var reject := ExceedsLimit(src.data[..len]);
      if reject { return Some(TooLong); }
      nextIndex := 0;
      var buf := src.SplitTo(len);
      src.Advance(1);
      if buf == [] { return Some(Frame([])); }
      if buf[len - 1] == CR { buf := buf[..len - 1]; }
      item := Some(if config.utf8(buf) then Frame(buf) else BadUtf8);
    }

    method DecodeEofStep(src: BytesMut) returns (item: Option<Item>)
      requires src.Valid()
      modifies this`nextIndex, src
      ensures src.Valid() && src.Space() == old(src.Space())
      ensures Decoded(item, nextIndex, src.data) == DecodeEof(config, old(nextIndex), old(src.data))
    {
      ghost var b := src.data;
      item := DecodeStep(src);
      if item.Some? || src.data == [] { return; }
      nextIndex := 0;
      var keep := if src.data[|src.data| - 1] == CR then 1 else 0;
      var buf := src.SplitTo(|src.data| - keep);
      assert buf == StripCr(b) && src.data == b[|StripCr(b)|..];
      if buf == [] { return None; }
      item := Some(if config.utf8(buf) then Frame(buf) else BadUtf8);
    }
  }
}
