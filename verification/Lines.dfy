/** The line format of actix-codec: what a byte stream means as a sequence of lines, and the two
    decoding functions of the lines codec as functions on values.

    `Items` is the reference: it looks at the whole stream at once, with no buffer, no scan index
    and no early rejection. */
module Lines {
  import opened Options

  newtype byte = x: int | 0 <= x < 256

  type Bytes = seq<byte>

  const LF: byte := 10
  const CR: byte := 13

  /** `usize::MAX` on a 64-bit target; as a maximum length it means that there is no limit. */
  const USIZE_MAX: nat := 0xFFFF_FFFF_FFFF_FFFF

  type usize = x: nat | x <= USIZE_MAX

  /** A UTF-8 validator. Validation itself belongs to the Rust standard library; all that is used
      of it is that the empty string is valid. */
  type Validator = f: Bytes -> bool | f([]) witness (b => true)

  /** The configuration of a lines codec, which never changes. */
  datatype Config = Config(maxLength: usize, utf8: Validator)

  /** What a decoder hands out for one line. The last two are the two decode errors. */
  datatype Item = Frame(text: Bytes) | BadUtf8 | TooLong

  predicate NoLf(s: Bytes) { forall k :: 0 <= k < |s| ==> s[k] != LF }

  /** The position of the first LF at or after `start`, or the length if there is none. */
  function FindLf(s: Bytes, start: nat): (i: nat)
    requires start <= |s|
    ensures start <= i <= |s|
    ensures i < |s| ==> s[i] == LF
    ensures forall k :: start <= k < i ==> s[k] != LF
    decreases |s| - start
  {
    if start == |s| || s[start] == LF then start else FindLf(s, start + 1)
  }

  predicate EndsInCr(line: Bytes) { line != [] && line[|line| - 1] == CR }

  /** A length that the codec allows. */
  predicate Within(c: Config, n: nat) { c.maxLength == USIZE_MAX || n <= c.maxLength }

  function StripCr(line: Bytes): Bytes {
    if line != [] && line[|line| - 1] == CR then line[..|line| - 1] else line
  }

  /** The documented limit: it counts the bytes before the delimiter without one trailing CR. */
  predicate Overlong(c: Config, line: Bytes) {
    c.maxLength != USIZE_MAX && |StripCr(line)| > c.maxLength
  }

  function ItemOf(c: Config, line: Bytes): Item {
    if Overlong(c, line) then TooLong
    else if c.utf8(StripCr(line)) then Frame(StripCr(line))
    else BadUtf8
  }

  /** The meaning of a whole stream: split on LF, strip one CR from each line, drop an empty tail,
      and stop at the first overlong line. */
  function Items(c: Config, s: Bytes): seq<Item>
    decreases |s|
  {
    var i := FindLf(s, 0);
    if i < |s| then
      var item := ItemOf(c, s[..i]);
      if item.TooLong? then [TooLong] else [item] + Items(c, s[i + 1..])
    else if StripCr(s) == [] then []
    else [ItemOf(c, s)]
  }

  // ---------------------------------------------------------------- decoding, on values

  /** One decode: the item if there was one, the new scan index, and the bytes left. */
  datatype Decoded = Decoded(item: Option<Item>, next: nat, rest: Bytes)

  function ScanStart(next: nat, b: Bytes): (start: nat)
    ensures start <= |b|
  {
    if next < |b| then next else 0
  }

  function Decode(c: Config, next: nat, b: Bytes): (d: Decoded)
    ensures d.item.None? ==> d.rest == b
    ensures d.item.Some? && d.item != Some(TooLong) ==> |d.rest| < |b|
  {
    var i := FindLf(b, ScanStart(next, b));
    if i == |b| then
      if Overlong(c, b) then Decoded(Some(TooLong), next, b) else Decoded(None, |b|, b)
    else if Overlong(c, b[..i]) then Decoded(Some(TooLong), next, b)
    else Decoded(Some(ItemOf(c, b[..i])), 0, b[i + 1..])
  }

  function DecodeEof(c: Config, next: nat, b: Bytes): Decoded {
    var d := Decode(c, next, b);
    if d.item.Some? || b == [] then d
    else Decoded(if StripCr(b) == [] then None else Some(ItemOf(c, b)), 0, b[|StripCr(b)|..])
  }

  /** The scan index is consistent with a buffer: nothing before it is an LF. */
  predicate CacheOk(next: nat, b: Bytes) {
    NoLf(b[..ScanStart(next, b)])
  }

  /** A decode from the index is not misled: the index skips no LF, or the first line is too long. */
  predicate SameDecode(c: Config, next: nat, b: Bytes) {
    CacheOk(next, b) || Overlong(c, b[..FindLf(b, 0)])
  }

  /** Consistent with a buffer that may still grow: an index past its end would start to count. */
  predicate IndexOk(next: nat, b: Bytes) {
    next <= |b| && NoLf(b[..next])
  }

  // ---------------------------------------------------------------- finding an LF

  lemma FindLfIs(s: Bytes, start: nat, i: nat)
    requires start <= i <= |s|
    requires i < |s| ==> s[i] == LF
    requires forall k :: start <= k < i ==> s[k] != LF
    ensures FindLf(s, start) == i
  {
    var j := FindLf(s, start);
    assert !(j < i) && !(i < j);
  }

  /** The stored scan index finds the same LF as a fresh scan exactly when nothing was skipped. */
  lemma CacheIsTransparentIff(next: nat, b: Bytes)
    ensures CacheOk(next, b) <==> FindLf(b, ScanStart(next, b)) == FindLf(b, 0)
  {
    var start := ScanStart(next, b);
    var i := FindLf(b, 0);
    if CacheOk(next, b) {
      forall k | 0 <= k < start ensures b[k] != LF { assert b[..start][k] == b[k]; }
      FindLfIs(b, 0, FindLf(b, start));
    }
  }

  /** A first LF is still the first LF when bytes are appended. */
  lemma FindLfPrefix(b: Bytes, more: Bytes)
    ensures FindLf(b, 0) < |b| ==> FindLf(b + more, 0) == FindLf(b, 0)
    ensures FindLf(b, 0) == |b| ==> FindLf(b + more, 0) >= |b|
  {
    var i := FindLf(b, 0);
    if i < |b| { FindLfIs(b + more, 0, i); }
  }

  // ---------------------------------------------------------------- early rejection

  /** A buffer without an LF is rejected exactly when every completion of its line is too long. */
  lemma EarlyRejectionIff(c: Config, b: Bytes)
    ensures Overlong(c, b) <==> forall rest: Bytes :: NoLf(rest) ==> Overlong(c, b + rest)
  {
    if Overlong(c, b) {
      forall rest: Bytes | NoLf(rest) ensures Overlong(c, b + rest) { OverlongGrows(c, b, rest); }
    } else {
      assert NoLf([]) && b + [] == b;
      assert !Overlong(c, b + []);
    }
  }

  lemma OverlongGrows(c: Config, b: Bytes, rest: Bytes)
    requires Overlong(c, b)
    ensures Overlong(c, b + rest)
  {
    if rest == [] { assert b + rest == b; }
  }

  /** After "need more" under a finite limit the buffer holds at most the limit and one CR. */
  lemma BufferBound(c: Config, next: nat, b: Bytes)
    requires c.maxLength != USIZE_MAX
    requires Decode(c, next, b).item.None?
    ensures |b| <= c.maxLength + 1
    ensures |b| == c.maxLength + 1 ==> b[|b| - 1] == CR
  {
  }

  // ---------------------------------------------------------------- what a line means, in bytes

  /** A text that the decoder can hand out. */
  predicate Readable(c: Config, text: Bytes) { NoLf(text) && Within(c, |text|) && c.utf8(text) }

  /** A text that does not end in CR may be ended by LF alone. */
  lemma LfEndsLine(c: Config, text: Bytes, rest: Bytes)
    requires Readable(c, text) && !EndsInCr(text)
    ensures Items(c, text + [LF] + rest) == [Frame(text)] + Items(c, rest)
  {
    TextOfLine(c, text, text, rest);
  }

  /** CR and LF end any text, and neither is part of it: of two CRs exactly one stays. */
  lemma CrLfEndsLine(c: Config, text: Bytes, rest: Bytes)
    requires Readable(c, text)
    ensures Items(c, text + [CR, LF] + rest) == [Frame(text)] + Items(c, rest)
  {
    CrIsStripped(text);
    TextOfLine(c, text + [CR], text, rest);
    JoinCrLf(text, rest);
  }

  lemma TextOfLine(c: Config, line: Bytes, text: Bytes, rest: Bytes)
    requires NoLf(line) && StripCr(line) == text && Readable(c, text)
    ensures Items(c, line + [LF] + rest) == [Frame(text)] + Items(c, rest)
  {
    LineThenRest(c, line, rest);
  }

  lemma JoinCrLf(text: Bytes, rest: Bytes)
    ensures text + [CR] + [LF] + rest == text + [CR, LF] + rest
  {
  }

  lemma CrIsStripped(text: Bytes)
    ensures StripCr(text + [CR]) == text
  {
    assert (text + [CR])[..|text|] == text;
  }

  /** A line without an LF of its own is one item, and what follows is read as before. */
  lemma LineThenRest(c: Config, line: Bytes, rest: Bytes)
    requires NoLf(line)
    ensures Items(c, line + [LF] + rest) ==
            if Overlong(c, line) then [TooLong] else [ItemOf(c, line)] + Items(c, rest)
  {
    var s := line + [LF] + rest;
    FindLfIs(s, 0, |line|);
    assert s[..|line|] == line && s[|line| + 1..] == rest;
  }

  /** The last line of a stream may lack its LF, and its CR as well; with neither text nor LF there is
      no line. */
  lemma LastLine(c: Config, text: Bytes)
    requires Readable(c, text)
    ensures Items(c, text + [CR]) == if text == [] then [] else [Frame(text)]
    ensures !EndsInCr(text) ==> Items(c, text) == if text == [] then [] else [Frame(text)]
  {
    CrIsStripped(text);
    FindLfIs(text, 0, |text|);
    FindLfIs(text + [CR], 0, |text| + 1);
  }

  /** A line, the last or not, is rejected if and only if its length without one trailing CR is above a
      finite limit; a line within the limit is malformed if and only if that text is no UTF-8. */
  lemma RejectedIff(c: Config, line: Bytes, rest: Bytes)
    requires NoLf(line)
    ensures var text := if EndsInCr(line) then line[..|line| - 1] else line;
            && (Items(c, line + [LF] + rest) == [TooLong] <==> !Within(c, |text|))
            && (Items(c, line) == [TooLong] <==> !Within(c, |text|))
            && (Within(c, |text|) && !c.utf8(text) <==> Items(c, line + [LF] + rest) == [BadUtf8] + Items(c, rest))
            && (Within(c, |text|) && !c.utf8(text) <==> Items(c, line) == [BadUtf8])
  {
    LineThenRest(c, line, rest);
    FindLfIs(line, 0, |line|);
    if !Overlong(c, line) {
      ConsIff(BadUtf8, Items(c, rest), Items(c, rest));
      assert Items(c, line + [LF] + rest)[0] == ItemOf(c, line);
    }
  }

  // ---------------------------------------------------------------- decoding against `Items`

  /** An overlong prefix of the current line decides the whole stream. */
  lemma OverlongDecides(c: Config, b: Bytes, more: Bytes)
    requires FindLf(b, 0) == |b| && Overlong(c, b)
    ensures Items(c, b + more) == [TooLong]
  {
    var s := b + more;
    FindLfPrefix(b, more);
    var i := FindLf(s, 0);
    OverlongGrows(c, b, s[|b|..i]);
    assert b + s[|b|..i] == s[..i];
    if i == |s| { assert s[..i] == s; }
  }

  /** One complete line at the front of a stream is the first item. */
  lemma FirstLine(c: Config, b: Bytes, more: Bytes)
    requires FindLf(b, 0) < |b|
    ensures var i := FindLf(b, 0);
            Items(c, b + more) ==
              if Overlong(c, b[..i]) then [TooLong] else [ItemOf(c, b[..i])] + Items(c, b[i + 1..] + more)
  {
    var i := FindLf(b, 0);
    FindLfPrefix(b, more);
    assert (b + more)[..i] == b[..i];
    assert (b + more)[i + 1..] == b[i + 1..] + more;
  }

  /** Decoding from a stored index and decoding from scratch give the same item and leave the same
      bytes exactly when the index skips no LF, or the line up to the first LF is too long anyway. */
  lemma StaleIndexIff(c: Config, next: nat, b: Bytes)
    ensures var (d, e) := (Decode(c, next, b), Decode(c, 0, b));
            (d.item == e.item && d.rest == e.rest) <==> SameDecode(c, next, b)
  {
    CacheIsTransparentIff(next, b);
    if !CacheOk(next, b) { SkippedLf(c, next, b); }
  }

  lemma SkippedLf(c: Config, next: nat, b: Bytes)
    requires FindLf(b, ScanStart(next, b)) != FindLf(b, 0)
    ensures var (d, e) := (Decode(c, next, b), Decode(c, 0, b));
            (d.item == e.item && d.rest == e.rest) <==> Overlong(c, b[..FindLf(b, 0)])
  {
    var i, j := FindLf(b, 0), FindLf(b, ScanStart(next, b));
    if Overlong(c, b[..i]) {
      OverlongUpTo(c, b, i, j);
    } else {
      assert |Decode(c, 0, b).rest| == |b| - i - 1;
      assert |Decode(c, next, b).rest| != |b| - i - 1;
    }
  }

  lemma OverlongUpTo(c: Config, b: Bytes, i: nat, j: nat)
    requires i <= j <= |b| && Overlong(c, b[..i])
    ensures Overlong(c, b[..j]) && (j == |b| ==> Overlong(c, b))
  {
    OverlongGrows(c, b[..i], b[i..j]);
    assert b[..i] + b[i..j] == b[..j] && b[..|b|] == b;
  }

  /** Appending keeps a good index good, and a good index finds what a fresh scan finds. */
  lemma IndexSurvives(next: nat, b: Bytes, more: Bytes)
    requires IndexOk(next, b)
    ensures IndexOk(next, b + more)
    ensures CacheOk(next, b) && FindLf(b, ScanStart(next, b)) == FindLf(b, 0)
  {
    assert (b + more)[..next] == b[..next];
    CacheIsTransparentIff(next, b);
  }

  /** A decode from a good index, said without the index. */
  lemma DecodeFromGoodIndex(c: Config, next: nat, b: Bytes)
    requires IndexOk(next, b)
    ensures Decode(c, next, b) ==
            var i := FindLf(b, 0);
            if i == |b| then
              if Overlong(c, b) then Decoded(Some(TooLong), next, b) else Decoded(None, |b|, b)
            else if Overlong(c, b[..i]) then Decoded(Some(TooLong), next, b)
            else Decoded(Some(ItemOf(c, b[..i])), 0, b[i + 1..])
  {
    IndexSurvives(next, b, []);
  }

  /** `decode` agrees with the one-shot reading of the stream, whatever bytes are still to come. */
  lemma DecodeKeepsItems(c: Config, next: nat, b: Bytes, more: Bytes)
    requires IndexOk(next, b)
    ensures var d := Decode(c, next, b);
            && IndexOk(d.next, d.rest)
            && (d.item.None? ==> d.rest == b && NoLf(b) && !Overlong(c, b))
            && (d.item == Some(TooLong) ==> d.rest == b && Items(c, b + more) == [TooLong])
            && (d.item.Some? && d.item != Some(TooLong) ==>
                  |d.rest| < |b| && Items(c, b + more) == [d.item.value] + Items(c, d.rest + more))
  {
    DecodeFromGoodIndex(c, next, b);
    if FindLf(b, 0) < |b| {
      FirstLine(c, b, more);
    } else if Overlong(c, b) {
      OverlongDecides(c, b, more);
    }
  }

  /** `decode_eof` agrees with the one-shot reading of what is left, and always makes progress. */
  lemma DecodeEofKeepsItems(c: Config, next: nat, b: Bytes)
    requires IndexOk(next, b)
    ensures var d := DecodeEof(c, next, b);
            && IndexOk(d.next, d.rest)
            && (d.item.None? <==> Items(c, b) == [])
            && (d.item.None? ==> Items(c, d.rest) == [])
            && (d.item == Some(TooLong) ==> d.rest == b && Items(c, b) == [TooLong])
            && (d.item.Some? && d.item != Some(TooLong) ==>
                  |d.rest| < |b| && Items(c, b) == [d.item.value] + Items(c, d.rest))
  {
    DecodeKeepsItems(c, next, b, []);
    assert b + [] == b;
    var d := Decode(c, next, b);
    assert d.rest + [] == d.rest;
    IndexSurvives(next, b, []);
    if d.item.None? && b != [] {
      var left := b[|StripCr(b)|..];
      assert left == [] || left == [CR];
      FindLfIs(left, 0, |left|);
    }
  }

  /** Reading a finished stream to its end with `decode_eof`, until it returns `None` or rejects.
      It terminates because every other result consumes bytes. */
  function DrainEof(c: Config, next: nat, b: Bytes): (items: seq<Item>)
    requires IndexOk(next, b)
    ensures items == Items(c, b)
    decreases |b|
  {
    DecodeEofKeepsItems(c, next, b);
    var d := DecodeEof(c, next, b);
    if d.item.None? then []
    else if d.item == Some(TooLong) then [TooLong]
    else [d.item.value] + DrainEof(c, d.next, d.rest)
  }

  // ---------------------------------------------------------------- histories of calls

  /** What a user of the codec may do with its buffer: append bytes and decode. */
  datatype Call = Append(bytes: Bytes) | CallDecode | CallDecodeEof

  datatype CodecState = CodecState(next: nat, buf: Bytes)

  function AfterCall(c: Config, s: CodecState, call: Call): CodecState {
    match call
    case Append(bytes) => CodecState(s.next, s.buf + bytes)
    case CallDecode => var d := Decode(c, s.next, s.buf); CodecState(d.next, d.rest)
    case CallDecodeEof => var d := DecodeEof(c, s.next, s.buf); CodecState(d.next, d.rest)
  }

  function AfterCalls(c: Config, s: CodecState, calls: seq<Call>): CodecState
    decreases |calls|
  {
    if calls == [] then s else AfterCalls(c, AfterCall(c, s, calls[0]), calls[1..])
  }

  /** The scan index is only a cache: after any history, decoding from it and decoding from
      scratch give the same item and leave the same bytes. */
  lemma {:induction false} IndexIsOnlyACache(c: Config, s: CodecState, calls: seq<Call>)
    requires IndexOk(s.next, s.buf)
    ensures var e := AfterCalls(c, s, calls);
            && IndexOk(e.next, e.buf)
            && Decode(c, e.next, e.buf).item == Decode(c, 0, e.buf).item
            && Decode(c, e.next, e.buf).rest == Decode(c, 0, e.buf).rest
    decreases |calls|
  {
    IndexSurvives(s.next, s.buf, []);
    if calls != [] {
      var call := calls[0];
      if call.Append? { IndexSurvives(s.next, s.buf, call.bytes); }
      IndexIsOnlyACache(c, AfterCall(c, s, call), calls[1..]);
    }
  }

  // ---------------------------------------------------------------- encoding

  /** `encode` appends the item and one LF. */
  function Encode(item: Bytes): Bytes { item + [LF] }

  function EncodeAll(items: seq<Bytes>): Bytes {
    if items == [] then [] else Encode(items[0]) + EncodeAll(items[1..])
  }

  lemma Assoc(a: Bytes, b: Bytes, c: Bytes)
    ensures (a + b) + c == a + (b + c)
  {
  }

  lemma {:induction false} EncodeAllAppend(a: seq<Bytes>, b: seq<Bytes>)
    ensures EncodeAll(a + b) == EncodeAll(a) + EncodeAll(b)
    decreases |a|
  {
    if a == [] {
      assert a + b == b;
    } else {
      EncodeAllAppend(a[1..], b);
      assert (a + b)[0] == a[0] && (a + b)[1..] == a[1..] + b;
      Assoc(Encode(a[0]), EncodeAll(a[1..]), EncodeAll(b));
    }
  }

  /** The items that survive a round trip: no LF, no trailing CR, within the limit, valid UTF-8. */
  predicate Clean(c: Config, item: Bytes) {
    NoLf(item) && !EndsInCr(item) && Within(c, |item|) && c.utf8(item)
  }

  function Frames(items: seq<Bytes>): seq<Item> {
    if items == [] then [] else [Frame(items[0])] + Frames(items[1..])
  }

  /** An item with an LF in it comes back cut. */
  lemma EncodedLfIsCut(c: Config, item: Bytes, rest: Bytes)
    requires !NoLf(item)
    ensures var r := Items(c, Encode(item) + rest); r != [] && r[0] != Frame(item)
  {
    var s := Encode(item) + rest;
    var k :| 0 <= k < |item| && item[k] == LF;
    assert s[k] == LF;
    assert FindLf(s, 0) < |item|;
  }

  /** Encoding then decoding gives back exactly the items sent, for exactly the clean items. */
  lemma {:induction false} RoundTripIff(c: Config, items: seq<Bytes>)
    ensures Items(c, EncodeAll(items)) == Frames(items)
            <==> forall k :: 0 <= k < |items| ==> Clean(c, items[k])
    decreases |items|
  {
    if items == [] {
      assert FindLf([], 0) == 0;
    } else {
      var item, rest := items[0], EncodeAll(items[1..]);
      RoundTripIff(c, items[1..]);
      CleanSplit(c, items);
      if !NoLf(item) {
        EncodedLfIsCut(c, item, rest);
      } else {
        LineThenRest(c, item, rest);
        ConsIff(Frame(item), Items(c, rest), Frames(items[1..]));
        if !Clean(c, item) { assert Items(c, Encode(item) + rest)[0] != Frame(item); }
      }
    }
  }

  lemma CleanSplit(c: Config, items: seq<Bytes>)
    requires items != []
    ensures (forall k :: 0 <= k < |items| ==> Clean(c, items[k])) <==>
            Clean(c, items[0]) && forall k :: 0 <= k < |items[1..]| ==> Clean(c, items[1..][k])
  {
    if forall k :: 0 <= k < |items[1..]| ==> Clean(c, items[1..][k]) {
      assert forall k :: 1 <= k < |items| ==> items[k] == items[1..][k - 1];
    }
  }

  lemma ConsIff(x: Item, a: seq<Item>, b: seq<Item>)
    ensures [x] + a == [x] + b <==> a == b
  {
    if [x] + a == [x] + b {
      assert ([x] + a)[1..] == a;
      assert ([x] + b)[1..] == b;
    }
  }
}
