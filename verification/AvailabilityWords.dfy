/** The availability flags of the accept thread: four words of 128 bits as a set of worker ids.
    Words are numbers, and their bits the digits of their binary form. */
module AvailabilityWords {

  const MAX_WORKERS: nat := 512
  const BITS: nat := 128

  function Pow2(n: nat): (p: nat)
    ensures p > 0
  {
    if n == 0 then 1 else 2 * Pow2(n - 1)
  }

  const WORD: nat := Pow2(BITS)

  /** The binary digit `i`: `w & (1 << i) != 0`. */
  predicate Bit(w: nat, i: nat) {
    if i == 0 then w % 2 == 1 else Bit(w / 2, i - 1)
  }

  /** `w | (1 << i)`. */
  function Or(w: nat, i: nat): nat {
    if i == 0 then w / 2 * 2 + 1 else 2 * Or(w / 2, i - 1) + w % 2
  }

  /** `w & !(1 << i)`. */
  function AndNot(w: nat, i: nat): nat {
    if i == 0 then w / 2 * 2 else 2 * AndNot(w / 2, i - 1) + w % 2
  }

  lemma {:induction false} OrSets(w: nat, i: nat, j: nat)
    ensures Bit(Or(w, i), j) <==> i == j || Bit(w, j)
    decreases i, j
  {
    if i > 0 && j > 0 {
      OrSets(w / 2, i - 1, j - 1);
      assert Or(w, i) / 2 == Or(w / 2, i - 1);
    }
  }

  lemma {:induction false} AndNotClears(w: nat, i: nat, j: nat)
    ensures Bit(AndNot(w, i), j) <==> i != j && Bit(w, j)
    decreases i, j
  {
    if i > 0 && j > 0 {
      AndNotClears(w / 2, i - 1, j - 1);
      assert AndNot(w, i) / 2 == AndNot(w / 2, i - 1);
    }
  }

  lemma {:induction false} StaysInWord(w: nat, i: nat, n: nat)
    requires i < n && w < Pow2(n)
    ensures Or(w, i) < Pow2(n) && AndNot(w, i) < Pow2(n)
  {
    assert Pow2(n) == 2 * Pow2(n - 1);
    if i > 0 {
      StaysInWord(w / 2, i - 1, n - 1);
      assert Or(w, i) == 2 * Or(w / 2, i - 1) + w % 2;
      assert AndNot(w, i) == 2 * AndNot(w / 2, i - 1) + w % 2;
    }
  }

  predicate AnyBit(w: nat, n: nat) { exists i :: 0 <= i < n && Bit(w, i) }

  lemma HasBit(w: nat, n: nat, i: nat)
    requires i < n && Bit(w, i)
    ensures AnyBit(w, n)
  {
  }

  /** A word is zero exactly if all its digits are. */
  lemma {:induction false} NonZeroHasBit(w: nat, n: nat)
    requires w < Pow2(n)
    ensures w != 0 <==> AnyBit(w, n)
  {
    if n > 0 {
      NonZeroHasBit(w / 2, n - 1);
      if w != 0 {
        if w % 2 == 1 {
          HasBit(w, n, 0);
        } else {
          var i :| 0 <= i < n - 1 && Bit(w / 2, i);
          HasBit(w, n, i + 1);
        }
      } else {
        forall i | 0 <= i < n ensures !Bit(0, i) { NoBitInZero(i); }
      }
    }
  }

  lemma {:induction false} NoBitInZero(i: nat)
    ensures !Bit(0, i)
  {
    if i > 0 { NoBitInZero(i - 1); }
  }

  datatype Place = Place(word: nat, bit: nat)

  datatype Checked<+T> = Fine(value: T) | Panics

  /** `offset`: the word and the bit of a worker id. */
  function Offset(idx: nat): Checked<Place> {
    if idx < 128 then Fine(Place(0, idx))
    else if idx < 128 * 2 then Fine(Place(1, idx - 128))
    else if idx < 128 * 3 then Fine(Place(2, idx - 128 * 2))
    else if idx < 128 * 4 then Fine(Place(3, idx - 128 * 3))
    else Panics
  }

  /** Every id below the maximum has a place of its own, and every place an id. */
  lemma OffsetIsBijective(x: nat, y: nat, word: nat, bit: nat)
    ensures Offset(x) == Panics <==> x >= MAX_WORKERS
    ensures x < MAX_WORKERS && Offset(x) == Offset(y) ==> x == y
    ensures x < MAX_WORKERS ==> Offset(x).value.word < 4 && Offset(x).value.bit < BITS
    ensures word < 4 && bit < BITS ==> Offset(word * BITS + bit) == Fine(Place(word, bit))
  {
    assert word < 4 ==> word == 0 || word == 1 || word == 2 || word == 3;
  }

  class Availability {
    const words: array<nat>

    ghost predicate Valid() reads words {
      words.Length == 4 && forall i :: 0 <= i < 4 ==> words[i] < WORD
    }

    predicate Has(idx: nat) reads words
      requires words.Length == 4 && idx < MAX_WORKERS
    {
      var p := Offset(idx).value;
      Bit(words[p.word], p.bit)
    }

    /** The ids whose bit is set. */
    ghost function Contents(): set<nat> reads words
      requires words.Length == 4
    {
      set idx: nat | idx < MAX_WORKERS && Has(idx)
    }

    constructor ()
      ensures Valid() && fresh(words) && Contents() == {}
    {
      words := new nat[4](_ => 0);
      new;
      forall idx: nat | idx < MAX_WORKERS ensures !Has(idx) { NoBitInZero(Offset(idx).value.bit); }
    }

    /** `get_available`. */
    method GetAvailable(idx: nat) returns (r: Checked<bool>)
      requires Valid()
      ensures r == if idx < MAX_WORKERS then Fine(idx in Contents()) else Panics
    {
      match Offset(idx) {
        case Panics => return Panics;
        case Fine(p) => return Fine(Bit(words[p.word], p.bit));
      }
    }

    /** `set_available`: adds or removes one id, and panics on one that is too large. */
    method SetAvailable(idx: nat, avail: bool) returns (ok: bool)
      requires Valid()
      modifies words
      ensures Valid() && (ok <==> idx < MAX_WORKERS)
      ensures Contents() == if !ok then old(Contents())
                            else if avail then old(Contents()) + {idx} else old(Contents()) - {idx}
    {
      match Offset(idx) {
        case Panics => return false;
        case Fine(p) =>
          var w := words[p.word];
          StaysInWord(w, p.bit, BITS);
          if avail { words[p.word] := Or(w, p.bit); } else { words[p.word] := AndNot(w, p.bit); }
          forall x: nat | x < MAX_WORKERS ensures Has(x) <==> if x == idx then avail else old(Has(x)) {
            OffsetIsBijective(x, idx, 0, 0);
            var q := Offset(x).value;
            OrSets(w, p.bit, q.bit);
            AndNotClears(w, p.bit, q.bit);
          }
          return true;
      }
    }

    /** `set_available_all`. */
    method SetAvailableAll(handles: seq<nat>)
      requires Valid() && forall i :: 0 <= i < |handles| ==> handles[i] < MAX_WORKERS
      modifies words
      ensures Valid() && Contents() == old(Contents()) + set x | x in handles
    {
      for i := 0 to |handles|
        invariant Valid() && Contents() == old(Contents()) + set x | x in handles[..i]
      {
        var _ := SetAvailable(handles[i], true);
        assert handles[..i + 1] == handles[..i] + [handles[i]];
      }
      assert handles[..|handles|] == handles;
    }

    /** `available`: some word is not zero. */
    method Available() returns (any: bool)
      requires Valid()
      ensures any <==> Contents() != {}
    {
      for i := 0 to 4
        invariant forall k :: 0 <= k < i ==> words[k] == 0
      {
        if words[i] != 0 {
          NonZeroHasBit(words[i], BITS);
          var bit :| 0 <= bit < BITS && Bit(words[i], bit);
          OffsetIsBijective(0, 0, i, bit);
          assert i * BITS + bit in Contents();
          return true;
        }
      }
      forall idx: nat | idx < MAX_WORKERS ensures !Has(idx) {
        OffsetIsBijective(idx, idx, 0, 0);
        NoBitInZero(Offset(idx).value.bit);
      }
      return false;
    }
  }
}
