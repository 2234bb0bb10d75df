// A packed sequence of booleans: one bit per boolean in 64-bit words
// (common/bools.go).
module Bools {
  import opened Wrappers

  datatype BoolsError = NegativeSize

  /** The mask with only bit k set (`1 << k`). */
  function Mask(k: bv6): bv64
  {
    (1 as bv64) << k
  }

  function WordBit(w: bv64, k: bv6): bool
  {
    w & Mask(k) != 0
  }

  /** The word with bit k forced to v: `|=` the mask to set it, `&^` the mask to clear it. */
  function SetWordBit(w: bv64, k: bv6, v: bool): bv64
  {
    if v then w | Mask(k) else w & !Mask(k)
  }

  /** After writing bit k, bit k reads back as the written value. */
  lemma SetWordBitSame(w: bv64, k: bv6, v: bool)
    ensures WordBit(SetWordBit(w, k, v), k) == v
  {
  }

  /** Distinct in-word positions have distinct bit indices. */
  lemma BitIndexInjective(a: int, b: int)
    requires 0 <= a < 64 && 0 <= b < 64 && a != b
    ensures a as bv6 != b as bv6
  {
    BitIndexRoundTrip(a);
    BitIndexRoundTrip(b);
  }

  /** An in-word position survives the trip to a bit index and back. */
  lemma BitIndexRoundTrip(a: int)
    requires 0 <= a < 64
    ensures (a as bv6) as int == a
  {
  }

  lemma MasksDisjoint(k: bv6, j: bv6)
    requires j != k
    ensures Mask(k) & Mask(j) == 0
  {
  }

  lemma OrAbsorb(a: bv64, b: bv64, c: bv64)
    requires b & c == 0
    ensures (a | b) & c == a & c
  {
  }

  lemma AndNotAbsorb(a: bv64, b: bv64, c: bv64)
    requires b & c == 0
    ensures (a & !b) & c == a & c
  {
  }

  lemma SetOther(w: bv64, k: bv6, j: bv6)
    requires j != k
    ensures (w | Mask(k)) & Mask(j) == w & Mask(j)
  {
    var mk, mj := Mask(k), Mask(j);
    MasksDisjoint(k, j);
    assert mk & mj == 0;
    OrAbsorb(w, mk, mj);
    assert (w | mk) & mj == w & mj;
  }

  lemma ClearOther(w: bv64, k: bv6, j: bv6)
    requires j != k
    ensures (w & !Mask(k)) & Mask(j) == w & Mask(j)
  {
    var mk, mj := Mask(k), Mask(j);
    MasksDisjoint(k, j);
    assert mk & mj == 0;
    AndNotAbsorb(w, mk, mj);
    assert (w & !mk) & mj == w & mj;
  }

  /** Writing bit k leaves every other bit of the word as it was. */
  lemma SetWordBitOther(w: bv64, k: bv6, j: bv6, v: bool)
    requires j != k
    ensures WordBit(SetWordBit(w, k, v), j) == WordBit(w, j)
  {
    if v { SetOther(w, k, j); } else { ClearOther(w, k, j); }
  }

  /** Writing the same bit twice is the same as writing it once. */
  lemma SetWordBitIdempotent(w: bv64, k: bv6, v: bool)
    ensures SetWordBit(SetWordBit(w, k, v), k, v) == SetWordBit(w, k, v)
  {
  }

  class Bools {
    const words: array<bv64>

    /** Number of usable booleans: the storage is rounded up to whole words. */
    function Capacity(): nat { words.Length * 64 }

    /** Get (common/bools.go:42-45): bit i % 64 of word i / 64. */
    function Get(i: int): (r: bool)
      requires 0 <= i < Capacity()
      reads words
      ensures r <==> (words[i / 64] >> (i % 64)) & 1 == 1
    {
      WordBit(words[i / 64], (i % 64) as bv6)
    }

    constructor Init(wordCount: nat, initial: bool)
      ensures fresh(words) && words.Length == wordCount
      ensures forall i :: 0 <= i < Capacity() ==> Get(i) == initial
    {
      var values := new bv64[wordCount](_ => 0);
      if initial {
        var i := 0;
        while i < values.Length
          invariant 0 <= i <= values.Length
          invariant forall j :: 0 <= j < i ==> values[j] == !(0 as bv64)
          invariant forall j :: i <= j < values.Length ==> values[j] == 0
          modifies values
        {
          values[i] := !(0 as bv64);
          i := i + 1;
        }
      }
      words := values;
      new;
      forall i | 0 <= i < Capacity() ensures Get(i) == initial {
        assert words[i / 64] == if initial then !(0 as bv64) else 0;
      }
    }

    /** Sets the i-th boolean to v and leaves every other boolean as it was. */
    method Set(i: int, v: bool)
      requires 0 <= i < Capacity()
      modifies words
      ensures Get(i) == v
      ensures forall j :: 0 <= j < Capacity() && j != i ==> Get(j) == old(Get(j))
    {
      var w := words[i / 64];
      words[i / 64] := SetWordBit(w, (i % 64) as bv6, v);
      SetWordBitSame(w, (i % 64) as bv6, v);
      forall j | 0 <= j < Capacity() && j != i ensures Get(j) == old(Get(j)) {
        if j / 64 != i / 64 {
          assert words[j / 64] == old(words[j / 64]);
        } else {
          BitIndexInjective(i % 64, j % 64);
          SetWordBitOther(w, (i % 64) as bv6, (j % 64) as bv6, v);
        }
      }
    }
  }

  /**
   * Storage for `size` booleans: size/64+1 words, all bits set when `initial`;
   * a negative size fails (the source panics).
   */
  method NewBools(size: int, initial: bool) returns (r: Result<Bools, BoolsError>)
    ensures r.Err? <==> size < 0
    ensures r.Ok? ==> fresh(r.value.words) && r.value.words.Length == size / 64 + 1
    ensures r.Ok? ==> size < r.value.Capacity()
    ensures r.Ok? ==> forall i :: 0 <= i < r.value.Capacity() ==> r.value.Get(i) == initial
  {
    if size < 0 {
      return Err(NegativeSize);
    }
    var b := new Bools.Init(size / 64 + 1, initial);
    return Ok(b);
  }

  /** The sequence of operations of common/bools_test.go:9-42. */
  method BoolsScenario()
  {
    var r := NewBools(100, true);
    var b := r.value;
    assert forall i :: 0 <= i < 100 ==> b.Get(i);
    b.Set(50, false);
    assert !b.Get(50);
    b.Set(50, false);
    b.Set(50, false);
    assert !b.Get(50);
    b.Set(50, true);
    assert b.Get(50);
    b.Set(50, true);
    b.Set(50, true);
    assert b.Get(50);
    b.Set(0, false);
    assert !b.Get(0);
    b.Set(100, false);
    assert !b.Get(100);
  }
}
