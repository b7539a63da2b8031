/** Bit sets packed into 32-bit words. */
module Bitset {
  import opened Bits

  const INVALID_INDEX := 0xFFFF_FFFF

  lemma FullHas(w: nat, i: nat)
    requires w == WORD - 1 && i < 32
    ensures TestBit(w, i)
  {
    OnesBits(32, i);
  }

  /** All 32 bits of a word are set: it is 0xFFFFFFFF. */
  lemma FullFrom(w: nat, ones: nat)
    requires w < WORD && ones == WORD - 1 && forall i :: 0 <= i < 32 ==> TestBit(w, i)
    ensures w == ones
  {
    Pow2Small();
    forall i: nat ensures TestBit(w, i) == TestBit(ones, i) {
      if i >= 32 { HighBits(w, 32, i); HighBits(ones, 32, i); } else { FullHas(ones, i); }
    }
    BitsExtensional(w, ones);
  }

  lemma {:induction false} OnesBits(k: nat, i: nat)
    requires i < k
    ensures Pow2(k) > 0 && TestBit(Pow2(k) - 1, i) && (k == 32 ==> Pow2(k) == WORD)
  {
    Pow2Small();
    if i > 0 {
      OnesBits(k - 1, i - 1);
      assert (Pow2(k) - 1) / 2 == Pow2(k - 1) - 1;
    }
  }

  class BitArray {
    const data: array<nat>
    const size: nat

    /** Words are 32 bits; the bits past the end are clear. */
    ghost predicate Valid()
      reads data
    {
      && data.Length == (size + 31) / 32 && size < INVALID_INDEX
      && (forall i :: 0 <= i < data.Length ==> data[i] < WORD)
      && (forall i :: size <= i < 32 * data.Length ==> !TestBit(data[i / 32], i % 32))
    }

    /** bitset_init */
    constructor (n: nat)
      requires n < INVALID_INDEX
      ensures Valid() && fresh(data) && size == n && forall i :: 0 <= i < n ==> !Has(i)
    {
      size := n;
      data := new nat[(n + 31) / 32](i => 0);
      new;
      forall i: nat | i < 32 ensures !TestBit(0, i) { ZeroBits(i); }
    }

    /** Bit i of the set. */
    ghost predicate Has(i: nat)
      requires i < size && data.Length == (size + 31) / 32
      reads data
    {
      TestBit(data[i / 32], i % 32)
    }

    ghost predicate Full()
      requires data.Length == (size + 31) / 32
      reads data
    {
      forall i :: 0 <= i < size ==> Has(i)
    }

    /** bitset_test; the assertion on the offset is its precondition. */
    method Test(offset: nat) returns (r: bool)
      requires Valid() && offset < size
      ensures r == Has(offset)
    {
      Pow2Below(offset % 32);
      var mask := Pow2(offset % 32);
      MaskTest(data[offset / 32], offset % 32);
      r := And(data[offset / 32], mask) != 0;
    }

    method Set(offset: nat)
      requires Valid() && offset < size
      modifies data
      ensures Valid() && Has(offset) && forall i :: 0 <= i < size && i != offset ==> Has(i) == old(Has(i))
    {
      var e, b := offset / 32, offset % 32;
      ghost var w := data[e];
      MarkBits(w, b, b);
      forall j | 0 <= j < 32 ensures TestBit(SetBit(w, b), j) <==> b == j || TestBit(w, j) { MarkBits(w, b, j); }
      data[e] := SetBit(data[e], b);
      forall i | 0 <= i < 32 * data.Length && i != offset
        ensures TestBit(data[i / 32], i % 32) == old(TestBit(data[i / 32], i % 32))
      {
        Places(i, offset);
      }
      forall i | size <= i < 32 * data.Length ensures !TestBit(data[i / 32], i % 32) { assert i != offset; }
    }

    method Clear(offset: nat)
      requires Valid() && offset < size
      modifies data
      ensures Valid() && !Has(offset) && forall i :: 0 <= i < size && i != offset ==> Has(i) == old(Has(i))
    {
      var e, b := offset / 32, offset % 32;
      ghost var w := data[e];
      MarkBits(w, b, b);
      forall j | 0 <= j < 32 ensures TestBit(ClearBit(w, b), j) <==> b != j && TestBit(w, j) { MarkBits(w, b, j); }
      data[e] := ClearBit(data[e], b);
      forall i | 0 <= i < 32 * data.Length && i != offset
        ensures TestBit(data[i / 32], i % 32) == old(TestBit(data[i / 32], i % 32))
      {
        Places(i, offset);
      }
      forall i | size <= i < 32 * data.Length ensures !TestBit(data[i / 32], i % 32) { assert i != offset; }
    }

    /** bitset_find for a clear bit: the least one. A full set gives INVALID_INDEX when its size is a multiple of
        32; for any other size the search runs into the assertion of bitset_test, and only then. */
    method FindClear() returns (r: nat, halted: bool)
      requires Valid()
      ensures halted <==> Full() && size % 32 != 0
      ensures !halted ==> (r == INVALID_INDEX <==> Full())
      ensures !halted && r != INVALID_INDEX ==> r < size && !Has(r) && forall i :: 0 <= i < r ==> Has(i)
    {
      var e := 0;
      while e < data.Length && data[e] == WORD - 1
        invariant e <= data.Length && (forall i :: 0 <= i < e ==> data[i] == WORD - 1)
        invariant forall i :: 0 <= i < 32 * e && i < size ==> Has(i)
      {
        forall i | 32 * e <= i < 32 * (e + 1) && i < size ensures Has(i) {
          InWord(e, i);
          FullHas(data[e], i % 32);
        }
        e := e + 1;
      }
      FullSize(size, data.Length);
      if e == data.Length {
        if size % 32 != 0 { FullHas(data[size / 32], size % 32); }
        return INVALID_INDEX, false;
      }
      var i := 32 * e;
      while i < 32 * e + 32
        invariant 32 * e <= i <= 32 * e + 32 && i <= size
        invariant forall j :: 0 <= j < i ==> Has(j)
      {
        if i == size { return 0, true; }
        var b := Test(i);
        if !b { return i, false; }
        i := i + 1;
      }
      forall j | 0 <= j < 32 ensures TestBit(data[e], j) {
        InWord(e, 32 * e + j);
        assert Has(32 * e + j);
      }
      FullFrom(data[e], WORD - 1);
      assert false;
    }
  }

  lemma MaskTest(w: nat, b: nat)
    requires w < WORD && b < 32
    ensures And(w, Pow2(b)) != 0 <==> TestBit(w, b)
  {
    AndBits(w, Pow2(b), b);
    Pow2Bits(b, b);
    if And(w, Pow2(b)) == 0 {
      ZeroBits(b);
    } else {
      var k := Ctz(And(w, Pow2(b)));
      AndBits(w, Pow2(b), k);
      Pow2Bits(b, k);
    }
  }

  lemma Places(i: nat, j: nat)
    requires i != j
    ensures i / 32 != j / 32 || i % 32 != j % 32
  {}

  lemma InWord(e: nat, i: nat)
    requires 32 * e <= i < 32 * e + 32
    ensures i / 32 == e && i % 32 == i - 32 * e
  {}

  lemma FullSize(size: nat, words: nat)
    requires words == (size + 31) / 32
    ensures size <= 32 * words && (size % 32 == 0 ==> size == 32 * words) && (size % 32 != 0 ==> size / 32 < words)
  {}

  /** A bitmap of one bit, set: the search for a clear one stops on its assertion. */
  method OneBitStops() returns (halted: bool)
    ensures halted
  {
    var b := new BitArray(1);
    b.Set(0);
    var r;
    r, halted := b.FindClear();
  }
}
