/** The size-to-bin arithmetic of the userland allocator (32-bit size_t). */
module BinIndex {
  import opened Bits

  const NTREEBINS: nat := 32
  const MIN_LARGE_SIZE: nat := 256

  /** 31 minus the count of leading zeros. */
  function Log2(x: nat): (k: nat)
    requires x > 0
    ensures Pow2(k) <= x < Pow2(k + 1)
  {
    if x == 1 then 0 else 1 + Log2(x / 2)
  }

  /** compute_tree_index */
  function TreeIndex(s: nat): (i: nat)
    requires s < WORD
  {
    var x := s / 256;
    if x == 0 then 0
    else if x > 0xFFFF then NTREEBINS - 1
    else var k := Log2(x); 2 * k + (s / Pow2(k + 7)) % 2
  }

  /** leftshift_for_tree_index */
  function LeftShift(i: nat): nat
    requires i < NTREEBINS
  {
    if i == NTREEBINS - 1 then 0 else 31 - (i / 2 + 6)
  }

  /** minsize_for_tree_index */
  function MinSize(i: nat): nat
  {
    Pow2(i / 2 + 8) + (if i % 2 == 1 then Pow2(i / 2 + 7) else 0)
  }

  /** The sizes that belong in bin i: half a power of two, and everything above in the last bin. */
  predicate InBin(s: nat, i: nat)
  {
    MinSize(i) <= s && (i < NTREEBINS - 1 ==> s < MinSize(i + 1))
  }

  /** Bin i is a trie over the sizes [RangeLo(i), RangeLo(i) + 2^RangeBits(i)). */
  function RangeBits(i: nat): nat
    requires i < NTREEBINS
  {
    32 - LeftShift(i)
  }

  function RangeLo(i: nat): nat
  {
    if i == NTREEBINS - 1 then 0 else MinSize(i)
  }

  lemma MinSizeStep(i: nat)
    ensures MinSize(i + 1) == MinSize(i) + Pow2(i / 2 + 7)
  {
    assert Pow2(i / 2 + 8) == 2 * Pow2(i / 2 + 7);
    assert Pow2(i / 2 + 9) == 2 * Pow2(i / 2 + 8);
    assert i % 2 == 1 ==> (i + 1) / 2 == i / 2 + 1;
  }

  lemma {:induction false} MinSizeMonotone(i: nat, j: nat)
    requires i < j
    ensures MinSize(i) < MinSize(j)
  {
    MinSizeStep(j - 1);
    if i < j - 1 { MinSizeMonotone(i, j - 1); }
  }

  lemma Log2Bound(x: nat)
    requires 0 < x <= 0xFFFF
    ensures Log2(x) <= 15
  {
    if Log2(x) >= 16 {
      Pow2Monotone(16, Log2(x));
      Pow2Small();
    }
  }

  lemma ScaleUp(s: nat, k: nat)
    requires Pow2(k) <= s / 256 < Pow2(k + 1)
    ensures 2 * Pow2(k + 7) <= s < 4 * Pow2(k + 7)
  {
    Pow2Small();
    Pow2Add(k, 7);
    Pow2Add(k, 8);
    Pow2Add(k + 1, 8);
  }

  lemma QuotientIs(s: nat, d: nat)
    requires 0 < d && 2 * d <= s < 4 * d
    ensures s / d == if s < 3 * d then 2 else 3
  {
    if s < 3 * d { ModUnique(s, d, 2, s - 2 * d); } else { ModUnique(s, d, 3, s - 3 * d); }
  }

  /** compute_tree_index puts every large size in the bin whose range holds it. */
  lemma TreeIndexRange(s: nat)
    requires MIN_LARGE_SIZE <= s < WORD
    ensures TreeIndex(s) < NTREEBINS && InBin(s, TreeIndex(s))
  {
    var x := s / 256;
    if x > 0xFFFF {
      assert MinSize(31) == 0xC0_0000 by { LastMinSize(); }
    } else {
      MiddleBins(s, Log2(x));
    }
  }

  lemma LastMinSize()
    ensures MinSize(31) == 0xC0_0000
  {
    Pow2Small();
    assert Pow2(24) == 2 * Pow2(23) == 4 * Pow2(22);
  }

  lemma MiddleBins(s: nat, k: nat)
    requires 0 < s / 256 <= 0xFFFF && k == Log2(s / 256)
    ensures var i := 2 * k + (s / Pow2(k + 7)) % 2; i < NTREEBINS && MinSize(i) <= s < MinSize(i + 1)
  {
    Log2Bound(s / 256);
    ScaleUp(s, k);
    MinSizes(k);
    QuotientIs(s, Pow2(k + 7));
  }

  lemma MinSizes(k: nat)
    ensures MinSize(2 * k) == 2 * Pow2(k + 7)
    ensures MinSize(2 * k + 1) == 3 * Pow2(k + 7)
    ensures MinSize(2 * k + 2) == 4 * Pow2(k + 7)
  {
    assert Pow2(k + 8) == 2 * Pow2(k + 7) && Pow2(k + 9) == 2 * Pow2(k + 8);
    assert (2 * k + 1) / 2 == k && (2 * k + 2) / 2 == k + 1;
  }

  /** ... and in no other. */
  lemma TreeIndexUnique(s: nat, i: nat)
    requires MIN_LARGE_SIZE <= s < WORD && i < NTREEBINS && InBin(s, i)
    ensures TreeIndex(s) == i
  {
    var j := TreeIndex(s);
    TreeIndexRange(s);
    if i < j {
      if i + 1 < j { MinSizeMonotone(i + 1, j); }
    } else if j < i {
      if j + 1 < i { MinSizeMonotone(j + 1, i); }
    }
  }

  lemma BinsOrdered(s: nat, s': nat, i: nat, j: nat)
    requires i < j < NTREEBINS && InBin(s, i) && InBin(s', j)
    ensures s < s'
  {
    if i + 1 < j { MinSizeMonotone(i + 1, j); }
  }

  /** A bin's sizes lie in its trie range, and the range starts at a multiple of its width. */
  lemma BinRange(i: nat, s: nat) returns (q: nat)
    requires i < NTREEBINS && InBin(s, i) && s < WORD
    ensures RangeLo(i) <= s < RangeLo(i) + Pow2(RangeBits(i))
    ensures RangeLo(i) == q * Pow2(RangeBits(i))
    ensures 7 <= RangeBits(i) <= 32
  {
    if i == NTREEBINS - 1 {
      Pow2Small();
      q := 0;
    } else {
      assert RangeBits(i) == i / 2 + 7;
      MinSizeStep(i);
      assert Pow2(i / 2 + 8) == 2 * Pow2(i / 2 + 7);
      q := if i % 2 == 1 then 3 else 2;
    }
  }

  lemma InBinRange(i: nat, s: nat)
    requires i < NTREEBINS && InBin(s, i) && s < WORD
    ensures RangeLo(i) <= s < RangeLo(i) + Pow2(RangeBits(i)) && 7 <= RangeBits(i) <= 32
  {
    var q := BinRange(i, s);
  }
}
