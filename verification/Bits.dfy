/** Machine words: powers of two, masks on naturals, and 32-bit maps indexed by bit number. */
module Bits {

  /** One past the largest 32-bit word. */
  const WORD: nat := 0x1_0000_0000

  lemma {:induction false} SameRest(a: nat, k: nat)
    ensures (a + k * WORD) % WORD == a % WORD
  {
    if k > 0 {
      SameRest(a, k - 1);
      assert a + k * WORD == a + (k - 1) * WORD + WORD;
    }
  }

  function Pow2(n: nat): (p: nat)
    ensures p > 0
  {
    if n == 0 then 1 else 2 * Pow2(n - 1)
  }

  lemma {:induction false} Pow2Add(m: nat, n: nat)
    ensures Pow2(m + n) == Pow2(m) * Pow2(n)
  {
    if m > 0 {
      Pow2Add(m - 1, n);
      assert Pow2(m + n) == 2 * Pow2(m - 1 + n);
    }
  }

  lemma {:induction false} Pow2Monotone(m: nat, n: nat)
    requires m <= n
    ensures Pow2(m) <= Pow2(n)
  {
    if m < n {
      Pow2Monotone(m, n - 1);
    }
  }

  lemma Pow2Small()
    ensures Pow2(1) == 2 && Pow2(2) == 4 && Pow2(3) == 8 && Pow2(4) == 16
    ensures Pow2(5) == 32 && Pow2(6) == 64 && Pow2(7) == 128 && Pow2(8) == 256
    ensures Pow2(9) == 512 && Pow2(12) == 4096 && Pow2(16) == 0x1_0000 && Pow2(24) == 0x100_0000
    ensures Pow2(31) == 0x8000_0000 && Pow2(32) == WORD
  {
    assert Pow2(4) == 16;
    assert Pow2(8) == 256;
    assert Pow2(12) == 4096;
    assert Pow2(16) == 0x1_0000;
    assert Pow2(20) == 0x10_0000;
    assert Pow2(24) == 0x100_0000;
    assert Pow2(28) == 0x1000_0000;
  }

  // ---- bitwise AND on naturals -------------------------------------------------

  /** `x & y` on unsigned words, bit by bit. */
  function And(x: nat, y: nat): (r: nat)
  {
    if x == 0 || y == 0 then 0 else 2 * And(x / 2, y / 2) + (if x % 2 == 1 && y % 2 == 1 then 1 else 0)
  }

  /** The low k bits of x. */
  function Low(x: nat, k: nat): nat {
    if k == 0 then 0 else 2 * Low(x / 2, k - 1) + x % 2
  }

  lemma {:induction false} LowIsMod(x: nat, k: nat)
    ensures Low(x, k) == x % Pow2(k)
  {
    if k > 0 {
      LowIsMod(x / 2, k - 1);
      HalfMod(x, Pow2(k - 1));
    }
  }

  lemma {:induction false} MaskIsLow(x: nat, k: nat)
    ensures And(x, Pow2(k) - 1) == Low(x, k)
  {
    if x == 0 {
      LowIsMod(0, k);
    } else if k > 0 {
      MaskIsLow(x / 2, k - 1);
      AndOdd(x, Pow2(k - 1) - 1);
    }
  }

  /** Masking with 2^k - 1 is the remainder modulo 2^k. */
  lemma MaskIsMod(x: nat, k: nat)
    ensures And(x, Pow2(k) - 1) == x % Pow2(k)
  {
    MaskIsLow(x, k);
    LowIsMod(x, k);
  }

  lemma AndOdd(x: nat, n: nat)
    requires x > 0
    ensures And(x, 2 * n + 1) == 2 * And(x / 2, n) + x % 2
  {
    assert (2 * n + 1) / 2 == n && (2 * n + 1) % 2 == 1;
  }

  lemma HalfMod(x: nat, m: nat)
    requires m > 0
    ensures x % (2 * m) == 2 * ((x / 2) % m) + x % 2
  {
    var q, r := (x / 2) / m, (x / 2) % m;
    assert x == (2 * m) * q + (2 * r + x % 2) by {
      assert x / 2 == m * q + r;
      assert x == 2 * (m * q + r) + x % 2;
      assert 2 * (m * q) == (2 * m) * q;
    }
    ModUnique(x, 2 * m, q, 2 * r + x % 2);
  }

  lemma ModUnique(x: int, d: nat, q: int, r: nat)
    requires r < d && x == d * q + r
    ensures x / d == q && x % d == r
  {
    var q', r' := x / d, x % d;
    assert d * (q' - q) == r - r' by {
      assert x == d * q' + r';
      assert d * (q' - q) == d * q' - d * q;
    }
    MulAtLeast(d, q' - q);
  }

  lemma MulAtLeast(d: nat, n: int)
    ensures n >= 1 ==> d * n >= d
    ensures n <= -1 ==> d * n + d <= 0
  {}

  /** The test `c != 0 && (c & (c - 1)) == 0` accepts exactly the powers of two. */
  ghost predicate IsPow2(c: nat) {
    exists k: nat :: c == Pow2(k)
  }

  lemma {:induction false} PowerOfTwoTest(c: nat)
    requires c > 0
    ensures And(c, c - 1) == 0 <==> IsPow2(c)
  {
    if c == 1 {
      assert c == Pow2(0);
    } else if c % 2 == 1 {
      assert And(c, c - 1) == 2 * And(c / 2, c / 2);
      AndSelf(c / 2);
      assert forall k: nat :: Pow2(k) % 2 == 1 ==> k == 0;
    } else {
      PowerOfTwoTest(c / 2);
      assert (c - 1) / 2 == c / 2 - 1;
      if And(c, c - 1) == 0 {
        var k: nat :| c / 2 == Pow2(k);
        assert c == Pow2(k + 1);
      }
      if IsPow2(c) {
        var k: nat :| c == Pow2(k);
        assert c / 2 == Pow2(k - 1);
      }
    }
  }

  lemma {:induction false} AndSelf(x: nat)
    ensures And(x, x) == x
  {
    if x > 0 {
      AndSelf(x / 2);
    }
  }

  // ---- bits of a word ------------------------------------------------------------

  /** Is bit i of x set? */
  predicate TestBit(x: nat, i: nat)
    decreases i
  {
    if i == 0 then x % 2 == 1 else TestBit(x / 2, i - 1)
  }

  /** `x | y` on unsigned words. */
  function Or(x: nat, y: nat): (r: nat)
  {
    if x == 0 then y else if y == 0 then x
    else 2 * Or(x / 2, y / 2) + (if x % 2 == 1 || y % 2 == 1 then 1 else 0)
  }

  /** `~x` on w-bit words. */
  function Not(x: nat, w: nat): nat
    requires x < Pow2(w)
  {
    Pow2(w) - 1 - x
  }

  /** `-x` on w-bit words. */
  function Neg(x: nat, w: nat): nat
    requires x < Pow2(w)
  {
    if x == 0 then 0 else Pow2(w) - x
  }

  /** Count of trailing zeros. */
  function Ctz(x: nat): (r: nat)
    requires x > 0
    ensures TestBit(x, r)
  {
    if x % 2 == 1 then 0 else 1 + Ctz(x / 2)
  }

  lemma {:induction false} ZeroBits(i: nat)
    ensures !TestBit(0, i)
  {
    if i > 0 { ZeroBits(i - 1); }
  }

  lemma {:induction false} HighBits(x: nat, w: nat, i: nat)
    requires x < Pow2(w) && w <= i
    ensures !TestBit(x, i)
  {
    if w == 0 { ZeroBits(i); } else { HighBits(x / 2, w - 1, i - 1); }
  }

  lemma {:induction false} Pow2Bits(i: nat, j: nat)
    ensures TestBit(Pow2(i), j) <==> i == j
  {
    if i == 0 {
      if j > 0 { ZeroBits(j - 1); }
    } else if j > 0 {
      Pow2Bits(i - 1, j - 1);
    }
  }

  lemma {:induction false} AndBits(x: nat, y: nat, i: nat)
    ensures TestBit(And(x, y), i) <==> TestBit(x, i) && TestBit(y, i)
  {
    if x == 0 || y == 0 {
      ZeroBits(i);
    } else if i > 0 {
      AndBits(x / 2, y / 2, i - 1);
      assert And(x, y) / 2 == And(x / 2, y / 2);
    }
  }

  lemma {:induction false} OrBits(x: nat, y: nat, i: nat)
    ensures TestBit(Or(x, y), i) <==> TestBit(x, i) || TestBit(y, i)
  {
    if x == 0 || y == 0 {
      ZeroBits(i);
    } else if i > 0 {
      OrBits(x / 2, y / 2, i - 1);
      assert Or(x, y) / 2 == Or(x / 2, y / 2);
    }
  }

  lemma {:induction false} NotBits(x: nat, w: nat, i: nat)
    requires x < Pow2(w) && i < w
    ensures TestBit(Not(x, w), i) <==> !TestBit(x, i)
  {
    if i > 0 {
      NotBits(x / 2, w - 1, i - 1);
      assert Not(x, w) / 2 == Not(x / 2, w - 1);
    }
  }

  /** x splits into its bits in y and its bits outside y. */
  lemma {:induction false} AndNotSplit(x: nat, y: nat, w: nat)
    requires x < Pow2(w) && y < Pow2(w)
    ensures And(x, y) + And(x, Not(y, w)) == x
  {
    if w > 0 && x > 0 {
      AndNotSplit(x / 2, y / 2, w - 1);
      assert Not(y, w) / 2 == Not(y / 2, w - 1) && Not(y, w) % 2 == 1 - y % 2;
    }
  }

  lemma {:induction false} AndBound(x: nat, y: nat)
    ensures And(x, y) <= x && And(x, y) <= y
  {
    if x > 0 && y > 0 { AndBound(x / 2, y / 2); }
  }

  lemma {:induction false} OrBound(x: nat, y: nat, w: nat)
    requires x < Pow2(w) && y < Pow2(w)
    ensures Or(x, y) < Pow2(w)
  {
    if x > 0 && y > 0 { OrBound(x / 2, y / 2, w - 1); }
  }

  /** Words with the same bits are equal. */
  lemma {:induction false} BitsExtensional(x: nat, y: nat)
    requires forall i: nat :: TestBit(x, i) == TestBit(y, i)
    ensures x == y
    decreases x + y
  {
    if x + y > 0 {
      assert TestBit(x, 0) == TestBit(y, 0);
      forall i: nat
        ensures TestBit(x / 2, i) == TestBit(y / 2, i)
      {
        assert TestBit(x, i + 1) == TestBit(y, i + 1);
      }
      BitsExtensional(x / 2, y / 2);
    }
  }

  /** Subtracting one flips the bits up to the first set bit. */
  lemma {:induction false} PredBits(x: nat, i: nat)
    requires x > 0
    ensures TestBit(x - 1, i) <==> i < Ctz(x) || (i > Ctz(x) && TestBit(x, i))
  {
    if x % 2 == 0 && i > 0 {
      assert (x - 1) / 2 == x / 2 - 1;
      PredBits(x / 2, i - 1);
    } else if i > 0 {
      assert (x - 1) / 2 == x / 2;
    }
  }

  lemma {:induction false} CtzIsFirst(x: nat, i: nat)
    requires x > 0
    ensures TestBit(x, i) ==> Ctz(x) <= i
  {
    if x % 2 == 0 && i > 0 { CtzIsFirst(x / 2, i - 1); }
  }

  // ---- the bin-map macros, on 32-bit words -----------------------------------------

  /** `x |= 1 << i` */
  function SetBit(x: nat, i: nat): nat { Or(x, Pow2(i)) }

  /** `x &= ~(1 << i)` */
  function ClearBit(x: nat, i: nat): nat
    requires i < 32
  {
    Pow2Below(i);
    And(x, Not(Pow2(i), 32))
  }

  /** `x & -x` */
  function LeastBit(x: nat): nat
    requires x < WORD
  {
    Pow2Small();
    And(x, Neg(x, 32))
  }

  /** `(x << 1) | -(x << 1)` */
  function LeftBits(x: nat): nat
    requires x < WORD
  {
    Pow2Small();
    Or((2 * x) % WORD, Neg((2 * x) % WORD, 32))
  }

  lemma Pow2Below(i: nat)
    requires i < 32
    ensures Pow2(i) < Pow2(32) == WORD
  {
    Pow2Small();
    Pow2Monotone(i + 1, 32);
  }

  /** Marking and clearing a bin bit changes that bit and no other. */
  lemma MarkBits(x: nat, i: nat, j: nat)
    requires x < WORD && i < 32 && j < 32
    ensures TestBit(SetBit(x, i), j) <==> i == j || TestBit(x, j)
    ensures TestBit(ClearBit(x, i), j) <==> i != j && TestBit(x, j)
    ensures SetBit(x, i) < WORD && ClearBit(x, i) < WORD
  {
    Pow2Below(i);
    Pow2Bits(i, j);
    OrBits(x, Pow2(i), j);
    NotBits(Pow2(i), 32, j);
    AndBits(x, Not(Pow2(i), 32), j);
    OrBound(x, Pow2(i), 32);
    AndBound(x, Not(Pow2(i), 32));
  }

  lemma NegBits(x: nat, i: nat)
    requires 0 < x < Pow2(32) && i < 32
    ensures TestBit(Neg(x, 32), i) <==> i == Ctz(x) || (i > Ctz(x) && !TestBit(x, i))
  {
    assert Neg(x, 32) == Not(x - 1, 32);
    NotBits(x - 1, 32, i);
    PredBits(x, i);
  }

  /** `x & -x` isolates the first set bit. */
  lemma LeastBitIsFirst(x: nat)
    requires 0 < x < WORD
    ensures Ctz(x) < 32 && LeastBit(x) == Pow2(Ctz(x)) && Ctz(LeastBit(x)) == Ctz(x)
  {
    Pow2Small();
    if Ctz(x) >= 32 { HighBits(x, 32, Ctz(x)); }
    forall i: nat
      ensures TestBit(LeastBit(x), i) == TestBit(Pow2(Ctz(x)), i)
    {
      AndBits(x, Neg(x, 32), i);
      Pow2Bits(Ctz(x), i);
      CtzIsFirst(x, i);
      if i < 32 { NegBits(x, i); } else { HighBits(x, 32, i); }
    }
    BitsExtensional(LeastBit(x), Pow2(Ctz(x)));
    Pow2Bits(Ctz(x), Ctz(Pow2(Ctz(x))));
  }

  /** `left_bits(1 << i) & x` keeps exactly the bits of x above bit i. */
  lemma LeftBitsMask(x: nat, i: nat, j: nat)
    requires x < WORD && i < 32
    ensures Pow2(i) < WORD
    ensures TestBit(And(LeftBits(Pow2(i)), x), j) <==> i < j && TestBit(x, j)
  {
    Pow2Below(i);
    AndBits(LeftBits(Pow2(i)), x, j);
    Pow2Small();
    if j >= 32 {
      HighBits(x, 32, j);
    } else if i == 31 {
      assert (2 * Pow2(31)) % WORD == 0;
      ZeroBits(j);
    } else {
      Pow2Below(i + 1);
      var y := Pow2(i + 1);
      assert (2 * Pow2(i)) % WORD == y;
      OrBits(y, Neg(y, 32), j);
      NegBits(y, j);
      Pow2Bits(i + 1, j);
      Pow2Bits(i + 1, Ctz(y));
    }
  }
}
