/** Rounding addresses up with a mask, on 32-bit words. */
module Alignment {
  import opened Bits

  type Alignment = a: nat | 0 < a < WORD witness 8

  /** ALIGN(x, a): `(x + (a - 1)) & ~(a - 1)` */
  function Align(x: nat, a: Alignment): (r: nat) { And((x + a - 1) % WORD, WORD - a) }

  /** What the mask takes off. */
  lemma AlignSplit(x: nat, a: Alignment)
    ensures var y := (x + a - 1) % WORD; Align(x, a) == y - And(y, a - 1) && And(y, a - 1) < a
  {
    var y := (x + a - 1) % WORD;
    Pow2Small();
    AndNotSplit(y, a - 1, 32);
    AndBound(y, a - 1);
  }

  lemma AlignBelow(x: nat, a: Alignment)
    ensures Align(x, a) < WORD
  {
    AlignSplit(x, a);
  }

  /** For a power of two the mask leaves a multiple. */
  lemma AlignPow2(x: nat, a: Alignment)
    requires IsPow2(a)
    ensures Align(x, a) % a == 0
  {
    var k: nat :| a == Pow2(k);
    var y := (x + a - 1) % WORD;
    AlignSplit(x, a);
    MaskIsMod(y, k);
    DropRest(y, a);
  }

  /** Between a multiple and the one before it there is none. */
  lemma NoMultiple(m: nat, a: nat, y: nat)
    requires a > 0 && m % a == 0 && m < y + a && y < m
    ensures y % a != 0
  {
    if y % a == 0 {
      assert m == a * (m / a) && y == a * (y / a);
      assert m - y == a * (m / a - y / a);
      if m / a > y / a { AtLeastOne(a, m / a - y / a); } else { AtLeastOne(a, y / a - m / a + 1); }
    }
  }

  lemma AtLeastOne(a: nat, k: nat)
    requires a > 0 && k > 0
    ensures a * k >= a
  {}

  /** ALIGN gives the first multiple from the address on, if it does not run past the address space. */
  lemma AlignLeast(x: nat, a: Alignment, y: nat)
    requires IsPow2(a) && x + a <= WORD
    ensures x <= Align(x, a) < x + a && (x <= y < Align(x, a) ==> y % a != 0)
  {
    AlignSplit(x, a);
    SmallRest(x + a - 1, WORD);
    AlignPow2(x, a);
    if x <= y < Align(x, a) { NoMultiple(Align(x, a), a, y); }
  }

  lemma DropRest(y: nat, a: nat)
    requires a > 0
    ensures (y - y % a) % a == 0
  {
    ModUnique(y - y % a, a, y / a, 0);
  }

  lemma SmallRest(x: nat, a: nat)
    requires x < a
    ensures x % a == x
  {}

  /** The least bit of a, with a - 1 added, holds all bits of a - 1. */
  lemma {:induction false} LeastBitAdded(a: nat, w: nat)
    requires 0 < a < Pow2(w)
    ensures var x := Pow2(Ctz(a)); And(x + a - 1, a - 1) == a - 1 && x + a - 1 < Pow2(w) && x <= a
  {
    if a % 2 == 1 {
      assert (a - 1) / 2 == a / 2;
      AndSelf(a / 2);
    } else {
      var b := a / 2;
      LeastBitAdded(b, w - 1);
      var x := Pow2(Ctz(b));
      assert Pow2(Ctz(a)) == 2 * x;
      assert 2 * x + a - 1 == 2 * (x + b - 1) + 1;
      AndOdd(2 * x + a - 1, b - 1);
    }
  }

  /** For any other a the address that is its least bit stays where it is, between 0 and a. */
  lemma AlignFails(a: Alignment)
    requires !IsPow2(a)
    ensures var x := Pow2(Ctz(a)); x + a <= WORD && Align(x, a) == x && x % a != 0
  {
    var x := Pow2(Ctz(a));
    Pow2Small();
    LeastBitAdded(a, 32);
    AlignSplit(x, a);
    SmallRest(x + a - 1, WORD);
    assert x != a;
    SmallRest(x, a);
  }

  /** ALIGN aligns every address if and only if the alignment is a power of two, by the usual test. */
  lemma AlignExact(a: Alignment)
    ensures (forall x: nat :: x + a <= WORD ==> Align(x, a) % a == 0) <==> IsPow2(a)
    ensures IsPow2(a) <==> And(a, a - 1) == 0
  {
    PowerOfTwoTest(a);
    if IsPow2(a) {
      forall x: nat ensures Align(x, a) % a == 0 { AlignPow2(x, a); }
    } else {
      AlignFails(a);
    }
  }
}
