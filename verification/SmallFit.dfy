/** How dlmalloc picks a small bin, and why its pick is a best fit among all binned chunks. */
module SmallFit {
  import opened Bits
  import opened BinIndex
  import opened Chunks
  import opened Tries
  import opened TreeBins
  import opened TreeSearch
  import opened SmallBins
  import opened Bins
  import opened BinOps

  /** x >> k */
  function Shr(x: nat, k: nat): nat { if k == 0 then x else Shr(x / 2, k - 1) }

  lemma {:induction false} ShrBits(x: nat, k: nat, j: nat)
    ensures TestBit(Shr(x, k), j) <==> TestBit(x, k + j)
  {
    if k > 0 { ShrBits(x / 2, k - 1, j); }
  }

  lemma {:induction false} ShlBits(x: nat, k: nat, j: nat)
    ensures TestBit(Shl(x, k), j) <==> k <= j && TestBit(x, j - k)
  {
    if k > 0 {
      assert Shl(x, k) / 2 == Shl(x, k - 1) && Shl(x, k) % 2 == 0;
      if j > 0 { ShlBits(x, k - 1, j - 1); }
    }
  }

  lemma {:induction false} ShrShlBound(x: nat, k: nat)
    ensures Shl(Shr(x, k), k) <= x
  {
    if k > 0 { ShrShlBound(x / 2, k - 1); }
  }

  /** Bin i is the lowest marked bin from idx on. */
  ghost predicate LowestFrom(smallmap: nat, idx: nat, i: nat) {
    idx <= i < NSMALLBINS && TestBit(smallmap, i) && forall j :: idx <= j < i ==> !TestBit(smallmap, j)
  }

  /** The first test of dlmalloc: is bin idx or the one above it marked, and which of them is used. */
  method ExactBin(smallmap: nat, idx: nat) returns (found: bool, i: nat)
    requires smallmap < WORD && idx < NSMALLBINS
    ensures found ==> LowestFrom(smallmap, idx, i) && i <= idx + 1
    ensures !found ==> !TestBit(smallmap, idx) && !TestBit(smallmap, idx + 1)
  {
    var smallbits := Shr(smallmap, idx);
    ShrBits(smallmap, idx, 0);
    ShrBits(smallmap, idx, 1);
    assert TestBit(smallbits, 1) <==> (smallbits / 2) % 2 == 1;
    found := smallbits % 4 != 0;
    i := idx + (1 - smallbits % 2);
    if found && i == NSMALLBINS { Pow2Small(); HighBits(smallmap, 32, i); }
  }

  /** `(smallbits << idx) & left_bits(idx2bit(idx))` keeps the marked bins above idx. */
  lemma LeftBit(smallmap: nat, idx: nat, j: nat)
    requires smallmap < WORD && idx < NSMALLBINS
    ensures Pow2(idx) < WORD
    ensures TestBit(And(LeftBits(Pow2(idx)), Shl(Shr(smallmap, idx), idx)), j) <==> idx < j && TestBit(smallmap, j)
  {
    ShrShlBound(smallmap, idx);
    LeftBitsMask(Shl(Shr(smallmap, idx), idx), idx, j);
    ShlBits(Shr(smallmap, idx), idx, j);
    if idx <= j { ShrBits(smallmap, idx, j - idx); }
  }

  /** A non-zero smallbits has a marked bin. */
  lemma SomeMarked(smallmap: nat, idx: nat)
    requires Shr(smallmap, idx) != 0
    ensures exists j: nat :: idx <= j && TestBit(smallmap, j)
  {
    var k := Ctz(Shr(smallmap, idx));
    ShrBits(smallmap, idx, k);
    assert TestBit(smallmap, idx + k);
  }

  lemma NoneMarked(smallmap: nat, idx: nat)
    requires Shr(smallmap, idx) == 0
    ensures forall j :: idx <= j < NSMALLBINS ==> !TestBit(smallmap, j)
  {
    forall j | idx <= j < NSMALLBINS ensures !TestBit(smallmap, j) {
      ShrBits(smallmap, idx, j - idx);
      ZeroBits(j - idx);
    }
  }

  /** The lowest of them is the lowest marked bin from idx on, when idx is not marked. */
  lemma LeftMarked(smallmap: nat, idx: nat)
    requires smallmap < WORD && idx < NSMALLBINS && !TestBit(smallmap, idx) && Shr(smallmap, idx) != 0
    ensures Pow2(idx) < WORD && Shl(Shr(smallmap, idx), idx) < WORD
    ensures var left := And(LeftBits(Pow2(idx)), Shl(Shr(smallmap, idx), idx));
      0 < left < WORD && LeastBit(left) > 0 && LowestFrom(smallmap, idx, Ctz(LeastBit(left)))
  {
    ShrShlBound(smallmap, idx);
    Pow2Below(idx);
    var left := And(LeftBits(Pow2(idx)), Shl(Shr(smallmap, idx), idx));
    forall j: nat ensures TestBit(left, j) <==> idx < j && TestBit(smallmap, j) { LeftBit(smallmap, idx, j); }
    AndBound(LeftBits(Pow2(idx)), Shl(Shr(smallmap, idx), idx));
    SomeMarked(smallmap, idx);
    var m: nat :| idx <= m && TestBit(smallmap, m);
    assert TestBit(left, m);
    ZeroBits(m);
    LeastIsLowest(left);
  }

  lemma LeastIsLowest(x: nat)
    requires 0 < x < WORD
    ensures LeastBit(x) > 0 && Ctz(LeastBit(x)) < 32 && TestBit(x, Ctz(LeastBit(x)))
    ensures forall j: nat :: j < Ctz(LeastBit(x)) ==> !TestBit(x, j)
  {
    LeastBitIsFirst(x);
    forall j: nat | j < Ctz(LeastBit(x)) ensures !TestBit(x, j) { CtzIsFirst(x, j); }
  }

  /** The second test: the lowest marked bin above idx, when neither idx nor idx + 1 is marked. */
  method NextSmallBin(smallmap: nat, idx: nat) returns (found: bool, i: nat)
    requires smallmap < WORD && idx < NSMALLBINS && !TestBit(smallmap, idx) && !TestBit(smallmap, idx + 1)
    ensures found ==> LowestFrom(smallmap, idx, i) && i >= idx + 2
    ensures !found ==> forall j :: idx <= j < NSMALLBINS ==> !TestBit(smallmap, j)
  {
    var smallbits := Shr(smallmap, idx);
    found, i := smallbits != 0, 0;
    if !found {
      NoneMarked(smallmap, idx);
      return;
    }
    ShrShlBound(smallmap, idx);
    Pow2Below(idx);
    var leftbits := And(LeftBits(Pow2(idx)), Shl(smallbits, idx));
    LeftMarked(smallmap, idx);
    i := Ctz(LeastBit(leftbits));
  }

  /** The head of the lowest marked bin that fits is a best fit among all binned chunks. */
  lemma SmallBest(b: BinState, c: Content, h: Heads, nb: nat, i: nat)
    requires BinsOk(b, c, h) && nb % 8 == 0 && nb < 256 && LowestFrom(b.smallmap, nb / 8, i)
    ensures |c.small[i]| > 0 && IsBestFit(h, Members(c), nb, c.small[i][0])
  {
    FirstOfBin(b, c, h, i);
    forall a | a in Members(c) && Sz(h, a) >= nb ensures 8 * i <= Sz(h, a) {
      MemberKinds(b, c, h, a);
      SmallMember(c.small, h, b.rl, b.smallmap, a);
    }
  }

  /** Without a marked bin that fits, only large chunks fit. */
  lemma OnlyLarge(b: BinState, c: Content, h: Heads, nb: nat, a: Addr)
    requires BinsOk(b, c, h) && nb % 8 == 0 && nb < 256
    requires forall j :: nb / 8 <= j < NSMALLBINS ==> !TestBit(b.smallmap, j)
    ensures a in Members(c) && Sz(h, a) >= nb ==> a in ForestNodes(c.forest)
  {
    SmallMember(c.small, h, b.rl, b.smallmap, a);
  }

  /** The lowest non-empty tree bin. */
  lemma LowestTreeBin(f: seq<Trie>, treemap: nat)
    requires |f| == NTREEBINS && 0 < treemap < WORD
    requires forall j :: 0 <= j < NTREEBINS ==> (TestBit(treemap, j) <==> f[j].Node?)
    ensures LeastBit(treemap) > 0 && Ctz(LeastBit(treemap)) < NTREEBINS && f[Ctz(LeastBit(treemap))].Node?
    ensures forall j :: 0 <= j < Ctz(LeastBit(treemap)) ==> f[j].Empty?
  {
    LeastBitIsFirst(treemap);
    forall j | 0 <= j < Ctz(LeastBit(treemap)) ensures f[j].Empty? { CtzIsFirst(treemap, j); }
  }

  /** In the lowest non-empty tree bin i, every chunk fits a small request, and none elsewhere is smaller. */
  lemma LowestCovers(f: seq<Trie>, h: Heads, nb: nat, i: nat)
    requires Binned(f, h) && i < NTREEBINS && f[i].Node? && nb < 256 && forall j :: 0 <= j < i ==> f[j].Empty?
    ensures Covers(h, ForestNodes(f), nb, 0, f[i]) && forall b :: b in Nodes(f[i]) ==> nb <= Sz(h, b)
  {
    MinSizeAtLeast(i);
    forall a | a in ForestNodes(f) && a !in Nodes(f[i]) ensures forall b :: b in Nodes(f[i]) ==> Sz(h, b) < Sz(h, a) {
      var j :| 0 <= j < |f| && a in Nodes(f[j]);
      assert j > i;
      forall b | b in Nodes(f[i]) ensures Sz(h, b) < Sz(h, a) { BinOrder(f, h, i, j, b, a); }
    }
  }

  /** The search starts at the root of that bin, which fits, and goes on below it. */
  lemma FirstLarge(f: seq<Trie>, h: Heads, tl: TLinks, roots: seq<Addr>, treemap: nat, nb: nat, i: nat)
    returns (c': Cursor)
    requires ForestSearchable(f, h, tl, roots, treemap) && 0 < nb < MIN_LARGE_SIZE
    requires i < NTREEBINS && f[i].Node? && forall j :: 0 <= j < i ==> f[j].Empty?
    ensures var t := roots[i];
      && t != 0 && t in tl && t in ForestNodes(f) && nb <= Sz(h, t) < WORD
      && Settled(h, tl, ForestNodes(f), nb, i, t, if tl[t].left != 0 then tl[t].left else tl[t].right, c')
  {
    var t, u, c := roots[i], ForestNodes(f), Cursor(f[i], Bin(i), RangeLo(i), RangeBits(i));
    assert Searchable(f[i], h, tl, t, i, u);
    LowestCovers(f, h, nb, i);
    assert Settled(h, tl, u, nb, i, 0, t, c);
    InSubtree(h, tl, u, nb, i, 0, t, c);
    assert t in Nodes(f[i]);
    c' := LeftmostStep(h, tl, u, nb, i, 0, t, c, t);
  }

  /** The search from the root of that bin. */
  method LeastFrom(h: Heads, tl: TLinks, t0: Addr, nb: nat, ghost i: nat, ghost u: set<Addr>, ghost c: Cursor)
    returns (v: Addr, rsize: nat)
    requires t0 != 0 && t0 in tl && t0 in u && 0 < nb <= Sz(h, t0) && forall a :: a in u ==> Sz(h, a) < WORD
    requires Settled(h, tl, u, nb, i, t0, if tl[t0].left != 0 then tl[t0].left else tl[t0].right, c)
    ensures IsBestFit(h, u, nb, v) && rsize == Sz(h, v) - nb
  {
    WrappedProbe(Sz(h, t0), nb, WORD - nb);
    v, rsize := t0, (Sz(h, t0) - nb) % WORD;
    var t := if tl[t0].left != 0 then tl[t0].left else tl[t0].right;
    v, rsize := FindLeast(h, tl, nb, nb, i, v, rsize, t, u, c);
  }

  /** The search of tmalloc_small: a smallest chunk of all tree bins. */
  method LeastLarge(h: Heads, tl: TLinks, roots: seq<Addr>, treemap: nat, nb: nat, ghost f: seq<Trie>)
    returns (v: Addr, rsize: nat)
    requires ForestSearchable(f, h, tl, roots, treemap) && treemap != 0 && 0 < nb < MIN_LARGE_SIZE
    ensures IsBestFit(h, ForestNodes(f), nb, v) && rsize == Sz(h, v) - nb
  {
    LowestTreeBin(f, treemap);
    var i := Ctz(LeastBit(treemap));
    ghost var c := FirstLarge(f, h, tl, roots, treemap, nb, i);
    v, rsize := LeastFrom(h, tl, roots[i], nb, i, ForestNodes(f), c);
  }

  // ---- the searches over the bins seen as one set ----------------------------------------------------

  /** tmalloc_large's search: a best fit among all binned chunks for a large request. */
  method BestLarge(b: BinState, h: Heads, nb: nat, ghost c: Content, ghost u: set<Addr>) returns (v: Addr, rsize: nat)
    requires BinsHold(b, c, h, u) && MIN_LARGE_SIZE <= nb < WORD
    ensures v == 0 ==> forall a :: a in u ==> Sz(h, a) < nb
    ensures v != 0 ==> IsBestFit(h, u, nb, v) && rsize == Sz(h, v) - nb
  {
    Open(b, c, h, u);
    ForestIsSearchable(c.forest, h, b.tl, b.rl, b.roots, b.treemap);
    v, rsize := BestFit(h, b.tl, b.roots, b.treemap, nb, c.forest);
    forall a | a in u ensures a in ForestNodes(c.forest) || Sz(h, a) < nb { MemberKinds(b, c, h, a); }
  }

  /** A clear treemap: no large chunk is binned. */
  lemma NoTrees(b: BinState, c: Content, h: Heads, u: set<Addr>)
    requires BinsHold(b, c, h, u) && b.treemap == 0
    ensures forall a :: a in u ==> Sz(h, a) < MIN_LARGE_SIZE && Sz(h, a) % 8 == 0
  {
    Open(b, c, h, u);
    forall a | a in u ensures Sz(h, a) < MIN_LARGE_SIZE && Sz(h, a) % 8 == 0 {
      MemberKinds(b, c, h, a);
      SmallMember(c.small, h, b.rl, b.smallmap, a);
      if a in ForestNodes(c.forest) {
        var i :| 0 <= i < |c.forest| && a in Nodes(c.forest[i]);
        ZeroBits(i);
      }
    }
  }

  /** With the maps of both bins clear, no small chunk has the size of the request or the next one. */
  lemma ExactBinsEmpty(b: BinState, c: Content, h: Heads, u: set<Addr>, nb: nat)
    requires BinsHold(b, c, h, u) && nb % 8 == 0 && nb < MIN_LARGE_SIZE
    requires !TestBit(b.smallmap, nb / 8) && !TestBit(b.smallmap, nb / 8 + 1)
    ensures forall a :: a in u && Sz(h, a) < MIN_LARGE_SIZE ==> Sz(h, a) != nb && Sz(h, a) != nb + 8
  {
    Open(b, c, h, u);
    forall a | a in u && Sz(h, a) < MIN_LARGE_SIZE ensures Sz(h, a) != nb && Sz(h, a) != nb + 8 {
      MemberKinds(b, c, h, a);
      SmallMember(c.small, h, b.rl, b.smallmap, a);
    }
  }

  /** The small bins hold nothing that fits. */
  ghost predicate NoSmallFit(b: BinState, nb: nat) {
    forall j :: nb / 8 <= j < NSMALLBINS ==> !TestBit(b.smallmap, j)
  }

  /** tmalloc_small's search. */
  method BestSmall(b: BinState, h: Heads, nb: nat, ghost c: Content, ghost u: set<Addr>) returns (v: Addr, rsize: nat)
    requires BinsHold(b, c, h, u) && 0 < nb < MIN_LARGE_SIZE && nb % 8 == 0 && NoSmallFit(b, nb) && b.treemap != 0
    ensures IsBestFit(h, u, nb, v) && rsize == Sz(h, v) - nb
  {
    Open(b, c, h, u);
    ForestIsSearchable(c.forest, h, b.tl, b.rl, b.roots, b.treemap);
    v, rsize := LeastLarge(h, b.tl, b.roots, b.treemap, nb, c.forest);
    forall a | a in u && Sz(h, a) >= nb ensures a in ForestNodes(c.forest) { OnlyLarge(b, c, h, nb, a); }
  }

  lemma NothingFits(b: BinState, c: Content, h: Heads, u: set<Addr>, nb: nat)
    requires BinsHold(b, c, h, u) && nb % 8 == 0 && nb < MIN_LARGE_SIZE && NoSmallFit(b, nb) && b.treemap == 0
    ensures forall a :: a in u ==> Sz(h, a) < nb
  {
    NoTrees(b, c, h, u);
    Open(b, c, h, u);
    forall a | a in u ensures Sz(h, a) < nb {
      OnlyLarge(b, c, h, nb, a);
      MemberKinds(b, c, h, a);
    }
  }

  /** unlink_first_small_chunk on the lowest marked bin that fits. */
  method TakeSmall(b: BinState, h: Heads, nb: nat, i: nat, ghost c: Content, ghost u: set<Addr>)
    returns (p: Addr, b': BinState, ghost c': Content)
    requires BinsHold(b, c, h, u) && nb % 8 == 0 && nb < 256 && LowestFrom(b.smallmap, nb / 8, i)
    ensures p in u && Sz(h, p) == 8 * i && IsBestFit(h, u, nb, p) && BinsHold(b', c', h, u - {p})
  {
    Open(b, c, h, u);
    SmallBest(b, c, h, nb, i);
    FirstOfBin(b, c, h, i);
    b', p, c' := UnlinkFirstSmallChunk(b, i, c, h);
  }

  lemma MapBounds(b: BinState, c: Content, h: Heads, u: set<Addr>)
    requires BinsHold(b, c, h, u)
    ensures b.smallmap < WORD && b.treemap < WORD
  {
    Open(b, c, h, u);
  }
}
