/** The allocator's own corruption checks: in a sound heap none of them fails. */
module HeapChecks {
  import opened Bits
  import opened BinIndex
  import opened Chunks
  import opened Tries
  import opened TreeBins
  import opened TreeSearch
  import opened SmallBins
  import opened Bins
  import opened BinOps
  import opened Tiles
  import opened HeapInv
  import opened Malloc
  import opened HeapRuns

  // ---- what the code checks, pointer by pointer ---------------------------------------------------------

  /** ok_address, against least_addr */
  predicate OkAddress(least: Addr, a: Addr) { a >= least }

  /** ok_next(p, p + n), on words */
  predicate OkNext(p: Addr, n: nat) { p < (p + n) % WORD }

  /** unlink_small_chunk on x: both neighbours are the bin's header or chunks that link back. */
  predicate SmallChecks(m: Mem, least: Addr, x: Addr) {
    var rl, b := m.bins.rl, Hdr(Sz(m.heads, x) / 8);
    && x in rl && rl[x].fd in rl && rl[x].bk in rl && rl[x].fd != x && rl[x].bk != x
    && (rl[x].fd == b || (OkAddress(least, rl[x].fd) && rl[rl[x].fd].bk == x))
    && (rl[x].bk == b || (OkAddress(least, rl[x].bk) && rl[rl[x].bk].fd == x))
  }

  /** insert_small_chunk into bin i, and unlink_first_small_chunk: a marked bin's header leads to a chunk,
      and that chunk back to the header or to a chunk that links back. */
  predicate HeaderChecks(m: Mem, least: Addr, i: nat) {
    var rl := m.bins.rl;
    TestBit(m.bins.smallmap, i) ==>
      && Hdr(i) in rl && OkAddress(least, rl[Hdr(i)].fd) && rl[Hdr(i)].fd in rl
      && var f := rl[rl[Hdr(i)].fd].fd;
      && (f == Hdr(i) || (OkAddress(least, f) && f in rl && rl[f].bk == rl[Hdr(i)].fd))
  }

  /** unlink_large_chunk on x, and insert_large_chunk passing it: ring neighbours link back, and the parent, if it is
      followed, and the children are chunks. */
  predicate LargeChecks(m: Mem, least: Addr, x: Addr) {
    var rl, tl := m.bins.rl, m.bins.tl;
    && x in rl && rl[x].fd in rl && rl[x].bk in rl && x in tl && tl[x].index < |m.bins.roots|
    && OkAddress(least, rl[x].fd) && rl[rl[x].fd].bk == x && rl[rl[x].bk].fd == x
    && (tl[x].left != 0 ==> OkAddress(least, tl[x].left)) && (tl[x].right != 0 ==> OkAddress(least, tl[x].right))
    && (tl[x].parent != NoParent && m.bins.roots[tl[x].index] != x ==>
          tl[x].parent.Chunk? && OkAddress(least, tl[x].parent.a))
  }

  /** dlfree of chunk p: its footer names this allocator, and the headers around it agree. */
  predicate FreeChecks(m: Mem, least: Addr, footer: nat, p: Addr) {
    p in m.heads && OkAddress(least, p) && m.heads[p].cinuse && var n := p + m.heads[p].size;
    && OkNext(p, m.heads[p].size) && n in m.heads && m.heads[n].pinuse && n in m.foots && m.foots[n] == footer
    && (!m.heads[p].pinuse ==> p in m.foots && OkAddress(least, p - m.foots[p]))
  }

  /** A split of free chunk v for nb bytes. */
  predicate SplitChecks(m: Mem, least: Addr, v: Addr, nb: nat) {
    OkAddress(least, v) && OkNext(v, nb)
  }

  /** Every check of an operation that starts, or goes on, in this state. */
  ghost predicate Uncorrupted(m: Mem, w: View, footer: nat) {
    var least := w.seg.base;
    && (forall x :: x in w.binned ==>
          if Sz(m.heads, x) < 256 then SmallChecks(m, least, x) else LargeChecks(m, least, x))
    && (forall i: nat :: i < NSMALLBINS ==> HeaderChecks(m, least, i))
    && (forall p :: p in InUse(w.seg, m.heads) ==> FreeChecks(m, least, footer, p))
    && (forall v, nb: nat :: v in FreeChunks(w.seg, m.heads) && 0 < nb <= Sz(m.heads, v) ==>
         SplitChecks(m, least, v, nb))
  }

  // ---- they hold -------------------------------------------------------------------------------------

  /** Around a ring every link has its inverse. */
  lemma RingBack(rl: RLinks, c: seq<Addr>, x: Addr)
    requires Ring(rl, c) && x in c
    ensures x in rl && rl[x].fd in c && rl[x].bk in c && rl[x].fd in rl && rl[x].bk in rl
    ensures rl[rl[x].fd].bk == x && rl[rl[x].bk].fd == x && (|c| > 1 ==> rl[x].fd != x && rl[x].bk != x)
  {
    var j :| 0 <= j < |c| && c[j] == x;
    assert rl[x].fd == (if j == |c| - 1 then c[0] else c[j + 1]);
    assert rl[x].bk == (if j == 0 then c[|c| - 1] else c[j - 1]);
  }

  lemma ChildIn(t: Trie, tl: TLinks, a: Addr, p: Parent, i: nat)
    requires Linked(t, tl, a, p, i)
    ensures a != 0 ==> a in Nodes(t)
  {}

  lemma {:induction false} TreeWithin(t: Trie, tl: TLinks, rl: RLinks, a: Addr, p: Parent, i: nat, x: Addr)
    requires Linked(t, tl, a, p, i) && Rings(t, rl) && x in Nodes(t)
    ensures x in rl && rl[x].fd in Nodes(t) && rl[x].fd in rl && rl[x].bk in rl
    ensures rl[rl[x].fd].bk == x && rl[rl[x].bk].fd == x
  {
    if x in t.chain { RingBack(rl, t.chain, x); }
    else if x in Nodes(t.left) { TreeWithin(t.left, tl, rl, tl[a].left, Chunk(a), i, x); }
    else { TreeWithin(t.right, tl, rl, tl[a].right, Chunk(a), i, x); }
  }

  lemma {:induction false} TopWithin(t: Trie, tl: TLinks, a: Addr, p: Parent, i: nat, x: Addr)
    requires Linked(t, tl, a, p, i) && x in Tops(t)
    ensures x in tl && tl[x].index == i && (tl[x].left != 0 ==> tl[x].left in Nodes(t))
    ensures tl[x].right != 0 ==> tl[x].right in Nodes(t)
    ensures x == a || (tl[x].parent.Chunk? && tl[x].parent.a in Nodes(t))
  {
    ChildIn(t.left, tl, tl[a].left, Chunk(a), i);
    ChildIn(t.right, tl, tl[a].right, Chunk(a), i);
    if x in Tops(t.left) { TopWithin(t.left, tl, tl[a].left, Chunk(a), i, x); }
    else if x in Tops(t.right) { TopWithin(t.right, tl, tl[a].right, Chunk(a), i, x); }
    assert a in t.chain;
  }

  /** The chunks of a tree bin pass the checks of the tree operations. */
  lemma LargeBinPasses(m: Mem, least: Addr, t: Trie, i: nat, x: Addr)
    requires i < NTREEBINS == |m.bins.roots| && BinOk(t, m.heads, m.bins.tl, m.bins.rl, m.bins.roots[i], i)
    requires x in Nodes(t) && forall a :: a in Nodes(t) ==> OkAddress(least, a)
    ensures LargeChecks(m, least, x)
  {
    TreeWithin(t, m.bins.tl, m.bins.rl, m.bins.roots[i], Bin(i), i, x);
    if x in Tops(t) { TopWithin(t, m.bins.tl, m.bins.roots[i], Bin(i), i, x); }
  }

  /** The chunks of a small bin pass the checks of the list operations, and so does its header. */
  lemma SmallBinPasses(m: Mem, least: Addr, c: seq<Addr>, i: nat, x: Addr)
    requires SmallBinOk(c, m.heads, m.bins.rl, i) && x in c && forall a :: a in c ==> OkAddress(least, a)
    ensures SmallChecks(m, least, x)
  {
    RingBack(m.bins.rl, [Hdr(i)] + c, x);
  }

  lemma HeaderPasses(m: Mem, least: Addr, c: seq<Addr>, i: nat)
    requires SmallBinOk(c, m.heads, m.bins.rl, i) && |c| > 0 && forall a :: a in c ==> OkAddress(least, a)
    ensures HeaderChecks(m, least, i)
  {
    var r := [Hdr(i)] + c;
    assert r[0] == Hdr(i) && r[1] == c[0] && c[0] in r;
    RingBack(m.bins.rl, r, c[0]);
    RingBack(m.bins.rl, r, Hdr(i));
  }

  lemma BinnedPasses(m: Mem, w: View, footer: nat, held: set<Addr>, x: Addr)
    requires Sound(m, w, footer, held) && x in w.binned
    ensures if Sz(m.heads, x) < 256 then SmallChecks(m, w.seg.base, x) else LargeChecks(m, w.seg.base, x)
  {
    Open(m.bins, w.content, m.heads, w.binned);
    MemberKinds(m.bins, w.content, m.heads, x);
    BinnedAddresses(m, w, footer, held);
    if Sz(m.heads, x) < 256 {
      SmallMember(w.content.small, m.heads, m.bins.rl, m.bins.smallmap, x);
      var i := Sz(m.heads, x) / 8;
      assert SmallBinOk(w.content.small[i], m.heads, m.bins.rl, i);
      assert forall a :: a in w.content.small[i] ==> a in SmallNodes(w.content.small);
      SmallBinPasses(m, w.seg.base, w.content.small[i], i, x);
    } else {
      var i :| 0 <= i < |w.content.forest| && x in Nodes(w.content.forest[i]);
      assert BinOk(w.content.forest[i], m.heads, m.bins.tl, m.bins.rl, m.bins.roots[i], i);
      NodesInForest(w.content.forest, i);
      LargeBinPasses(m, w.seg.base, w.content.forest[i], i, x);
    }
  }

  /** Binned chunks lie in the segment. */
  lemma BinnedAddresses(m: Mem, w: View, footer: nat, held: set<Addr>)
    requires Sound(m, w, footer, held)
    ensures forall a :: a in w.binned ==> OkAddress(w.seg.base, a)
  {
    forall a | a in w.binned ensures OkAddress(w.seg.base, a) {
      assert a in FreeChunks(w.seg, m.heads);
      assert TileOk(w.seg, m.heads, m.foots, a);
    }
  }

  lemma HeadersPass(m: Mem, w: View, footer: nat, held: set<Addr>, i: nat)
    requires Sound(m, w, footer, held) && i < NSMALLBINS
    ensures HeaderChecks(m, w.seg.base, i)
  {
    Open(m.bins, w.content, m.heads, w.binned);
    BinnedAddresses(m, w, footer, held);
    assert SmallBinOk(w.content.small[i], m.heads, m.bins.rl, i);
    assert forall a :: a in w.content.small[i] ==> a in SmallNodes(w.content.small);
    if TestBit(m.bins.smallmap, i) { HeaderPasses(m, w.seg.base, w.content.small[i], i); }
  }

  lemma WordNext(p: Addr, n: nat)
    requires 0 < p && 0 < n && p + n < WORD
    ensures OkNext(p, n)
  {}

  lemma UsedPasses(m: Mem, w: View, footer: nat, held: set<Addr>, p: Addr)
    requires Sound(m, w, footer, held) && p in InUse(w.seg, m.heads)
    ensures FreeChecks(m, w.seg.base, footer, p)
  {
    assert TileOk(w.seg, m.heads, m.foots, p);
    var n := p + m.heads[p].size;
    assert TileOk(w.seg, m.heads, m.foots, n);
    WordNext(p, m.heads[p].size);
    if !m.heads[p].pinuse { assert TileOk(w.seg, m.heads, m.foots, p - m.foots[p]); }
  }

  lemma FreePasses(m: Mem, w: View, footer: nat, held: set<Addr>, v: Addr, nb: nat)
    requires Sound(m, w, footer, held) && v in FreeChunks(w.seg, m.heads) && 0 < nb <= Sz(m.heads, v)
    ensures SplitChecks(m, w.seg.base, v, nb)
  {
    assert TileOk(w.seg, m.heads, m.foots, v);
    assert TileOk(w.seg, m.heads, m.foots, v + m.heads[v].size);
    WordNext(v, nb);
  }

  /** In every sound state, also with free chunks in the hands of a running operation, all checks pass. */
  lemma NothingCorrupt(m: Mem, w: View, footer: nat, held: set<Addr>)
    requires Sound(m, w, footer, held)
    ensures Uncorrupted(m, w, footer)
  {
    var least := w.seg.base;
    forall x | x in w.binned
      ensures if Sz(m.heads, x) < 256 then SmallChecks(m, least, x) else LargeChecks(m, least, x)
    {
      BinnedPasses(m, w, footer, held, x);
    }
    forall i: nat | i < NSMALLBINS ensures HeaderChecks(m, least, i) { HeadersPass(m, w, footer, held, i); }
    forall p | p in InUse(w.seg, m.heads) ensures FreeChecks(m, least, footer, p) { UsedPasses(m, w, footer, held, p); }
    forall v, nb: nat | v in FreeChunks(w.seg, m.heads) && 0 < nb <= Sz(m.heads, v)
      ensures SplitChecks(m, least, v, nb)
    {
      FreePasses(m, w, footer, held, v, nb);
    }
  }

  lemma NothingYet(m: Mem, w: View, footer: nat)
    requires Zeroed(m, w)
    ensures Uncorrupted(m, w, footer)
  {
    forall i: nat | i < NSMALLBINS ensures HeaderChecks(m, w.seg.base, i) { ZeroBits(i); }
  }

  /** At no moment of any run would a check fail, and no release of a block the program holds is refused. */
  lemma NeverCorrupt(tr: seq<Moment>, ops: seq<Op>, got: seq<Addr>, footer: nat, k: nat)
    requires Runs(tr, ops, got, footer) && k < |tr|
    ensures Uncorrupted(tr[k].m, tr[k].w, footer)
    ensures forall b :: b in tr[k].blocks ==> FreeChecks(tr[k].m, tr[k].w.seg.base, footer, b.chunk)
  {
    var x := tr[k];
    assert Good(x, footer);
    if Zeroed(x.m, x.w) { NothingYet(x.m, x.w, footer); }
    else { NothingCorrupt(x.m, x.w, footer, {}); }
    forall b | b in x.blocks ensures FreeChecks(x.m, x.w.seg.base, footer, b.chunk) { ChunkIn(x.blocks, b); }
  }
}
