/** All bins of malloc_state together, and the loops that walk them. */
module Bins {
  import opened Basics
  import opened Bits
  import opened BinIndex
  import opened Chunks
  import opened Tries
  import opened TrieRemoval
  import opened TrieUnlink
  import opened TreeBins
  import opened TreeSearch
  import opened SmallBins

  /** The bin fields of malloc_state and the link fields of binned chunks. */
  datatype BinState = BinState(rl: RLinks, tl: TLinks, smallmap: nat, treemap: nat, roots: seq<Addr>)

  /** What the bins hold: a list per small bin and a trie per tree bin. */
  datatype Content = Content(small: seq<seq<Addr>>, forest: seq<Trie>)

  ghost predicate BinsOk(b: BinState, c: Content, h: Heads) {
    SmallOk(c.small, h, b.rl, b.smallmap) && ForestOk(c.forest, h, b.tl, b.rl, b.roots, b.treemap)
  }

  ghost function Members(c: Content): set<Addr> { SmallNodes(c.small) + ForestNodes(c.forest) }

  /** Small and large chunks never share a bin. */
  lemma MemberKinds(b: BinState, c: Content, h: Heads, a: Addr)
    requires BinsOk(b, c, h)
    ensures a in SmallNodes(c.small) ==> a > 0 && Sz(h, a) < 256
    ensures a in ForestNodes(c.forest) ==> a > 0 && 256 <= Sz(h, a) < WORD
  {
    SmallMember(c.small, h, b.rl, b.smallmap, a);
    if a in ForestNodes(c.forest) {
      var i :| 0 <= i < |c.forest| && a in Nodes(c.forest[i]);
      assert BinOk(c.forest[i], h, b.tl, b.rl, b.roots[i], i);
      MinSizeAtLeast(i);
    }
  }

  lemma MinSizeAtLeast(i: nat)
    ensures MinSize(i) >= 256
  {
    Pow2Small();
    Pow2Monotone(8, i / 2 + 8);
  }

  lemma SmallFrame(f: seq<seq<Addr>>, h: Heads, h': Heads, rl: RLinks, rl': RLinks, smallmap: nat)
    requires SmallOk(f, h, rl, smallmap)
    requires forall a :: a in SmallNodes(f) ==> Sz(h', a) == Sz(h, a)
    requires forall a :: a in rl && (a in SmallNodes(f) || a < 0) ==> a in rl' && rl'[a] == rl[a]
    ensures SmallOk(f, h', rl', smallmap)
  {
    forall i | 0 <= i < NSMALLBINS ensures SmallBinOk(f[i], h', rl', i) {
      assert SmallBinOk(f[i], h, rl, i);
      assert forall a :: a in f[i] ==> a in SmallNodes(f);
      SmallBins.BinFrame(f[i], h, rl, h', rl', i);
    }
  }

  lemma ForestFrame(f: seq<Trie>, h: Heads, h': Heads, tl: TLinks, tl': TLinks, rl: RLinks, rl': RLinks,
                    roots: seq<Addr>, treemap: nat)
    requires ForestOk(f, h, tl, rl, roots, treemap)
    requires forall a :: a in ForestNodes(f) ==> Sz(h', a) == Sz(h, a)
    requires forall a :: a in tl && a in ForestNodes(f) ==> a in tl' && tl'[a] == tl[a]
    requires forall a :: a in rl && a in ForestNodes(f) ==> a in rl' && rl'[a] == rl[a]
    ensures ForestOk(f, h', tl', rl', roots, treemap)
  {
    forall i | 0 <= i < NTREEBINS ensures BinOk(f[i], h', tl', rl', roots[i], i) {
      assert BinOk(f[i], h, tl, rl, roots[i], i);
      NodesInForest(f, i);
      PointersFrame(f[i], tl, rl, tl', rl', roots[i], i);
      SizesFrame(f[i], h, h', i);
    }
  }

  /** Header writes outside the bins' chunks leave the bins as they are. */
  lemma BinsFrame(b: BinState, c: Content, h: Heads, h': Heads)
    requires BinsOk(b, c, h)
    requires forall a :: a in Members(c) ==> Sz(h', a) == Sz(h, a)
    ensures BinsOk(b, c, h')
  {
    SmallFrame(c.small, h, h', b.rl, b.rl, b.smallmap);
    ForestFrame(c.forest, h, h', b.tl, b.tl, b.rl, b.rl, b.roots, b.treemap);
  }

  // ---- small bins --------------------------------------------------------------------------

  /** insert_small_chunk */
  function InsertSmall(b: BinState, i: nat, x: Addr): BinState
    requires TestBit(b.smallmap, i) ==> Hdr(i) in b.rl && b.rl[Hdr(i)].fd in b.rl
  {
    var marked := TestBit(b.smallmap, i);
    b.(rl := InsertWrites(b.rl, i, marked, x), smallmap := if marked then b.smallmap else SetBit(b.smallmap, i))
  }

  lemma OtherSmallBins(f: seq<seq<Addr>>, h: Heads, rl: RLinks, smallmap: nat, i: nat, j: nat, a: Addr)
    requires SmallOk(f, h, rl, smallmap) && i < NSMALLBINS && j < NSMALLBINS && i != j && a in f[j]
    ensures a !in f[i]
  {
    assert SmallBinOk(f[j], h, rl, j);
    assert SmallBinOk(f[i], h, rl, i);
  }

  /** A small bin is replaced: the others are untouched. */
  lemma SmallUpdate(f: seq<seq<Addr>>, h: Heads, rl: RLinks, smallmap: nat, i: nat, d: seq<Addr>, rl': RLinks,
                    smallmap': nat)
    requires SmallOk(f, h, rl, smallmap) && i < NSMALLBINS && smallmap' < WORD
    requires SmallBinOk(d, h, rl', i)
    requires forall j :: 0 <= j < NSMALLBINS && j != i ==> (TestBit(smallmap', j) <==> TestBit(smallmap, j))
    requires TestBit(smallmap', i) <==> |d| > 0
    requires forall a :: a in rl && (a in SmallNodes(f) || a < 0) && a !in f[i] && a != Hdr(i) ==>
      a in rl' && rl'[a] == rl[a]
    ensures SmallOk(f[i := d], h, rl', smallmap')
  {
    var g := f[i := d];
    forall j | 0 <= j < NSMALLBINS ensures SmallBinOk(g[j], h, rl', j) {
      if j != i {
        assert SmallBinOk(f[j], h, rl, j);
        forall a | a in f[j] ensures a !in f[i] && a in SmallNodes(f) { OtherSmallBins(f, h, rl, smallmap, i, j, a); }
        SmallBins.BinFrame(f[j], h, rl, h, rl', j);
      }
    }
  }

  lemma SmallNodesUpdate(f: seq<seq<Addr>>, h: Heads, rl: RLinks, smallmap: nat, i: nat, d: seq<Addr>)
    requires SmallOk(f, h, rl, smallmap) && i < NSMALLBINS
    ensures SmallNodes(f[i := d]) == SmallNodes(f) - Elems(f[i]) + Elems(d)
  {
    var g := f[i := d];
    forall a | a in SmallNodes(g) ensures a in SmallNodes(f) - Elems(f[i]) + Elems(d) {
      var j :| 0 <= j < |g| && a in g[j];
      if j != i { OtherSmallBins(f, h, rl, smallmap, i, j, a); }
    }
    forall a | a in SmallNodes(f) - Elems(f[i]) + Elems(d) ensures a in SmallNodes(g) {
      if a in d {
        assert a in g[i];
      } else {
        var j :| 0 <= j < |f| && a in f[j];
        assert a in g[j];
      }
    }
  }

  /** Ring writes at bin headers and small chunks leave the trees alone. */
  lemma ForestApart(b: BinState, c: Content, h: Heads, rl': RLinks, s: set<Addr>)
    requires BinsOk(b, c, h) && s !! ForestNodes(c.forest)
    requires forall a :: a in b.rl && a > 0 && a !in s ==> a in rl' && rl'[a] == b.rl[a]
    ensures ForestOk(c.forest, h, b.tl, rl', b.roots, b.treemap)
  {
    forall a | a in ForestNodes(c.forest) ensures a > 0 { MemberKinds(b, c, h, a); }
    ForestFrame(c.forest, h, h, b.tl, b.tl, b.rl, rl', b.roots, b.treemap);
  }

  lemma SmallNodesGain(f: seq<seq<Addr>>, h: Heads, rl: RLinks, smallmap: nat, i: nat, x: Addr)
    requires SmallOk(f, h, rl, smallmap) && i < NSMALLBINS
    ensures SmallNodes(f[i := [x] + f[i]]) == SmallNodes(f) + {x}
  {
    SmallNodesUpdate(f, h, rl, smallmap, i, [x] + f[i]);
    assert Elems([x] + f[i]) == Elems(f[i]) + {x};
    assert forall a :: a in f[i] ==> a in SmallNodes(f);
  }

  lemma InsertSmallList(f: seq<seq<Addr>>, b: BinState, h: Heads, i: nat, x: Addr)
    requires SmallOk(f, h, b.rl, b.smallmap) && i < NSMALLBINS && x > 0 && Sz(h, x) == 8 * i && x !in SmallNodes(f)
    ensures TestBit(b.smallmap, i) ==> Hdr(i) in b.rl && b.rl[Hdr(i)].fd in b.rl && b.rl[Hdr(i)].fd in f[i]
    ensures SmallOk(f[i := [x] + f[i]], h, InsertSmall(b, i, x).rl, InsertSmall(b, i, x).smallmap)
    ensures SmallNodes(f[i := [x] + f[i]]) == SmallNodes(f) + {x}
  {
    assert SmallBinOk(f[i], h, b.rl, i);
    assert forall a :: a in f[i] ==> a in SmallNodes(f);
    SmallBins.InsertBin(f[i], h, b.rl, i, x);
    var b' := InsertSmall(b, i, x);
    forall j | 0 <= j < 32
      ensures TestBit(b'.smallmap, j) <==> i == j || TestBit(b.smallmap, j)
    {
      MarkBits(b.smallmap, i, j);
    }
    MarkBits(b.smallmap, i, i);
    SmallUpdate(f, h, b.rl, b.smallmap, i, [x] + f[i], b'.rl, b'.smallmap);
    SmallNodesGain(f, h, b.rl, b.smallmap, i, x);
  }

  lemma InsertSmallOk(b: BinState, c: Content, h: Heads, i: nat, x: Addr)
    requires BinsOk(b, c, h) && i < NSMALLBINS && x > 0 && Sz(h, x) == 8 * i && x !in Members(c)
    ensures TestBit(b.smallmap, i) ==> Hdr(i) in b.rl && b.rl[Hdr(i)].fd in b.rl
    ensures var c' := c.(small := c.small[i := [x] + c.small[i]]);
      BinsOk(InsertSmall(b, i, x), c', h) && Members(c') == Members(c) + {x}
  {
    InsertSmallList(c.small, b, h, i, x);
    forall a | a in ForestNodes(c.forest) ensures a !in c.small[i] {
      MemberKinds(b, c, h, a);
      SmallMember(c.small, h, b.rl, b.smallmap, a);
    }
    ForestApart(b, c, h, InsertSmall(b, i, x).rl, Elems(c.small[i]) + {x});
  }

  /** unlink_small_chunk */
  function UnlinkSmall(b: BinState, i: nat, x: Addr): BinState
    requires i < NSMALLBINS && x in b.rl && b.rl[x].fd in b.rl && b.rl[x].bk in b.rl
  {
    b.(rl := UnlinkWrites(b.rl, x),
       smallmap := if b.rl[x].fd == b.rl[x].bk then ClearBit(b.smallmap, i) else b.smallmap)
  }

  lemma UnlinkSmallList(f: seq<seq<Addr>>, b: BinState, h: Heads, i: nat, j: nat)
    requires SmallOk(f, h, b.rl, b.smallmap) && i < NSMALLBINS && j < |f[i]|
    ensures var x := f[i][j]; x in b.rl && b.rl[x].fd in b.rl && b.rl[x].bk in b.rl && x in SmallNodes(f)
    ensures var x := f[i][j]; var b' := UnlinkSmall(b, i, x); var d := DropAt(f[i], j);
      && SmallOk(f[i := d], h, b'.rl, b'.smallmap) && SmallNodes(f[i := d]) == SmallNodes(f) - {x}
      && (forall a :: a in b.rl && a !in f[i] && a > 0 ==> a in b'.rl && b'.rl[a] == b.rl[a])
  {
    var x := f[i][j];
    assert SmallBinOk(f[i], h, b.rl, i);
    Neighbours(f[i], h, b.rl, i, x);
    UnlinkBin(f[i], h, b.rl, i, j);
    BinNoDup(f[i], h, b.rl, i);
    DropAtFacts(f[i], j);
    var b' := UnlinkSmall(b, i, x);
    UnlinkedBit(b.smallmap, i, |f[i]| > 1);
    SmallUpdate(f, h, b.rl, b.smallmap, i, DropAt(f[i], j), b'.rl, b'.smallmap);
    SmallNodesUpdate(f, h, b.rl, b.smallmap, i, DropAt(f[i], j));
    assert x in f[i] && x in SmallNodes(f);
  }

  lemma UnlinkedBit(smallmap: nat, i: nat, more: bool)
    requires smallmap < WORD && i < NSMALLBINS && TestBit(smallmap, i)
    ensures var m := if more then smallmap else ClearBit(smallmap, i);
      && m < WORD && (TestBit(m, i) <==> more)
      && forall k :: 0 <= k < NSMALLBINS && k != i ==> (TestBit(m, k) <==> TestBit(smallmap, k))
  {
    MarkBits(smallmap, i, i);
    forall k | 0 <= k < NSMALLBINS
      ensures TestBit(ClearBit(smallmap, i), k) <==> i != k && TestBit(smallmap, k)
    {
      MarkBits(smallmap, i, k);
    }
  }

  lemma UnlinkSmallOk(b: BinState, c: Content, h: Heads, i: nat, j: nat)
    requires BinsOk(b, c, h) && i < NSMALLBINS && j < |c.small[i]|
    ensures var x := c.small[i][j]; x in b.rl && b.rl[x].fd in b.rl && b.rl[x].bk in b.rl
    ensures var x := c.small[i][j]; var c' := c.(small := c.small[i := DropAt(c.small[i], j)]);
      BinsOk(UnlinkSmall(b, i, x), c', h) && Members(c') == Members(c) - {x} && x in Members(c)
  {
    var x := c.small[i][j];
    UnlinkSmallList(c.small, b, h, i, j);
    forall a | a in ForestNodes(c.forest) ensures a !in c.small[i] && a > 0 && a != x {
      MemberKinds(b, c, h, a);
      SmallMember(c.small, h, b.rl, b.smallmap, a);
    }
    ForestFrame(c.forest, h, h, b.tl, b.tl, b.rl, UnlinkSmall(b, i, x).rl, b.roots, b.treemap);
  }

  // ---- tree bins ---------------------------------------------------------------------------

  lemma OtherTreeBins(f: seq<Trie>, h: Heads, tl: TLinks, rl: RLinks, roots: seq<Addr>, treemap: nat, i: nat, j: nat,
                      a: Addr)
    requires ForestOk(f, h, tl, rl, roots, treemap) && i < NTREEBINS && j < NTREEBINS && i != j && a in Nodes(f[j])
    ensures a !in Nodes(f[i])
  {
    ForestBinned(f, h, tl, rl, roots, treemap);
    if a in Nodes(f[i]) {
      if i < j { BinOrder(f, h, i, j, a, a); } else { BinOrder(f, h, j, i, a, a); }
    }
  }

  lemma TreeBinsApart(f: seq<Trie>, h: Heads, tl: TLinks, rl: RLinks, roots: seq<Addr>, treemap: nat, i: nat, j: nat)
    requires ForestOk(f, h, tl, rl, roots, treemap) && i < NTREEBINS && j < NTREEBINS && i != j
    ensures Nodes(f[i]) !! Nodes(f[j])
  {
    forall a | a in Nodes(f[j]) ensures a !in Nodes(f[i]) { OtherTreeBins(f, h, tl, rl, roots, treemap, i, j, a); }
  }

  lemma ForestNodesReplace(f: seq<Trie>, i: nat, t: Trie)
    requires i < |f| && forall j :: 0 <= j < |f| && j != i ==> Nodes(f[i]) !! Nodes(f[j])
    ensures ForestNodes(f[i := t]) == ForestNodes(f) - Nodes(f[i]) + Nodes(t)
  {
    var g := f[i := t];
    forall a | a in ForestNodes(g) ensures a in ForestNodes(f) - Nodes(f[i]) + Nodes(t) {
      var j :| 0 <= j < |g| && a in Nodes(g[j]);
    }
    forall a | a in ForestNodes(f) - Nodes(f[i]) + Nodes(t) ensures a in ForestNodes(g) {
      if a in Nodes(t) {
        assert a in Nodes(g[i]);
      } else {
        var j :| 0 <= j < |f| && a in Nodes(f[j]);
        assert a in Nodes(g[j]);
      }
    }
  }

  lemma ForestNodesUpdate(f: seq<Trie>, h: Heads, tl: TLinks, rl: RLinks, roots: seq<Addr>, treemap: nat, i: nat,
                          t: Trie)
    requires ForestOk(f, h, tl, rl, roots, treemap) && i < NTREEBINS
    ensures ForestNodes(f[i := t]) == ForestNodes(f) - Nodes(f[i]) + Nodes(t)
  {
    forall j | 0 <= j < |f| && j != i ensures Nodes(f[i]) !! Nodes(f[j]) {
      TreeBinsApart(f, h, tl, rl, roots, treemap, i, j);
    }
    ForestNodesReplace(f, i, t);
  }

  lemma OtherBinKept(f: seq<Trie>, h: Heads, tl: TLinks, rl: RLinks, roots: seq<Addr>, treemap: nat, i: nat, j: nat,
                     tl': TLinks, rl': RLinks)
    requires ForestOk(f, h, tl, rl, roots, treemap) && i < NTREEBINS && j < NTREEBINS && i != j
    requires forall a :: a in ForestNodes(f) && a !in Nodes(f[i]) && a in tl ==> a in tl' && tl'[a] == tl[a]
    requires forall a :: a in ForestNodes(f) && a !in Nodes(f[i]) && a in rl ==> a in rl' && rl'[a] == rl[a]
    ensures BinOk(f[j], h, tl', rl', roots[j], j)
  {
    assert BinOk(f[j], h, tl, rl, roots[j], j);
    NodesInForest(f, j);
    TreeBinsApart(f, h, tl, rl, roots, treemap, i, j);
    PointersFrame(f[j], tl, rl, tl', rl', roots[j], j);
  }

  lemma BinAfter(f: seq<Trie>, h: Heads, tl: TLinks, rl: RLinks, roots: seq<Addr>, treemap: nat,
                 i: nat, t: Trie, tl': TLinks, rl': RLinks, root: Addr, j: nat)
    requires ForestOk(f, h, tl, rl, roots, treemap) && i < NTREEBINS && j < NTREEBINS
    requires BinOk(t, h, tl', rl', root, i)
    requires forall a :: a in ForestNodes(f) && a !in Nodes(f[i]) && a in tl ==> a in tl' && tl'[a] == tl[a]
    requires forall a :: a in ForestNodes(f) && a !in Nodes(f[i]) && a in rl ==> a in rl' && rl'[a] == rl[a]
    ensures BinOk(f[i := t][j], h, tl', rl', roots[i := root][j], j)
  {
    if j != i { OtherBinKept(f, h, tl, rl, roots, treemap, i, j, tl', rl'); }
  }

  lemma MapAfter(f: seq<Trie>, treemap: nat, treemap': nat, i: nat, t: Trie)
    requires |f| == NTREEBINS && i < NTREEBINS && (TestBit(treemap', i) <==> t.Node?)
    requires forall j :: 0 <= j < NTREEBINS ==> (TestBit(treemap, j) <==> f[j].Node?)
    requires forall j :: 0 <= j < NTREEBINS && j != i ==> (TestBit(treemap', j) <==> TestBit(treemap, j))
    ensures forall j :: 0 <= j < NTREEBINS ==> (TestBit(treemap', j) <==> f[i := t][j].Node?)
  {}

  /** The parts of ForestOk put together. */
  lemma ForestMade(g: seq<Trie>, h: Heads, tl: TLinks, rl: RLinks, rs: seq<Addr>, treemap: nat)
    requires |g| == NTREEBINS && |rs| == NTREEBINS && treemap < WORD
    requires forall j :: 0 <= j < NTREEBINS ==> BinOk(g[j], h, tl, rl, rs[j], j)
    requires forall j :: 0 <= j < NTREEBINS ==> (TestBit(treemap, j) <==> g[j].Node?)
    requires forall a :: a in ForestNodes(g) ==> Sz(h, a) < WORD
    ensures ForestOk(g, h, tl, rl, rs, treemap)
  {}

  /** A tree bin is replaced: the others are untouched. */
  lemma ForestUpdate(f: seq<Trie>, h: Heads, tl: TLinks, rl: RLinks, roots: seq<Addr>, treemap: nat,
                     i: nat, t: Trie, tl': TLinks, rl': RLinks, root: Addr, treemap': nat)
    requires ForestOk(f, h, tl, rl, roots, treemap) && i < NTREEBINS && treemap' < WORD
    requires BinOk(t, h, tl', rl', root, i) && forall a :: a in Nodes(t) ==> Sz(h, a) < WORD
    requires forall j :: 0 <= j < NTREEBINS && j != i ==> (TestBit(treemap', j) <==> TestBit(treemap, j))
    requires TestBit(treemap', i) <==> t.Node?
    requires forall a :: a in ForestNodes(f) && a !in Nodes(f[i]) && a in tl ==> a in tl' && tl'[a] == tl[a]
    requires forall a :: a in ForestNodes(f) && a !in Nodes(f[i]) && a in rl ==> a in rl' && rl'[a] == rl[a]
    ensures ForestOk(f[i := t], h, tl', rl', roots[i := root], treemap')
    ensures ForestNodes(f[i := t]) == ForestNodes(f) - Nodes(f[i]) + Nodes(t)
  {
    ForestNodesUpdate(f, h, tl, rl, roots, treemap, i, t);
    var g, rs := f[i := t], roots[i := root];
    forall j | 0 <= j < NTREEBINS ensures BinOk(g[j], h, tl', rl', rs[j], j) {
      BinAfter(f, h, tl, rl, roots, treemap, i, t, tl', rl', root, j);
    }
    MapAfter(f, treemap, treemap', i, t);
    ForestMade(g, h, tl', rl', rs, treemap');
  }

  /** Ring writes at large chunks leave the small bins alone. */
  lemma SmallApart(b: BinState, c: Content, h: Heads, rl': RLinks, s: set<Addr>)
    requires BinsOk(b, c, h) && forall a :: a in s ==> a > 0 && a !in SmallNodes(c.small)
    requires forall a :: a in b.rl && a !in s ==> a in rl' && rl'[a] == b.rl[a]
    ensures SmallOk(c.small, h, rl', b.smallmap)
  {
    SmallFrame(c.small, h, h, b.rl, rl', b.smallmap);
  }

  /** Replacing one trie by another, with writes confined to s. */
  lemma LargeUpdate(b: BinState, c: Content, h: Heads, i: nat, t: Trie, tl': TLinks, rl': RLinks, root: Addr,
                    treemap': nat, x: Addr)
    requires BinsOk(b, c, h) && i < NTREEBINS && treemap' < WORD && x > 0 && x !in SmallNodes(c.small)
    requires Sz(h, x) < WORD
    requires x in ForestNodes(c.forest) ==> x in Nodes(c.forest[i])
    requires BinOk(t, h, tl', rl', root, i) && Nodes(t) <= Nodes(c.forest[i]) + {x}
    requires forall j :: 0 <= j < NTREEBINS && j != i ==> (TestBit(treemap', j) <==> TestBit(b.treemap, j))
    requires TestBit(treemap', i) <==> t.Node?
    requires forall a :: a in b.tl && a !in Nodes(c.forest[i]) && a != x ==> a in tl' && tl'[a] == b.tl[a]
    requires forall a :: a in b.rl && a !in Nodes(c.forest[i]) && a != x ==> a in rl' && rl'[a] == b.rl[a]
    ensures var b' := BinState(rl', tl', b.smallmap, treemap', b.roots[i := root]);
      var c' := c.(forest := c.forest[i := t]);
      BinsOk(b', c', h) && Members(c') == SmallNodes(c.small) + (ForestNodes(c.forest) - Nodes(c.forest[i]) + Nodes(t))
  {
    LargeApart(b, c, h, i, rl', x);
    LargePart(b, c, h, i, t, tl', rl', root, treemap', x);
  }

  lemma LargePart(b: BinState, c: Content, h: Heads, i: nat, t: Trie, tl': TLinks, rl': RLinks, root: Addr,
                  treemap': nat, x: Addr)
    requires ForestOk(c.forest, h, b.tl, b.rl, b.roots, b.treemap) && i < NTREEBINS && treemap' < WORD
    requires Sz(h, x) < WORD
    requires x in ForestNodes(c.forest) ==> x in Nodes(c.forest[i])
    requires BinOk(t, h, tl', rl', root, i) && Nodes(t) <= Nodes(c.forest[i]) + {x}
    requires forall j :: 0 <= j < NTREEBINS && j != i ==> (TestBit(treemap', j) <==> TestBit(b.treemap, j))
    requires TestBit(treemap', i) <==> t.Node?
    requires forall a :: a in b.tl && a !in Nodes(c.forest[i]) && a != x ==> a in tl' && tl'[a] == b.tl[a]
    requires forall a :: a in b.rl && a !in Nodes(c.forest[i]) && a != x ==> a in rl' && rl'[a] == b.rl[a]
    ensures ForestOk(c.forest[i := t], h, tl', rl', b.roots[i := root], treemap')
    ensures ForestNodes(c.forest[i := t]) == ForestNodes(c.forest) - Nodes(c.forest[i]) + Nodes(t)
  {
    NodesInForest(c.forest, i);
    ForestUpdate(c.forest, h, b.tl, b.rl, b.roots, b.treemap, i, t, tl', rl', root, treemap');
  }

  lemma LargeApart(b: BinState, c: Content, h: Heads, i: nat, rl': RLinks, x: Addr)
    requires BinsOk(b, c, h) && i < NTREEBINS && x > 0 && x !in SmallNodes(c.small)
    requires forall a :: a in b.rl && a !in Nodes(c.forest[i]) && a != x ==> a in rl' && rl'[a] == b.rl[a]
    ensures SmallOk(c.small, h, rl', b.smallmap)
  {
    NodesInForest(c.forest, i);
    forall a | a in Nodes(c.forest[i]) + {x} ensures a > 0 && a !in SmallNodes(c.small) {
      if a != x { MemberKinds(b, c, h, a); }
    }
    SmallApart(b, c, h, rl', Nodes(c.forest[i]) + {x});
  }
}
