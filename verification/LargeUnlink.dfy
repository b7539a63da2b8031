/** unlink_large_chunk: taking a chunk out of its tree bin. */
module LargeUnlink {
  import opened Bits
  import opened BinIndex
  import opened Chunks
  import opened Tries
  import opened TrieRemoval
  import opened TrieUnlink
  import opened TreeBins
  import opened TreeSearch
  import opened SmallBins
  import opened Bins
  import opened LargeBins

  /** What the fields of x say about its place in the trie. */
  lemma FieldsTell(t: Trie, h: Heads, tl: TLinks, rl: RLinks, root: Addr, i: nat, x: Addr)
    requires i < NTREEBINS && BinOk(t, h, tl, rl, root, i) && x in Nodes(t)
    ensures var s := Sub(t, WayTo(t, x));
      && WayOk(t, WayTo(t, x)) && s.Node? && x in rl && x in tl && tl[x].index == i && root == Root(t)
      && (rl[x].bk == x <==> |s.chain| == 1)
      && (tl[x].parent == NoParent <==> x != s.chain[0])
      && (x in Tops(t) <==> x == s.chain[0])
      && (tl[x].parent.Chunk? ==> x != root)
      && (tl[x].parent.Bin? ==> x == root)
  {
    var w := WayTo(t, x);
    SubFacts(t, w);
    SubRing(t, rl, w);
    TopAtSub(t, x);
    ParentTells(t, tl, root, i, x);
    RootAddr(t, tl, root, Bin(i), i);
    RingAlone(rl, Sub(t, w).chain, x);
    if x in Tops(t) { AtRoot(t, tl, root, i, w); LinkedTops(t, tl, root, Bin(i), i); }
  }

  /** The children of a tree node, as its child fields give them. */
  lemma ChildrenTell(t: Trie, tl: TLinks, root: Addr, i: nat, x: Addr)
    requires Distinct(t) && Linked(t, tl, root, Bin(i), i) && x in Nodes(t) && x in Tops(t)
    ensures var s := Sub(t, WayTo(t, x));
      && WayOk(t, WayTo(t, x)) && s.Node? && x == Root(s) && x in tl && Distinct(s)
      && Linked(s, tl, x, tl[x].parent, i)
      && (tl[x].right != 0 <==> s.right.Node?) && (tl[x].left != 0 <==> s.left.Node?)
  {
    var w := WayTo(t, x);
    SubFacts(t, w);
    TopAtSub(t, x);
    AtRoot(t, tl, root, i, w);
    RightmostChild(Sub(t, w), tl, x, tl[x].parent, i);
  }

  // ---- the four shapes of a removal: the bin afterwards, and nothing outside it written ---------

  lemma DetachInside(t: Trie, rl: RLinks, x: Addr)
    requires Rings(t, rl) && x in Nodes(t)
    ensures x in rl && rl[x].fd in rl && rl[x].bk in rl && rl[x].bk in Nodes(t)
    ensures forall a :: a in rl && a !in Nodes(t) ==> a in RingDetach(rl, x) && RingDetach(rl, x)[a] == rl[a]
  {
    RingsClosed(t, rl, x);
    RingsMembers(t, rl);
  }

  lemma FollowerOutside(t: Trie, h: Heads, tl: TLinks, rl: RLinks, root: Addr, i: nat, x: Addr)
    requires i < NTREEBINS && BinOk(t, h, tl, rl, root, i) && x in Nodes(t)
    requires x != Sub(t, WayTo(t, x)).chain[0]
    ensures x in rl && rl[x].fd in rl && rl[x].bk in rl
    ensures BinOk(Without(t, x), h, tl, RingDetach(rl, x), root, i)
    ensures Outside(tl, rl, tl, RingDetach(rl, x), Nodes(t)) && Nodes(Without(t, x)) == Nodes(t) - {x}
  {
    UnlinkFollowerBin(t, h, tl, rl, root, i, x);
    WithoutShape(t, h, rl, RangeLo(i), RangeBits(i), x);
    DetachInside(t, rl, x);
  }

  lemma ChainedOutside(t: Trie, h: Heads, tl: TLinks, rl: RLinks, root: Addr, i: nat, x: Addr)
    requires i < NTREEBINS && BinOk(t, h, tl, rl, root, i) && x in Tops(t) && x in Nodes(t)
    requires |Sub(t, WayTo(t, x)).chain| > 1
    ensures x in rl && rl[x].fd in rl && rl[x].bk in rl && rl[x].bk > 0
    ensures x in tl && rl[x].bk in tl && x != rl[x].bk && (tl[x].parent.Chunk? ==> tl[x].parent.a in tl)
    ensures var tl2 := RedirectT(tl, x, rl[x].bk);
      && (tl2[x].left == 0 || tl2[x].left in tl2) && (tl2[x].right == 0 || tl2[x].right in tl2)
      && BinOk(Without(t, x), h, Adopt(tl2, x, rl[x].bk), RingDetach(rl, x), if x == root then rl[x].bk else root, i)
      && Outside(tl, rl, Adopt(tl2, x, rl[x].bk), RingDetach(rl, x), Nodes(t))
    ensures Nodes(Without(t, x)) == Nodes(t) - {x}
  {
    UnlinkChainedBin(t, h, tl, rl, root, i, x);
    WithoutShape(t, h, rl, RangeLo(i), RangeBits(i), x);
    DetachInside(t, rl, x);
    TopAtSub(t, x);
    SubFacts(t, WayTo(t, x));
    OutsideTops(t, tl, tl, root, i, WayTo(t, x), rl[x].bk);
    TopsAreNodes(t);
  }

  lemma LeafOutside(t: Trie, h: Heads, tl: TLinks, rl: RLinks, root: Addr, i: nat, x: Addr)
    requires i < NTREEBINS && BinOk(t, h, tl, rl, root, i) && x in Tops(t) && x in Nodes(t)
    requires var s := Sub(t, WayTo(t, x)); |s.chain| == 1 && s.left.Empty? && s.right.Empty?
    ensures x in tl && (tl[x].parent.Chunk? ==> tl[x].parent.a in tl)
    ensures BinOk(Without(t, x), h, RedirectT(tl, x, 0), rl, if x == root then 0 else root, i)
    ensures Outside(tl, rl, RedirectT(tl, x, 0), rl, Nodes(t)) && Nodes(Without(t, x)) == Nodes(t) - {x}
  {
    UnlinkLeafBin(t, h, tl, rl, root, i, x);
    WithoutShape(t, h, rl, RangeLo(i), RangeBits(i), x);
    TopAtSub(t, x);
    SubFacts(t, WayTo(t, x));
    ChildrenAreTops(t, tl, root, i, WayTo(t, x));
    TopsAreNodes(t);
  }

  lemma SwappedOutside(t: Trie, h: Heads, tl: TLinks, rl: RLinks, root: Addr, i: nat, x: Addr, r: Addr)
    requires i < NTREEBINS && BinOk(t, h, tl, rl, root, i) && x in Tops(t) && x in Nodes(t)
    requires var s := Sub(t, WayTo(t, x));
      |s.chain| == 1 && (s.left.Node? || s.right.Node?) && Distinct(s) && r == Root(Sub(s, LeafWay(s)))
    ensures x in tl && r in tl && x != r && r > 0 && tl[r].parent.Chunk? && tl[r].parent.a in tl
    ensures var tl1 := RedirectT(tl, r, 0); tl1[x].parent.Chunk? ==> tl1[x].parent.a in tl1
    ensures var tl2 := RedirectT(RedirectT(tl, r, 0), x, r);
      && (tl2[x].left == 0 || tl2[x].left in tl2) && (tl2[x].right == 0 || tl2[x].right in tl2)
      && BinOk(Without(t, x), h, Adopt(tl2, x, r), rl, if x == root then r else root, i)
      && Outside(tl, rl, Adopt(tl2, x, r), rl, Nodes(t))
    ensures Nodes(Without(t, x)) == Nodes(t) - {x}
  {
    UnlinkSwappedBin(t, h, tl, rl, root, i, x, r);
    WithoutShape(t, h, rl, RangeLo(i), RangeBits(i), x);
    TopAtSub(t, x);
    SubFacts(t, WayTo(t, x));
    SwappedWrites(t, tl, root, i, WayTo(t, x), r);
    TopsAreNodes(t);
  }

  /** XP's child slot that holds x is made to hold r. */
  method ReplaceChild(tl: TLinks, p: Addr, x: Addr, r: Addr) returns (tl': TLinks)
    requires p in tl && x in tl && tl[x].parent == Chunk(p)
    ensures tl' == RedirectT(tl, x, r)
  {
    if tl[p].left == x {
      tl' := tl[p := tl[p].(left := r)];
    } else {
      tl' := tl[p := tl[p].(right := r)];
    }
  }

  /** r takes the parent and the children of x. */
  method AdoptChildren(tl: TLinks, x: Addr, r: Addr) returns (tl': TLinks)
    requires x in tl && r in tl && x != r
    requires (tl[x].left == 0 || tl[x].left in tl) && (tl[x].right == 0 || tl[x].right in tl)
    ensures tl' == Adopt(tl, x, r)
  {
    tl' := tl[r := tl[r].(parent := tl[x].parent)];
    var c0 := tl[x].left;
    if c0 != 0 {
      tl' := tl'[r := tl'[r].(left := c0)];
      tl' := tl'[c0 := tl'[c0].(parent := Chunk(r))];
    }
    var c1 := tl[x].right;
    if c1 != 0 {
      tl' := tl'[r := tl'[r].(right := c1)];
      tl' := tl'[c1 := tl'[c1].(parent := Chunk(r))];
    }
  }

  /** The second half of unlink_large_chunk: r (0 for none) takes the place of the tree node x. */
  method TakePlace(tl: TLinks, roots: seq<Addr>, treemap: nat, x: Addr, r: Addr)
    returns (tl': TLinks, roots': seq<Addr>, treemap': nat)
    requires x in tl && x != 0 && tl[x].index < NTREEBINS && |roots| == NTREEBINS
    requires if x == roots[tl[x].index] then tl[x].parent.Bin? else tl[x].parent.Chunk? && tl[x].parent.a in tl
    requires roots[tl[x].index] != 0
    requires var tl2 := RedirectT(tl, x, r);
      r != 0 ==>
        r in tl && x != r && (tl2[x].left == 0 || tl2[x].left in tl2) && (tl2[x].right == 0 || tl2[x].right in tl2)
    ensures var i := tl[x].index; var root := if x == roots[i] then r else roots[i];
      && tl' == (if r == 0 then RedirectT(tl, x, 0) else Adopt(RedirectT(tl, x, r), x, r))
      && roots' == roots[i := root] && treemap' == ClearIfEmpty(treemap, i, root)
  {
    var i := tl[x].index;
    tl', roots', treemap' := tl, roots, treemap;
    if x == roots[i] {
      roots' := roots[i := r];
      if r == 0 { treemap' := ClearBit(treemap, i); }
    } else {
      tl' := ReplaceChild(tl, tl[x].parent.a, x, r);
      assert roots[i := roots[i]] == roots;
    }
    if r != 0 { tl' := AdoptChildren(tl', x, r); }
  }

  /** unlink_large_chunk on the pointers of one bin. */
  method UnlinkFromTrie(tl: TLinks, rl: RLinks, roots: seq<Addr>, treemap: nat, x: Addr, ghost t: Trie, ghost h: Heads,
                        ghost i: nat)
    returns (tl': TLinks, rl': RLinks, roots': seq<Addr>, treemap': nat)
    requires i < NTREEBINS && |roots| == NTREEBINS && BinOk(t, h, tl, rl, roots[i], i) && x in Nodes(t)
    ensures |roots'| == NTREEBINS && roots' == roots[i := roots'[i]] && treemap' == ClearIfEmpty(treemap, i, roots'[i])
    ensures BinOk(Without(t, x), h, tl', rl', roots'[i], i) && Nodes(Without(t, x)) == Nodes(t) - {x}
    ensures Outside(tl, rl, tl', rl', Nodes(t))
  {
    ghost var s := Sub(t, WayTo(t, x));
    FieldsTell(t, h, tl, rl, roots[i], i, x);
    RootAddr(t, tl, roots[i], Bin(i), i);
    tl', rl', roots', treemap' := tl, rl, roots, treemap;
    var xp, r := tl[x].parent, 0;
    if xp != NoParent { ChildrenTell(t, tl, roots[i], i, x); }
    if rl[x].bk != x {
      var f := rl[x].fd;
      r := rl[x].bk;
      if xp == NoParent {
        FollowerOutside(t, h, tl, rl, roots[i], i, x);
      } else {
        ChainedOutside(t, h, tl, rl, roots[i], i, x);
      }
      rl' := rl[f := rl[f].(bk := r)];
      rl' := rl'[r := rl'[r].(fd := f)];
      assert rl' == RingDetach(rl, x);
    } else if tl[x].right != 0 || tl[x].left != 0 {
      var owner, right;
      r, owner, right := FindLeaf(tl, x, s, xp, i);
      SwappedOutside(t, h, tl, rl, roots[i], i, x, r);
      ClearSlotIsRedirect(tl, owner, right, r);
      tl' := ClearSlot(tl, owner, right);
    } else {
      LeafOutside(t, h, tl, rl, roots[i], i, x);
    }
    if xp == NoParent {
      assert roots[i := roots[i]] == roots;
      return;
    }
    tl', roots', treemap' := TakePlace(tl', roots', treemap', x, r);
  }
}
