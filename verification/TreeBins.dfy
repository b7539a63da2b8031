/** One tree bin with all its invariants, and what insertion and removal make of it. */
module TreeBins {
  import opened Basics
  import opened Bits
  import opened BinIndex
  import opened Chunks
  import opened Tries
  import opened TrieRemoval
  import opened TrieUnlink

  /** The pointers reachable from treebin i are the trie t. */
  ghost predicate PointersOk(t: Trie, tl: TLinks, rl: RLinks, root: Addr, i: nat) {
    Distinct(t) && Linked(t, tl, root, Bin(i), i) && Rings(t, rl) && Followers(t, tl, i)
  }

  /** The sizes in t belong in bin i and lie where their bits lead. */
  ghost predicate SizesOk(t: Trie, h: Heads, i: nat)
    requires i < NTREEBINS
  {
    && Ranged(t, h, RangeLo(i), RangeBits(i)) && Unique(t, h)
    && (forall a :: a in Nodes(t) ==> a > 0 && InBin(Sz(h, a), i))
  }

  /** The rules of do_check_tree for treebin i. */
  ghost predicate BinOk(t: Trie, h: Heads, tl: TLinks, rl: RLinks, root: Addr, i: nat)
    requires i < NTREEBINS
  {
    PointersOk(t, tl, rl, root, i) && SizesOk(t, h, i)
  }

  lemma PointersFrame(t: Trie, tl: TLinks, rl: RLinks, tl': TLinks, rl': RLinks, root: Addr, i: nat)
    requires PointersOk(t, tl, rl, root, i)
    requires forall a :: a in Nodes(t) && a in tl ==> a in tl' && tl'[a] == tl[a]
    requires forall a :: a in Nodes(t) && a in rl ==> a in rl' && rl'[a] == rl[a]
    ensures PointersOk(t, tl', rl', root, i)
  {
    LinkedTops(t, tl, root, Bin(i), i);
    TopsAreNodes(t);
    RingsMembers(t, rl);
    LinkedFrame(t, tl, tl', root, Bin(i), i);
    RingsFrame(t, rl, rl');
  }

  lemma SizesFrame(t: Trie, h: Heads, h': Heads, i: nat)
    requires i < NTREEBINS && SizesOk(t, h, i)
    requires forall a :: a in Nodes(t) ==> Sz(h', a) == Sz(h, a)
    ensures SizesOk(t, h', i)
  {
    RangedFrame(t, h, h', RangeLo(i), RangeBits(i));
    UniqueFrame(t, h, h');
  }

  /** insert_large_chunk into a non-empty bin. */
  lemma InsertPointers(t: Trie, tl: TLinks, rl: RLinks, root: Addr, i: nat, x: Addr, p: Path)
    requires PointersOk(t, tl, rl, root, i) && x > 0 && x !in Nodes(t) && PathOk(t, p)
    ensures SlotAt(t, p).a in tl && SlotAt(t, p).a in rl && rl[SlotAt(t, p).a].fd in rl
    ensures rl[SlotAt(t, p).a].fd in Nodes(t)
    ensures PointersOk(InsertAt(t, p, x), AttachT(tl, SlotAt(t, p), x, i), AttachR(rl, SlotAt(t, p), x), root, i)
    ensures Nodes(InsertAt(t, p, x)) == Nodes(t) + {x}
  {
    InsertNodes(t, p, x);
    InsertLinked(t, tl, root, Bin(i), i, x, p);
    InsertRings(t, rl, x, p);
    InsertFollowers(t, tl, i, x, p);
  }

  lemma InsertSizes(t: Trie, h: Heads, i: nat, x: Addr, p: Path)
    requires i < NTREEBINS && SizesOk(t, h, i) && x > 0 && InBin(Sz(h, x), i) && Sz(h, x) < WORD
    requires PathOk(t, p) && Leads(t, h, Sz(h, x), RangeLo(i), RangeBits(i), p)
    requires Nodes(InsertAt(t, p, x)) == Nodes(t) + {x}
    ensures SizesOk(InsertAt(t, p, x), h, i)
  {
    InBinRange(i, Sz(h, x));
    InsertRanged(t, h, x, RangeLo(i), RangeBits(i), p);
    InsertUnique(t, h, x, RangeLo(i), RangeBits(i), p);
  }

  /** insert_large_chunk into an empty bin. */
  lemma InsertEmptyBin(h: Heads, tl: TLinks, rl: RLinks, i: nat, x: Addr)
    requires i < NTREEBINS && x > 0 && InBin(Sz(h, x), i) && Sz(h, x) < WORD
    ensures BinOk(Node([x], Empty, Empty), h, tl[x := TLink(0, 0, Bin(i), i)], rl[x := RLink(x, x)], x, i)
  {
    InBinRange(i, Sz(h, x));
    SingleSizes(h, RangeLo(i), RangeBits(i), x);
  }

  lemma SingleSizes(h: Heads, lo: nat, k: nat, x: Addr)
    requires lo <= Sz(h, x) < lo + Pow2(k)
    ensures Ranged(Node([x], Empty, Empty), h, lo, k) && Unique(Node([x], Empty, Empty), h)
    ensures Nodes(Node([x], Empty, Empty)) == {x}
  {}

  /** t without its chunk x. */
  ghost function Without(t: Trie, x: Addr): Trie
    requires Distinct(t) && x in Nodes(t)
  {
    var w := WayTo(t, x);
    SubFacts(t, w);
    Graft(t, w, Removed(Sub(t, w), x))
  }

  lemma {:induction false} SubRing(t: Trie, rl: RLinks, w: Way)
    requires WayOk(t, w) && Rings(t, rl)
    ensures Rings(Sub(t, w), rl)
  {
    match w
    case There =>
    case ToLeft(v) => SubRing(t.left, rl, v);
    case ToRight(v) => SubRing(t.right, rl, v);
  }

  lemma {:induction false} GraftTops(t: Trie, w: Way, s: Trie)
    requires WayOk(t, w) && Distinct(t)
    ensures forall b :: b in Tops(t) && b !in Tops(Sub(t, w)) ==> b in Tops(Graft(t, w, s))
    ensures Tops(s) <= Tops(Graft(t, w, s))
    ensures Root(Graft(t, w, s)) == if w.There? then Root(s) else Root(t)
  {
    match w
    case There =>
    case ToLeft(v) => GraftTops(t.left, v, s);
    case ToRight(v) => GraftTops(t.right, v, s);
  }

  /** Taking x out removes exactly x and keeps the trie rule. */
  lemma WithoutShape(t: Trie, h: Heads, rl: RLinks, lo: nat, k: nat, x: Addr)
    requires Distinct(t) && x in Nodes(t) && Rings(t, rl) && Ranged(t, h, lo, k) && Unique(t, h)
    ensures Nodes(Without(t, x)) == Nodes(t) - {x}
    ensures Distinct(Without(t, x)) && Ranged(Without(t, x), h, lo, k) && Unique(Without(t, x), h)
  {
    var w := WayTo(t, x);
    var s := Sub(t, w);
    SubFacts(t, w);
    SubRing(t, rl, w);
    RemovedNodes(s, x);
    GraftNodes(t, w, Removed(s, x));
    SubRanged(t, h, lo, k, w);
    SubUnique(t, h, w);
    RemovedAt(s, h, lo, k, w, x);
    RemovedUnique(s, h, x);
    GraftRanged(t, h, lo, k, w, Removed(s, x));
    GraftUnique(t, h, w, Removed(s, x));
    assert x in Nodes(s);
  }

  /** A chain member behind the tree node is unlinked from its ring only. */
  lemma UnlinkFollowerBin(t: Trie, h: Heads, tl: TLinks, rl: RLinks, root: Addr, i: nat, x: Addr)
    requires i < NTREEBINS && BinOk(t, h, tl, rl, root, i) && x in Nodes(t)
    requires x != Sub(t, WayTo(t, x)).chain[0]
    ensures x in rl && rl[x].fd in rl && rl[x].bk in rl
    ensures BinOk(Without(t, x), h, tl, RingDetach(rl, x), root, i)
  {
    WithoutShape(t, h, rl, RangeLo(i), RangeBits(i), x);
    FollowerTree(t, tl, root, i, x);
    UnlinkFollowerRings(t, rl, WayTo(t, x), IndexIn(Sub(t, WayTo(t, x)).chain, x));
  }

  lemma FollowerTree(t: Trie, tl: TLinks, root: Addr, i: nat, x: Addr)
    requires Distinct(t) && x in Nodes(t) && x != Sub(t, WayTo(t, x)).chain[0]
    requires Linked(t, tl, root, Bin(i), i) && Followers(t, tl, i)
    requires Nodes(Without(t, x)) == Nodes(t) - {x}
    ensures var w := WayTo(t, x); var s := Sub(t, w);
      Without(t, x) == Graft(t, w, Node(DropAt(s.chain, IndexIn(s.chain, x)), s.left, s.right))
    ensures Linked(Without(t, x), tl, root, Bin(i), i) && Followers(Without(t, x), tl, i)
  {
    var w := WayTo(t, x);
    var s := Sub(t, w);
    SubFacts(t, w);
    var s' := Removed(s, x);
    assert s'.chain[0] == s.chain[0];
    SameTree(t, tl, root, Bin(i), i, w, s');
    FollowersKept(t, tl, tl, i, x, w, s');
  }

  lemma UnlinkFollowerRings(t: Trie, rl: RLinks, w: Way, j: nat)
    requires WayOk(t, w) && Distinct(t) && Rings(t, rl) && 0 < j < |Sub(t, w).chain|
    ensures var s := Sub(t, w);
      s.chain[j] in rl && rl[s.chain[j]].fd in rl && rl[s.chain[j]].bk in rl
      && Rings(Graft(t, w, Node(DropAt(s.chain, j), s.left, s.right)), RingDetach(rl, s.chain[j]))
  {
    var s := Sub(t, w);
    SubFacts(t, w);
    SubRing(t, rl, w);
    RingsMembers(t, rl);
    RingRemoveInner(rl, s.chain, j);
    var rl' := RingDetach(rl, s.chain[j]);
    RingsFrame(s.left, rl, rl');
    RingsFrame(s.right, rl, rl');
    GraftRings(t, rl, rl', w, Node(DropAt(s.chain, j), s.left, s.right));
  }

  lemma UnlinkChainedRings(t: Trie, rl: RLinks, w: Way)
    requires WayOk(t, w) && Distinct(t) && Rings(t, rl) && |Sub(t, w).chain| > 1
    ensures var s := Sub(t, w); var x := s.chain[0];
      x in rl && rl[x].fd in rl && rl[x].bk in rl && rl[x].bk == DropHead(s.chain)[0]
      && Rings(Graft(t, w, Node(DropHead(s.chain), s.left, s.right)), RingDetach(rl, x))
  {
    var s := Sub(t, w);
    SubFacts(t, w);
    SubRing(t, rl, w);
    RingsMembers(t, rl);
    RingRemoveHead(rl, s.chain);
    var rl' := RingDetach(rl, s.chain[0]);
    RingsFrame(s.left, rl, rl');
    RingsFrame(s.right, rl, rl');
    GraftRings(t, rl, rl', w, Node(DropHead(s.chain), s.left, s.right));
  }

  lemma UnlinkSwappedRings(t: Trie, rl: RLinks, w: Way)
    requires WayOk(t, w) && Distinct(t) && Rings(t, rl) && Distinct(Sub(t, w))
    requires Sub(t, w).left.Node? || Sub(t, w).right.Node?
    ensures Rings(Graft(t, w, Swapped(Sub(t, w))), rl)
  {
    var s := Sub(t, w);
    SubRing(t, rl, w);
    SubRing(s, rl, LeafWay(s));
    RingsMembers(t, rl);
    SubFacts(t, w);
    GraftRings(s, rl, rl, LeafWay(s), Empty);
    PrunedRoot(s);
    GraftRings(t, rl, rl, w, Swapped(s));
  }

  /** Changing a node's chain behind its first member leaves the tree as it is. */
  lemma {:induction false} SameTree(t: Trie, tl: TLinks, a: Addr, up: Parent, i: nat, w: Way, s: Trie)
    requires WayOk(t, w) && Linked(t, tl, a, up, i)
    requires s.Node? && |s.chain| > 0 && s.chain[0] == Sub(t, w).chain[0] && s.left == Sub(t, w).left
    requires s.right == Sub(t, w).right
    ensures Linked(Graft(t, w, s), tl, a, up, i)
  {
    match w
    case There =>
    case ToLeft(v) => SameTree(t.left, tl, tl[a].left, Chunk(a), i, v, s);
    case ToRight(v) => SameTree(t.right, tl, tl[a].right, Chunk(a), i, v, s);
  }

  /** Chunks that were chain members and still are keep their empty tree links. */
  lemma FollowersKept(t: Trie, tl: TLinks, tl': TLinks, i: nat, x: Addr, w: Way, s: Trie)
    requires WayOk(t, w) && Distinct(t) && Followers(t, tl, i)
    requires Nodes(Graft(t, w, s)) == Nodes(t) - {x}
    requires forall b :: b in Tops(Sub(t, w)) ==> b == x || b in Tops(s)
    requires forall b :: b in Nodes(t) && b !in Tops(t) && b !in Tops(s) && b in tl ==> b in tl' && tl'[b] == tl[b]
    ensures Followers(Graft(t, w, s), tl', i)
  {
    GraftTops(t, w, s);
  }

  // ---- unlinking a tree node ---------------------------------------------------------

  /** Is x, a chunk of t, a tree node rather than a chain member? */
  lemma {:induction false} TopAtSub(t: Trie, x: Addr)
    requires Distinct(t) && x in Nodes(t)
    ensures x in Tops(t) <==> x == Sub(t, WayTo(t, x)).chain[0]
    ensures x == Root(t) <==> x == Sub(t, WayTo(t, x)).chain[0] && WayTo(t, x).There?
  {
    TopsAreNodes(t.left);
    TopsAreNodes(t.right);
    if x !in t.chain {
      if x in Nodes(t.left) { TopAtSub(t.left, x); } else { TopAtSub(t.right, x); }
    }
  }

  /** The parent field tells tree nodes from chain members. */
  lemma ParentTells(t: Trie, tl: TLinks, root: Addr, i: nat, x: Addr)
    requires Distinct(t) && x in Nodes(t) && Linked(t, tl, root, Bin(i), i) && Followers(t, tl, i)
    ensures x in tl && (tl[x].parent != NoParent <==> x in Tops(t)) && tl[x].index == i
  {
    TopAtSub(t, x);
    if x in Tops(t) {
      SubLinked(t, tl, root, Bin(i), i, WayTo(t, x));
      LinkedTops(t, tl, root, Bin(i), i);
    }
  }

  /** A tree node with chain members behind it. */
  lemma UnlinkChainedBin(t: Trie, h: Heads, tl: TLinks, rl: RLinks, root: Addr, i: nat, x: Addr)
    requires i < NTREEBINS && BinOk(t, h, tl, rl, root, i) && x in Tops(t) && x in Nodes(t)
    requires |Sub(t, WayTo(t, x)).chain| > 1
    ensures x in rl && rl[x].fd in rl && rl[x].bk in rl && rl[x].bk > 0
    ensures x in tl && rl[x].bk in tl && x != rl[x].bk && (tl[x].parent.Chunk? ==> tl[x].parent.a in tl)
    ensures var tl2 := RedirectT(tl, x, rl[x].bk);
      && (tl2[x].left == 0 || tl2[x].left in tl2) && (tl2[x].right == 0 || tl2[x].right in tl2)
      && BinOk(Without(t, x), h, Adopt(tl2, x, rl[x].bk), RingDetach(rl, x), if x == root then rl[x].bk else root, i)
  {
    WithoutShape(t, h, rl, RangeLo(i), RangeBits(i), x);
    ChainedTree(t, tl, rl, root, i, x);
    UnlinkChainedRings(t, rl, WayTo(t, x));
  }

  lemma ChainedTree(t: Trie, tl: TLinks, rl: RLinks, root: Addr, i: nat, x: Addr)
    requires Distinct(t) && x in Tops(t) && x in Nodes(t) && |Sub(t, WayTo(t, x)).chain| > 1
    requires Linked(t, tl, root, Bin(i), i) && Followers(t, tl, i) && Rings(t, rl)
    requires Nodes(Without(t, x)) == Nodes(t) - {x}
    ensures var w := WayTo(t, x); var s := Sub(t, w);
      Without(t, x) == Graft(t, w, Node(DropHead(s.chain), s.left, s.right)) && x == s.chain[0]
    ensures x in rl && x in tl && rl[x].bk in tl && x != rl[x].bk && (tl[x].parent.Chunk? ==> tl[x].parent.a in tl)
    ensures rl[x].bk in Nodes(t) && rl[x].bk > 0
    ensures var r := rl[x].bk; var tl2 := RedirectT(tl, x, r);
      && (tl2[x].left == 0 || tl2[x].left in tl2) && (tl2[x].right == 0 || tl2[x].right in tl2)
      && Linked(Without(t, x), Adopt(tl2, x, r), if x == root then r else root, Bin(i), i)
      && Followers(Without(t, x), Adopt(tl2, x, r), i)
  {
    var w := WayTo(t, x);
    var s := Sub(t, w);
    TopAtSub(t, x);
    SubFacts(t, w);
    SubRing(t, rl, w);
    RingRemoveHead(rl, s.chain);
    var s' := Node(DropHead(s.chain), s.left, s.right);
    UnlinkChained(t, tl, root, i, w);
    LinkedTops(t, tl, root, Bin(i), i);
    GraftTops(t, w, s');
    var r := s'.chain[0];
    FollowerNotTop(t, w, r) by { assert r in s.chain; }
    OutsideTops(t, tl, tl, root, i, w, r);
    FollowersKept(t, tl, Adopt(RedirectT(tl, x, r), x, r), i, x, w, s');
  }

  lemma ChildrenAreTops(t: Trie, tl: TLinks, root: Addr, i: nat, w: Way)
    requires WayOk(t, w) && Distinct(t) && Linked(t, tl, root, Bin(i), i)
    ensures var x := Root(Sub(t, w));
      && x in tl && (tl[x].left == 0 || tl[x].left in Tops(t)) && (tl[x].right == 0 || tl[x].right in Tops(t))
      && (tl[x].parent.Chunk? ==> tl[x].parent.a in Tops(t) && tl[x].parent.a != x)
  {
    var s := Sub(t, w);
    AtRoot(t, tl, root, i, w);
    SubFacts(t, w);
    LinkedTops(s.left, tl, tl[Root(s)].left, Chunk(Root(s)), i);
    LinkedTops(s.right, tl, tl[Root(s)].right, Chunk(Root(s)), i);
    TopsAreNodes(s.left);
    TopsAreNodes(s.right);
    if !w.There? {
      ParentOutside(t, tl, root, Bin(i), i, w);
      assert Root(s) in s.chain;
    }
  }

  /** The writes of unlink_large_chunk touch only tree nodes and the replacement r. */
  lemma OutsideTops(t: Trie, tl: TLinks, tl1: TLinks, root: Addr, i: nat, w: Way, r: Addr)
    requires WayOk(t, w) && Distinct(t) && Linked(t, tl, root, Bin(i), i)
    requires var x := Root(Sub(t, w));
      && x in tl && x in tl1 && r in tl1 && x != r
      && tl1[x].left in {0, tl[x].left} && tl1[x].right in {0, tl[x].right} && tl1[x].parent == tl[x].parent
      && (forall b :: b in tl ==> b in tl1)
      && (forall b :: b in tl && b !in Tops(t) ==> tl1[b] == tl[b])
    ensures var x := Root(Sub(t, w));
      && (tl1[x].parent.Chunk? ==> tl1[x].parent.a in tl1)
      && var tl2 := RedirectT(tl1, x, r);
         (tl2[x].left == 0 || tl2[x].left in tl2) && (tl2[x].right == 0 || tl2[x].right in tl2)
         && var tl' := Adopt(tl2, x, r);
            forall b :: b in tl && b !in Tops(t) && b != r ==> b in tl' && tl'[b] == tl[b]
  {
    ChildrenAreTops(t, tl, root, i, w);
    LinkedTops(t, tl, root, Bin(i), i);
  }

  /** A childless tree node, alone in its chain. */
  lemma UnlinkLeafBin(t: Trie, h: Heads, tl: TLinks, rl: RLinks, root: Addr, i: nat, x: Addr)
    requires i < NTREEBINS && BinOk(t, h, tl, rl, root, i) && x in Tops(t) && x in Nodes(t)
    requires var s := Sub(t, WayTo(t, x)); |s.chain| == 1 && s.left.Empty? && s.right.Empty?
    ensures x in tl && (tl[x].parent.Chunk? ==> tl[x].parent.a in tl)
    ensures BinOk(Without(t, x), h, RedirectT(tl, x, 0), rl, if x == root then 0 else root, i)
  {
    WithoutShape(t, h, rl, RangeLo(i), RangeBits(i), x);
    LeafTree(t, tl, root, i, x);
    SubFacts(t, WayTo(t, x));
    RingsMembers(t, rl);
    GraftRings(t, rl, rl, WayTo(t, x), Empty);
  }

  lemma LeafTree(t: Trie, tl: TLinks, root: Addr, i: nat, x: Addr)
    requires Distinct(t) && x in Tops(t) && x in Nodes(t)
    requires var s := Sub(t, WayTo(t, x)); |s.chain| == 1 && s.left.Empty? && s.right.Empty?
    requires Linked(t, tl, root, Bin(i), i) && Followers(t, tl, i)
    requires Nodes(Without(t, x)) == Nodes(t) - {x}
    ensures Without(t, x) == Graft(t, WayTo(t, x), Empty)
    ensures x in tl && (tl[x].parent.Chunk? ==> tl[x].parent.a in tl)
    ensures Linked(Without(t, x), RedirectT(tl, x, 0), if x == root then 0 else root, Bin(i), i)
    ensures Followers(Without(t, x), RedirectT(tl, x, 0), i)
  {
    var w := WayTo(t, x);
    TopAtSub(t, x);
    SubFacts(t, w);
    UnlinkLeaf(t, tl, root, i, w);
    GraftTops(t, w, Empty);
    LinkedTops(t, tl, root, Bin(i), i);
    ChildrenAreTops(t, tl, root, i, w);
    FollowersKept(t, tl, RedirectT(tl, x, 0), i, x, w, Empty);
  }

  /** A tree node with children, alone in its chain. */
  lemma UnlinkSwappedBin(t: Trie, h: Heads, tl: TLinks, rl: RLinks, root: Addr, i: nat, x: Addr, r: Addr)
    requires i < NTREEBINS && BinOk(t, h, tl, rl, root, i) && x in Tops(t) && x in Nodes(t)
    requires var s := Sub(t, WayTo(t, x));
      |s.chain| == 1 && (s.left.Node? || s.right.Node?) && Distinct(s) && r == Root(Sub(s, LeafWay(s)))
    ensures x in tl && r in tl && x != r && r > 0 && tl[r].parent.Chunk? && tl[r].parent.a in tl
    ensures var tl1 := RedirectT(tl, r, 0); tl1[x].parent.Chunk? ==> tl1[x].parent.a in tl1
    ensures var tl2 := RedirectT(RedirectT(tl, r, 0), x, r);
      && (tl2[x].left == 0 || tl2[x].left in tl2) && (tl2[x].right == 0 || tl2[x].right in tl2)
      && BinOk(Without(t, x), h, Adopt(tl2, x, r), rl, if x == root then r else root, i)
  {
    WithoutShape(t, h, rl, RangeLo(i), RangeBits(i), x);
    SwappedTree(t, tl, root, i, x, r);
    UnlinkSwappedRings(t, rl, WayTo(t, x));
  }

  lemma SwappedTree(t: Trie, tl: TLinks, root: Addr, i: nat, x: Addr, r: Addr)
    requires Distinct(t) && x in Tops(t) && x in Nodes(t)
    requires var s := Sub(t, WayTo(t, x));
      |s.chain| == 1 && (s.left.Node? || s.right.Node?) && Distinct(s) && r == Root(Sub(s, LeafWay(s)))
    requires Linked(t, tl, root, Bin(i), i) && Followers(t, tl, i)
    requires Nodes(Without(t, x)) == Nodes(t) - {x}
    ensures Without(t, x) == Graft(t, WayTo(t, x), Swapped(Sub(t, WayTo(t, x))))
    ensures x in tl && r in tl && x != r && r > 0 && tl[r].parent.Chunk? && tl[r].parent.a in tl
    ensures var tl1 := RedirectT(tl, r, 0); tl1[x].parent.Chunk? ==> tl1[x].parent.a in tl1
    ensures var tl2 := RedirectT(RedirectT(tl, r, 0), x, r);
      && (tl2[x].left == 0 || tl2[x].left in tl2) && (tl2[x].right == 0 || tl2[x].right in tl2)
      && Linked(Without(t, x), Adopt(tl2, x, r), if x == root then r else root, Bin(i), i)
      && Followers(Without(t, x), Adopt(tl2, x, r), i)
  {
    var w := WayTo(t, x);
    var s := Sub(t, w);
    TopAtSub(t, x);
    UnlinkSwapped(t, tl, root, i, w);
    GraftTops(t, w, Swapped(s));
    LinkedTops(t, tl, root, Bin(i), i);
    SwappedWrites(t, tl, root, i, w, r);
    SwappedTops(s);
    FollowersKept(t, tl, Adopt(RedirectT(RedirectT(tl, r, 0), x, r), x, r), i, x, w, Swapped(s));
  }

  lemma SwappedWrites(t: Trie, tl: TLinks, root: Addr, i: nat, w: Way, r: Addr)
    requires WayOk(t, w) && Distinct(t) && Linked(t, tl, root, Bin(i), i)
    requires var s := Sub(t, w); Distinct(s) && (s.left.Node? || s.right.Node?) && r == Root(Sub(s, LeafWay(s)))
    ensures var x := Root(Sub(t, w));
      && x in tl && r in tl && r > 0 && r != x && tl[r].parent.Chunk? && tl[r].parent.a in tl && r in Tops(t)
      && var tl1 := RedirectT(tl, r, 0);
         (tl1[x].parent.Chunk? ==> tl1[x].parent.a in tl1)
         && var tl2 := RedirectT(tl1, x, r);
            (tl2[x].left == 0 || tl2[x].left in tl2) && (tl2[x].right == 0 || tl2[x].right in tl2)
            && var tl' := Adopt(tl2, x, r);
               forall b :: b in tl && b !in Tops(t) ==> b in tl' && tl'[b] == tl[b]
  {
    var s := Sub(t, w);
    AtRoot(t, tl, root, i, w);
    SubFacts(t, w);
    PrunedLinked(s, tl, Root(s), tl[Root(s)].parent, i);
    PrunedNodes(s);
    assert Root(s) in s.chain && r in Sub(s, LeafWay(s)).chain;
    SubFacts(s, LeafWay(s));
    TopsAreNodes(Sub(s, LeafWay(s)));
    OutsideTops(t, tl, RedirectT(tl, r, 0), root, i, w, r);
  }

  lemma SwappedTops(s: Trie)
    requires s.Node? && Distinct(s) && (s.left.Node? || s.right.Node?)
    ensures forall b :: b in Tops(s) ==> b == Root(s) || b in Tops(Swapped(s))
  {
    var w := LeafWay(s);
    var leaf := Sub(s, w);
    GraftTops(s, w, Empty);
    PrunedRoot(s);
    assert Tops(leaf) == {leaf.chain[0]};
    assert Tops(Pruned(s)) == {s.chain[0]} + Tops(Pruned(s).left) + Tops(Pruned(s).right);
  }
}
