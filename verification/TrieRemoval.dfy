/** Removing a chunk from a trie: by shortening its chain, or by putting the rightmost leaf below it in its place. */
module TrieRemoval {
  import opened Basics
  import opened Bits
  import opened Chunks
  import opened Tries

  /** The way down to a node. */
  datatype Way = There | ToLeft(down: Way) | ToRight(down: Way)

  ghost predicate WayOk(t: Trie, w: Way)
  {
    && t.Node? && |t.chain| > 0
    && match w
       case There => true
       case ToLeft(v) => WayOk(t.left, v)
       case ToRight(v) => WayOk(t.right, v)
  }

  /** The subtree at the end of the way. */
  ghost function Sub(t: Trie, w: Way): (s: Trie)
    requires WayOk(t, w)
    ensures s.Node? && |s.chain| > 0
  {
    match w
    case There => t
    case ToLeft(v) => Sub(t.left, v)
    case ToRight(v) => Sub(t.right, v)
  }

  /** t with that subtree replaced by s. */
  ghost function Graft(t: Trie, w: Way, s: Trie): Trie
    requires WayOk(t, w)
  {
    match w
    case There => s
    case ToLeft(v) => Node(t.chain, Graft(t.left, v, s), t.right)
    case ToRight(v) => Node(t.chain, t.left, Graft(t.right, v, s))
  }

  /** The way to the node whose chain holds x. */
  ghost function WayTo(t: Trie, x: Addr): (w: Way)
    requires x in Nodes(t) && Distinct(t)
    ensures WayOk(t, w) && x in Sub(t, w).chain
  {
    if x in t.chain then There
    else if x in Nodes(t.left) then ToLeft(WayTo(t.left, x))
    else ToRight(WayTo(t.right, x))
  }

  /** The way that unlink_large_chunk takes to a leaf: right whenever it can. */
  ghost function LeafWay(t: Trie): (w: Way)
    requires t.Node? && Distinct(t)
    ensures WayOk(t, w) && Sub(t, w).left.Empty? && Sub(t, w).right.Empty?
    ensures w.There? <==> t.left.Empty? && t.right.Empty?
  {
    if t.right.Node? then ToRight(LeafWay(t.right))
    else if t.left.Node? then ToLeft(LeafWay(t.left))
    else There
  }

  lemma {:induction false} SubFacts(t: Trie, w: Way)
    requires WayOk(t, w) && Distinct(t)
    ensures Distinct(Sub(t, w))
    ensures Nodes(Sub(t, w)) <= Nodes(t) && Tops(Sub(t, w)) <= Tops(t)
    ensures !w.There? ==> Root(t) !in Nodes(Sub(t, w))
  {
    match w
    case There =>
    case ToLeft(v) => SubFacts(t.left, v);
    case ToRight(v) => SubFacts(t.right, v);
  }

  lemma {:induction false} GraftNodes(t: Trie, w: Way, s: Trie)
    requires WayOk(t, w) && Distinct(t) && Distinct(s) && Nodes(s) <= Nodes(Sub(t, w))
    ensures Nodes(Graft(t, w, s)) == Nodes(t) - Nodes(Sub(t, w)) + Nodes(s)
    ensures Distinct(Graft(t, w, s))
  {
    SubFacts(t, w);
    match w
    case There =>
    case ToLeft(v) =>
      GraftNodes(t.left, v, s);
      SubFacts(t.left, v);
    case ToRight(v) =>
      GraftNodes(t.right, v, s);
      SubFacts(t.right, v);
  }

  /** s would be in range at the end of the way, in a trie over [lo, lo + 2^k). */
  ghost predicate RangedAt(s: Trie, h: Heads, lo: nat, k: nat, w: Way)
    decreases w
  {
    match w
    case There => Ranged(s, h, lo, k)
    case ToLeft(v) => k > 0 ==> RangedAt(s, h, lo, k - 1, v)
    case ToRight(v) => k > 0 ==> RangedAt(s, h, lo + Pow2(k - 1), k - 1, v)
  }

  lemma {:induction false} SubRanged(t: Trie, h: Heads, lo: nat, k: nat, w: Way)
    requires WayOk(t, w) && Ranged(t, h, lo, k)
    ensures RangedAt(Sub(t, w), h, lo, k, w)
    ensures forall a :: a in Sub(t, w).chain ==> Sz(h, a) == Sz(h, Sub(t, w).chain[0])
    decreases w
  {
    match w
    case There =>
    case ToLeft(v) => SubRanged(t.left, h, lo, k - 1, v);
    case ToRight(v) => SubRanged(t.right, h, lo + Pow2(k - 1), k - 1, v);
  }

  lemma {:induction false} EmptyRangedAt(h: Heads, lo: nat, k: nat, w: Way)
    ensures RangedAt(Empty, h, lo, k, w)
    decreases w
  {
    if k > 0 {
      match w
      case There =>
      case ToLeft(v) => EmptyRangedAt(h, lo, k - 1, v);
      case ToRight(v) => EmptyRangedAt(h, lo + Pow2(k - 1), k - 1, v);
    }
  }

  lemma {:induction false} GraftRanged(t: Trie, h: Heads, lo: nat, k: nat, w: Way, s: Trie)
    requires WayOk(t, w) && Ranged(t, h, lo, k) && RangedAt(s, h, lo, k, w)
    ensures Ranged(Graft(t, w, s), h, lo, k)
    decreases w
  {
    match w
    case There =>
    case ToLeft(v) => GraftRanged(t.left, h, lo, k - 1, v, s);
    case ToRight(v) => GraftRanged(t.right, h, lo + Pow2(k - 1), k - 1, v, s);
  }

  lemma {:induction false} SubUnique(t: Trie, h: Heads, w: Way)
    requires WayOk(t, w) && Unique(t, h)
    ensures Unique(Sub(t, w), h) && Sizes(Sub(t, w), h) <= Sizes(t, h)
  {
    match w
    case There =>
    case ToLeft(v) => SubUnique(t.left, h, v);
    case ToRight(v) => SubUnique(t.right, h, v);
  }

  lemma {:induction false} GraftUnique(t: Trie, h: Heads, w: Way, s: Trie)
    requires WayOk(t, w) && Unique(t, h) && Unique(s, h) && Sizes(s, h) <= Sizes(Sub(t, w), h)
    ensures Unique(Graft(t, w, s), h) && Sizes(Graft(t, w, s), h) <= Sizes(t, h)
  {
    match w
    case There =>
    case ToLeft(v) => GraftUnique(t.left, h, v, s);
    case ToRight(v) => GraftUnique(t.right, h, v, s);
  }

  lemma {:induction false} PrunedSizes(t: Trie, h: Heads, w: Way)
    requires WayOk(t, w) && Unique(t, h)
    ensures Sizes(Graft(t, w, Empty), h) !! Sizes(Sub(t, w), h)
  {
    SubUnique(t, h, w);
    match w
    case There =>
    case ToLeft(v) =>
      PrunedSizes(t.left, h, v);
      SubUnique(t.left, h, v);
    case ToRight(v) =>
      PrunedSizes(t.right, h, v);
      SubUnique(t.right, h, v);
  }

  lemma {:induction false} GraftRings(t: Trie, rl: RLinks, rl': RLinks, w: Way, s: Trie)
    requires WayOk(t, w) && Distinct(t) && Rings(t, rl) && Rings(s, rl')
    requires forall b :: b in Nodes(t) && b !in Nodes(Sub(t, w)) ==> b in rl && b in rl' && rl'[b] == rl[b]
    ensures Rings(Graft(t, w, s), rl')
  {
    match w
    case There =>
    case ToLeft(v) =>
      SubFacts(t.left, v);
      RingsBeside(t, rl, rl', t.left);
      GraftRings(t.left, rl, rl', v, s);
    case ToRight(v) =>
      SubFacts(t.right, v);
      RingsBeside(t, rl, rl', t.right);
      GraftRings(t.right, rl, rl', v, s);
  }

  // ---- tree pointers ---------------------------------------------------------------

  lemma {:induction false} SubLinked(t: Trie, tl: TLinks, a: Addr, up: Parent, i: nat, w: Way)
    requires WayOk(t, w) && Linked(t, tl, a, up, i)
    ensures var x := Root(Sub(t, w));
      x in tl && Linked(Sub(t, w), tl, x, tl[x].parent, i)
      && (w.There? ==> tl[x].parent == up)
      && (!w.There? ==> tl[x].parent.Chunk? && tl[x].parent.a in Tops(t))
  {
    match w
    case There =>
    case ToLeft(v) => SubLinked(t.left, tl, tl[a].left, Chunk(a), i, v);
    case ToRight(v) => SubLinked(t.right, tl, tl[a].right, Chunk(a), i, v);
  }

  /** The node n of chunk b once its child x, if it has one, is replaced by r. */
  function Redirected(n: TLink, b: Addr, x: Addr, r: Addr, xp: Parent): TLink {
    if xp != Chunk(b) then n else if n.left == x then n.(left := r) else n.(right := r)
  }

  /** Rewriting the one child slot that points to a subtree grafts its replacement. */
  lemma {:induction false} GraftLinked(t: Trie, tl: TLinks, tl': TLinks, a: Addr, up: Parent, i: nat, w: Way, s: Trie)
    requires WayOk(t, w) && Distinct(t) && Linked(t, tl, a, up, i)
    requires var x := Root(Sub(t, w));
      x in tl && Linked(s, tl', Root(s), tl[x].parent, i)
      && forall b :: b in Tops(t) && b !in Tops(Sub(t, w)) ==>
           b in tl && b in tl' && tl'[b] == Redirected(tl[b], b, x, Root(s), tl[x].parent)
    ensures Linked(Graft(t, w, s), tl', Root(Graft(t, w, s)), up, i)
  {
    match w
    case There =>
    case ToLeft(v) =>
      GraftLeft(t, tl, tl', a, up, i, v, s);
      GraftLinked(t.left, tl, tl', tl[a].left, Chunk(a), i, v, s);
    case ToRight(v) =>
      GraftRight(t, tl, tl', a, up, i, v, s);
      GraftLinked(t.right, tl, tl', tl[a].right, Chunk(a), i, v, s);
  }

  lemma GraftLeft(t: Trie, tl: TLinks, tl': TLinks, a: Addr, up: Parent, i: nat, v: Way, s: Trie)
    requires WayOk(t, ToLeft(v)) && Distinct(t) && Linked(t, tl, a, up, i)
    requires var x := Root(Sub(t.left, v));
      x in tl && forall b :: b in Tops(t) && b !in Tops(Sub(t.left, v)) ==>
        b in tl && b in tl' && tl'[b] == Redirected(tl[b], b, x, Root(s), tl[x].parent)
    ensures a in tl' && tl'[a] == tl[a].(left := Root(Graft(t.left, v, s)))
    ensures Linked(t.right, tl', tl[a].right, Chunk(a), i)
  {
    TopsAreNodes(t.left);
    TopsAreNodes(t.right);
    SubFacts(t.left, v);
    TopsAreNodes(Sub(t.left, v));
    SubLinked(t.left, tl, tl[a].left, Chunk(a), i, v);
    LinkedTops(t.left, tl, tl[a].left, Chunk(a), i);
    LinkedFrame(t.right, tl, tl', tl[a].right, Chunk(a), i);
  }

  lemma GraftRight(t: Trie, tl: TLinks, tl': TLinks, a: Addr, up: Parent, i: nat, v: Way, s: Trie)
    requires WayOk(t, ToRight(v)) && Distinct(t) && Linked(t, tl, a, up, i)
    requires var x := Root(Sub(t.right, v));
      x in tl && forall b :: b in Tops(t) && b !in Tops(Sub(t.right, v)) ==>
        b in tl && b in tl' && tl'[b] == Redirected(tl[b], b, x, Root(s), tl[x].parent)
    ensures a in tl' && tl'[a] == tl[a].(right := Root(Graft(t.right, v, s)))
    ensures Linked(t.left, tl', tl[a].left, Chunk(a), i)
  {
    TopsAreNodes(t.left);
    TopsAreNodes(t.right);
    SubFacts(t.right, v);
    TopsAreNodes(Sub(t.right, v));
    SubLinked(t.right, tl, tl[a].right, Chunk(a), i, v);
    LinkedTops(t.right, tl, tl[a].right, Chunk(a), i);
    LinkedTops(t.left, tl, tl[a].left, Chunk(a), i);
    LinkedFrame(t.left, tl, tl', tl[a].left, Chunk(a), i);
  }

  // ---- what takes the place of a removed chunk -----------------------------------------

  ghost function IndexIn(c: seq<Addr>, x: Addr): (j: nat)
    requires x in c
    ensures j < |c| && c[j] == x
  {
    if c[0] == x then 0 else 1 + IndexIn(c[1..], x)
  }

  /** A subtree without its rightmost leaf. */
  ghost function Pruned(t: Trie): (r: Trie)
    requires t.Node? && Distinct(t)
  {
    Graft(t, LeafWay(t), Empty)
  }

  /** A subtree after unlink_large_chunk takes x out of its root's chain. */
  ghost function Removed(t: Trie, x: Addr): Trie
    requires t.Node? && Distinct(t) && x in t.chain
  {
    if |t.chain| > 1 then
      if x == t.chain[0] then Node(DropHead(t.chain), t.left, t.right)
      else Node(DropAt(t.chain, IndexIn(t.chain, x)), t.left, t.right)
    else if t.left.Empty? && t.right.Empty? then Empty
    else Swapped(t)
  }

  /** The rightmost leaf below the root moves up into its place. */
  ghost function Swapped(t: Trie): (r: Trie)
    requires t.Node? && Distinct(t) && (t.left.Node? || t.right.Node?)
    ensures r.Node?
  {
    PrunedRoot(t);
    Node(Sub(t, LeafWay(t)).chain, Pruned(t).left, Pruned(t).right)
  }

  lemma PrunedRoot(t: Trie)
    requires t.Node? && Distinct(t) && (t.left.Node? || t.right.Node?)
    ensures Pruned(t).Node? && Pruned(t).chain == t.chain
  {}

  lemma PrunedNodes(t: Trie)
    requires t.Node? && Distinct(t) && (t.left.Node? || t.right.Node?)
    ensures var leaf := Sub(t, LeafWay(t));
      Nodes(leaf) == Elems(leaf.chain) && Nodes(Pruned(t)) == Nodes(t) - Elems(leaf.chain)
      && Distinct(Pruned(t)) && Elems(leaf.chain) <= Nodes(t) && Elems(leaf.chain) !! Elems(t.chain)
  {
    var w := LeafWay(t);
    GraftNodes(t, w, Empty);
    SubFacts(t, w);
    LeafBelow(t);
  }

  lemma LeafBelow(t: Trie)
    requires t.Node? && Distinct(t) && (t.left.Node? || t.right.Node?)
    ensures Elems(Sub(t, LeafWay(t)).chain) !! Elems(t.chain)
  {
    if t.right.Node? { SubFacts(t.right, LeafWay(t.right)); } else { SubFacts(t.left, LeafWay(t.left)); }
  }

  lemma SwappedNodes(t: Trie)
    requires t.Node? && Distinct(t) && (t.left.Node? || t.right.Node?) && |t.chain| == 1
    ensures Nodes(Swapped(t)) == Nodes(t) - {t.chain[0]} && Distinct(Swapped(t))
  {
    PrunedNodes(t);
    PrunedRoot(t);
    assert Elems(t.chain) == {t.chain[0]};
  }

  /** Removing a chunk takes out exactly that chunk. */
  lemma RemovedNodes(t: Trie, x: Addr)
    requires t.Node? && Distinct(t) && x in t.chain && NoDup(t.chain)
    ensures Nodes(Removed(t, x)) == Nodes(t) - {x} && Distinct(Removed(t, x))
  {
    if |t.chain| > 1 {
      if x == t.chain[0] { DropHeadElems(t.chain); } else { DropAtFacts(t.chain, IndexIn(t.chain, x)); }
    } else {
      assert Elems(t.chain) == {x};
      if t.left.Node? || t.right.Node? { SwappedNodes(t); }
    }
  }

  lemma SwappedRanged(t: Trie, h: Heads, lo: nat, k: nat)
    requires t.Node? && Distinct(t) && (t.left.Node? || t.right.Node?) && Ranged(t, h, lo, k)
    ensures Ranged(Swapped(t), h, lo, k)
  {
    var w := LeafWay(t);
    PrunedRoot(t);
    SubRanged(t, h, lo, k, w);
    SubFacts(t, w);
    InRange(t, h, lo, k, Sub(t, w).chain[0]) by { assert Sub(t, w).chain[0] in Nodes(Sub(t, w)); }
    EmptyRangedAt(h, lo, k, w);
    GraftRanged(t, h, lo, k, w, Empty);
  }

  lemma SwappedUnique(t: Trie, h: Heads)
    requires t.Node? && Distinct(t) && (t.left.Node? || t.right.Node?) && Unique(t, h)
    ensures Unique(Swapped(t), h) && Sizes(Swapped(t), h) <= Sizes(t, h)
  {
    var w := LeafWay(t);
    var leaf := Sub(t, w);
    PrunedRoot(t);
    SubUnique(t, h, w);
    GraftUnique(t, h, w, Empty);
    PrunedSizes(t, h, w);
    assert Sizes(leaf, h) == {Sz(h, leaf.chain[0])};
  }

  lemma RemovedUnique(t: Trie, h: Heads, x: Addr)
    requires t.Node? && Distinct(t) && x in t.chain && Unique(t, h)
    requires forall a :: a in t.chain ==> Sz(h, a) == Sz(h, t.chain[0])
    ensures Unique(Removed(t, x), h) && Sizes(Removed(t, x), h) <= Sizes(t, h)
  {
    if |t.chain| == 1 {
      if t.left.Node? || t.right.Node? { SwappedUnique(t, h); }
    }
  }

  /** Removing a chunk keeps the trie rule. */
  lemma RemovedRanged(t: Trie, h: Heads, lo: nat, k: nat, x: Addr)
    requires t.Node? && Distinct(t) && x in t.chain && NoDup(t.chain) && Ranged(t, h, lo, k)
    ensures Ranged(Removed(t, x), h, lo, k)
  {
    if |t.chain| == 1 {
      if t.left.Node? || t.right.Node? { SwappedRanged(t, h, lo, k); }
    } else {
      assert forall a :: a in DropHead(t.chain) ==> a in t.chain;
    }
  }

  lemma {:induction false} RemovedAt(t: Trie, h: Heads, lo: nat, k: nat, w: Way, x: Addr)
    requires t.Node? && Distinct(t) && x in t.chain && NoDup(t.chain) && RangedAt(t, h, lo, k, w)
    ensures RangedAt(Removed(t, x), h, lo, k, w)
    decreases w
  {
    match w
    case There => RemovedRanged(t, h, lo, k, x);
    case ToLeft(v) => if k > 0 { RemovedAt(t, h, lo, k - 1, v, x); }
    case ToRight(v) => if k > 0 { RemovedAt(t, h, lo + Pow2(k - 1), k - 1, v, x); }
  }
}
