/** unlink_large_chunk on pointers: its writes turn the tree and rings of t into those of t without the chunk. */
module TrieUnlink {
  import opened Basics
  import opened Bits
  import opened Chunks
  import opened Tries
  import opened TrieRemoval

  /** The slot of x's parent chunk that points to x is set to r; the treebin slot is not a chunk. */
  function RedirectT(tl: TLinks, x: Addr, r: Addr): TLinks
    requires x in tl && (tl[x].parent.Chunk? ==> tl[x].parent.a in tl)
  {
    match tl[x].parent
    case Chunk(b) => tl[b := Redirected(tl[b], b, x, r, Chunk(b))]
    case _ => tl
  }

  /** r takes over x's parent and children. */
  function Adopt(tl: TLinks, x: Addr, r: Addr): TLinks
    requires x in tl && r in tl && x != r
    requires tl[x].left == 0 || tl[x].left in tl
    requires tl[x].right == 0 || tl[x].right in tl
  {
    var c0, c1 := tl[x].left, tl[x].right;
    var tl1 := tl[r := tl[r].(parent := tl[x].parent)];
    var tl2 := if c0 == 0 then tl1 else var u := tl1[r := tl1[r].(left := c0)]; u[c0 := u[c0].(parent := Chunk(r))];
    if c1 == 0 then tl2 else var u := tl2[r := tl2[r].(right := c1)]; u[c1 := u[c1].(parent := Chunk(r))]
  }

  lemma {:induction false} Reparent(t: Trie, tl: TLinks, tl': TLinks, a: Addr, p: Parent, q: Parent, i: nat)
    requires t.Node? && Distinct(t) && Linked(t, tl, a, p, i)
    requires forall b :: b in Tops(t) ==>
      b in tl && b in tl' && tl'[b] == (if b == a then tl[b].(parent := q) else tl[b])
    ensures Linked(t, tl', a, q, i)
  {
    TopsAreNodes(t.left);
    TopsAreNodes(t.right);
    LinkedFrame(t.left, tl, tl', tl[a].left, Chunk(a), i);
    LinkedFrame(t.right, tl, tl', tl[a].right, Chunk(a), i);
  }

  lemma AdoptFields(tl: TLinks, x: Addr, r: Addr)
    requires x in tl && r in tl && x != r
    requires tl[x].left != r && tl[x].right != r && (tl[x].left == 0 || tl[x].left != tl[x].right)
    requires tl[x].left == 0 || tl[x].left in tl
    requires tl[x].right == 0 || tl[x].right in tl
    requires tl[r].left == 0 && tl[r].right == 0
    ensures var tl' := Adopt(tl, x, r);
      r in tl' && tl'[r] == TLink(tl[x].left, tl[x].right, tl[x].parent, tl[r].index)
      && (forall b :: b in tl ==> b in tl')
      && (forall b :: b in tl && b != r && (b == 0 || (b != tl[x].left && b != tl[x].right)) ==>
           tl'[b] == tl[b] || b == 0)
      && (tl[x].left != 0 ==> tl'[tl[x].left] == tl[tl[x].left].(parent := Chunk(r)))
      && (tl[x].right != 0 ==> tl'[tl[x].right] == tl[tl[x].right].(parent := Chunk(r)))
  {}

  /** After Adopt, r roots the subtree that x rooted. */
  lemma AdoptLinked(c: seq<Addr>, l: Trie, rt: Trie, tl: TLinks, x: Addr, r: Addr, i: nat)
    requires |c| > 0 && c[0] == r > 0 && x in tl && r in tl && x != r
    requires tl[r].left == 0 && tl[r].right == 0 && tl[r].index == i
    requires Linked(l, tl, tl[x].left, Chunk(x), i) && Linked(rt, tl, tl[x].right, Chunk(x), i)
    requires Distinct(l) && Distinct(rt) && Nodes(l) !! Nodes(rt) && r !in Nodes(l) && r !in Nodes(rt)
    ensures tl[x].left == 0 || tl[x].left in tl
    ensures tl[x].right == 0 || tl[x].right in tl
    ensures Linked(Node(c, l, rt), Adopt(tl, x, r), r, tl[x].parent, i)
    ensures forall b :: b in tl && b != r && b !in Tops(l) && b !in Tops(rt) && b != 0 ==>
      b in Adopt(tl, x, r) && Adopt(tl, x, r)[b] == tl[b]
  {
    LinkedTops(l, tl, tl[x].left, Chunk(x), i);
    LinkedTops(rt, tl, tl[x].right, Chunk(x), i);
    TopsAreNodes(l);
    TopsAreNodes(rt);
    AdoptFields(tl, x, r);
    var tl' := Adopt(tl, x, r);
    if l.Node? { Reparent(l, tl, tl', tl[x].left, Chunk(x), Chunk(r), i); }
    if rt.Node? { Reparent(rt, tl, tl', tl[x].right, Chunk(x), Chunk(r), i); }
  }

  /** The parent of a subtree's root lies outside the subtree. */
  lemma {:induction false} ParentOutside(t: Trie, tl: TLinks, a: Addr, up: Parent, i: nat, w: Way)
    requires WayOk(t, w) && !w.There? && Distinct(t) && Linked(t, tl, a, up, i)
    ensures var x := Root(Sub(t, w));
      x in tl && tl[x].parent.Chunk? && tl[x].parent.a in tl && tl[x].parent.a in Tops(t) &&
        tl[x].parent.a !in Nodes(Sub(t, w))
  {
    LinkedTops(t, tl, a, up, i);
    SubFacts(t, w);
    match w
    case ToLeft(v) =>
      if v.There? { SubLinked(t.left, tl, tl[a].left, Chunk(a), i, v); }
      else { ParentOutside(t.left, tl, tl[a].left, Chunk(a), i, v); }
    case ToRight(v) =>
      if v.There? { SubLinked(t.right, tl, tl[a].right, Chunk(a), i, v); }
      else { ParentOutside(t.right, tl, tl[a].right, Chunk(a), i, v); }
  }

  /** What the unlink lemmas share: where x stands and what its redirected parent looks like. */
  lemma AtRoot(t: Trie, tl: TLinks, a: Addr, i: nat, w: Way)
    requires WayOk(t, w) && Distinct(t) && Linked(t, tl, a, Bin(i), i)
    ensures var x := Root(Sub(t, w));
      x in tl && Linked(Sub(t, w), tl, x, tl[x].parent, i)
      && (tl[x].parent.Chunk? ==> tl[x].parent.a in tl && tl[x].parent.a !in Nodes(Sub(t, w)))
      && (tl[x].parent.Chunk? <==> !w.There?)
  {
    SubLinked(t, tl, a, Bin(i), i, w);
    if !w.There? { ParentOutside(t, tl, a, Bin(i), i, w); }
  }

  /** x alone in its chain and childless: its slot becomes null. */
  lemma UnlinkLeaf(t: Trie, tl: TLinks, a: Addr, i: nat, w: Way)
    requires WayOk(t, w) && Distinct(t) && Linked(t, tl, a, Bin(i), i)
    ensures var x := Root(Sub(t, w));
      x in tl && (tl[x].parent.Chunk? ==> tl[x].parent.a in tl)
      && Linked(Graft(t, w, Empty), RedirectT(tl, x, 0), Root(Graft(t, w, Empty)), Bin(i), i)
  {
    AtRoot(t, tl, a, i, w);
    LinkedTops(t, tl, a, Bin(i), i);
    var x := Root(Sub(t, w));
    GraftLinked(t, tl, RedirectT(tl, x, 0), a, Bin(i), i, w, Empty);
  }

  lemma RedirectKeeps(t: Trie, tl: TLinks, x: Addr, r: Addr, a: Addr, i: nat)
    requires x in tl && Linked(t, tl, a, Chunk(x), i)
    requires tl[x].parent.Chunk? ==> tl[x].parent.a in tl && tl[x].parent.a !in Tops(t)
    ensures Linked(t, RedirectT(tl, x, r), a, Chunk(x), i)
  {
    LinkedTops(t, tl, a, Chunk(x), i);
    LinkedFrame(t, tl, RedirectT(tl, x, r), a, Chunk(x), i);
  }

  /** r, a chunk with no tree links of its own, takes x's place above the subtrees l and rt. */
  lemma UnlinkReplace(t: Trie, tl: TLinks, tl1: TLinks, a: Addr, i: nat, w: Way, c: seq<Addr>, l: Trie, rt: Trie)
    requires WayOk(t, w) && Distinct(t) && Linked(t, tl, a, Bin(i), i)
    requires var x := Root(Sub(t, w));
      && |c| > 0 && c[0] > 0 && c[0] != x && x in tl && x in tl1 && c[0] in tl1
      && tl1[c[0]].left == 0 && tl1[c[0]].right == 0 && tl1[c[0]].index == i
      && tl1[x].parent == tl[x].parent
      && Linked(l, tl1, tl1[x].left, Chunk(x), i) && Linked(rt, tl1, tl1[x].right, Chunk(x), i)
      && (forall b :: b in Tops(t) && b !in Tops(Sub(t, w)) ==> b in tl && b in tl1 && tl1[b] == tl[b])
    requires Distinct(l) && Distinct(rt) && Nodes(l) !! Nodes(rt) && c[0] !in Nodes(l) && c[0] !in Nodes(rt)
    requires c[0] in Nodes(Sub(t, w)) && Tops(l) <= Tops(Sub(t, w)) && Tops(rt) <= Tops(Sub(t, w))
    requires c[0] in Tops(t) ==> c[0] in Tops(Sub(t, w))
    ensures var x := Root(Sub(t, w));
      && (tl1[x].parent.Chunk? ==> tl1[x].parent.a in tl1)
      && var tl2 := RedirectT(tl1, x, c[0]);
         (tl2[x].left == 0 || tl2[x].left in tl2) && (tl2[x].right == 0 || tl2[x].right in tl2)
         && Linked(Graft(t, w, Node(c, l, rt)), Adopt(tl2, x, c[0]), Root(Graft(t, w, Node(c, l, rt))), Bin(i), i)
  {
    var x, s := Root(Sub(t, w)), Node(c, l, rt);
    AtRoot(t, tl, a, i, w);
    TopsAreNodes(Sub(t, w));
    if !w.There? { ParentOutside(t, tl, a, Bin(i), i, w); }
    LinkedTops(t, tl, a, Bin(i), i);
    var tl2 := RedirectT(tl1, x, c[0]);
    RedirectKeeps(l, tl1, x, c[0], tl1[x].left, i);
    RedirectKeeps(rt, tl1, x, c[0], tl1[x].right, i);
    AdoptLinked(c, l, rt, tl2, x, c[0], i);
    var tl3 := Adopt(tl2, x, c[0]);
    forall b | b in Tops(t) && b !in Tops(Sub(t, w))
      ensures b in tl3 && tl3[b] == Redirected(tl[b], b, x, c[0], tl[x].parent)
    {
      assert b in tl2 && b != c[0];
    }
    GraftLinked(t, tl, tl3, a, Bin(i), i, w, s);
  }

  lemma {:induction false} FollowerNotTop(t: Trie, w: Way, b: Addr)
    requires WayOk(t, w) && Distinct(t) && b in Sub(t, w).chain && b != Sub(t, w).chain[0]
    ensures b !in Tops(t) && b in Nodes(t)
  {
    TopsAreNodes(t.left);
    TopsAreNodes(t.right);
    SubFacts(t, w);
    match w
    case There =>
    case ToLeft(v) =>
      FollowerNotTop(t.left, v, b);
    case ToRight(v) =>
      FollowerNotTop(t.right, v, b);
  }

  /** x has chain members behind it: the last of them takes its place. */
  lemma UnlinkChained(t: Trie, tl: TLinks, a: Addr, i: nat, w: Way)
    requires WayOk(t, w) && Distinct(t) && Linked(t, tl, a, Bin(i), i) && Followers(t, tl, i)
    requires |Sub(t, w).chain| > 1 && NoDup(Sub(t, w).chain)
    ensures var sub := Sub(t, w); var x, r := Root(sub), DropHead(sub.chain)[0];
      && x in tl && r in tl && x != r && (tl[x].parent.Chunk? ==> tl[x].parent.a in tl)
      && var tl2 := RedirectT(tl, x, r); var s := Node(DropHead(sub.chain), sub.left, sub.right);
         (tl2[x].left == 0 || tl2[x].left in tl2) && (tl2[x].right == 0 || tl2[x].right in tl2)
         && Linked(Graft(t, w, s), Adopt(tl2, x, r), Root(Graft(t, w, s)), Bin(i), i)
  {
    var sub := Sub(t, w);
    var c := DropHead(sub.chain);
    AtRoot(t, tl, a, i, w);
    SubFacts(t, w);
    LinkedTops(t, tl, a, Bin(i), i);
    assert c[0] in sub.chain && c[0] != sub.chain[0];
    FollowerNotTop(t, w, c[0]);
    UnlinkReplace(t, tl, tl, a, i, w, c, sub.left, sub.right);
  }

  lemma PrunedLinked(t: Trie, tl: TLinks, x: Addr, up: Parent, i: nat)
    requires t.Node? && Distinct(t) && (t.left.Node? || t.right.Node?) && Linked(t, tl, x, up, i)
    ensures var r := Root(Sub(t, LeafWay(t)));
      && r > 0 && r in tl && tl[r].parent.Chunk? && tl[r].parent.a in tl && tl[r].parent.a in Tops(t)
      && tl[r].left == 0 && tl[r].right == 0 && tl[r].index == i
      && Linked(Pruned(t), RedirectT(tl, r, 0), x, up, i)
  {
    var w := LeafWay(t);
    SubLinked(t, tl, x, up, i, w);
    ParentOutside(t, tl, x, up, i, w);
    LinkedTops(t, tl, x, up, i);
    var r := Root(Sub(t, w));
    GraftLinked(t, tl, RedirectT(tl, r, 0), x, up, i, w, Empty);
    PrunedRoot(t);
  }

  lemma {:induction false} PrunedTops(t: Trie, w: Way)
    requires WayOk(t, w) && Distinct(t)
    ensures Tops(Graft(t, w, Empty)) <= Tops(t)
  {
    match w
    case There =>
    case ToLeft(v) => PrunedTops(t.left, v);
    case ToRight(v) => PrunedTops(t.right, v);
  }

  /** x is alone in its chain but has children: the rightmost leaf below it is cut off and takes its place. */
  lemma UnlinkSwapped(t: Trie, tl: TLinks, a: Addr, i: nat, w: Way)
    requires WayOk(t, w) && Distinct(t) && Linked(t, tl, a, Bin(i), i)
    requires Sub(t, w).left.Node? || Sub(t, w).right.Node?
    requires Distinct(Sub(t, w))
    ensures var sub := Sub(t, w); var x, r := Root(sub), Root(Sub(sub, LeafWay(sub)));
      && x in tl && r in tl && x != r && tl[r].parent.Chunk? && tl[r].parent.a in tl
    ensures var sub := Sub(t, w); var x, r := Root(sub), Root(Sub(sub, LeafWay(sub)));
      var tl1 := RedirectT(tl, r, 0);
      (tl1[x].parent.Chunk? ==> tl1[x].parent.a in tl1) && tl1[x].parent == tl[x].parent
    ensures var sub := Sub(t, w); var x, r := Root(sub), Root(Sub(sub, LeafWay(sub)));
      var tl2 := RedirectT(RedirectT(tl, r, 0), x, r);
      var s := Swapped(sub);
      && (tl2[x].left == 0 || tl2[x].left in tl2) && (tl2[x].right == 0 || tl2[x].right in tl2)
      && Linked(Graft(t, w, s), Adopt(tl2, x, r), Root(Graft(t, w, s)), Bin(i), i)
  {
    var sub := Sub(t, w);
    var leaf, p := Sub(sub, LeafWay(sub)), Pruned(sub);
    var x, r := Root(sub), Root(leaf);
    AtRoot(t, tl, a, i, w);
    PrunedLinked(sub, tl, x, tl[x].parent, i);
    PrunedRoot(sub);
    PrunedNodes(sub);
    PrunedTops(sub, LeafWay(sub));
    SubFacts(t, w);
    SwapOutside(t, tl, a, i, w);
    assert r in leaf.chain && x in sub.chain;
    UnlinkReplace(t, tl, RedirectT(tl, r, 0), a, i, w, leaf.chain, p.left, p.right);
  }

  lemma SwapOutside(t: Trie, tl: TLinks, a: Addr, i: nat, w: Way)
    requires WayOk(t, w) && Distinct(t) && Distinct(Sub(t, w)) && Linked(t, tl, a, Bin(i), i)
    requires Sub(t, w).left.Node? || Sub(t, w).right.Node?
    ensures var sub := Sub(t, w); var r := Root(Sub(sub, LeafWay(sub)));
      && r in tl && tl[r].parent.Chunk? && tl[r].parent.a in tl && r in Tops(sub)
      && (forall b :: b in Tops(t) && b !in Tops(sub) ==>
            b in tl && b in RedirectT(tl, r, 0) && RedirectT(tl, r, 0)[b] == tl[b])
  {
    var sub := Sub(t, w);
    AtRoot(t, tl, a, i, w);
    PrunedLinked(sub, tl, Root(sub), tl[Root(sub)].parent, i);
    LinkedTops(t, tl, a, Bin(i), i);
    SubFacts(sub, LeafWay(sub));
    TopsAreNodes(Sub(sub, LeafWay(sub)));
  }
}
