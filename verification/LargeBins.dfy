/** insert_large_chunk and unlink_large_chunk on the whole bin state. */
module LargeBins {
  import opened Bits
  import opened BinIndex
  import opened Chunks
  import opened Tries
  import opened TrieRemoval
  import opened TrieUnlink
  import opened TreeBins
  import opened TreeSearch
  import opened SmallBins
  import opened Bins

  // ---- insertion ---------------------------------------------------------------------------

  /** The path that the bits of size s lead along. */
  ghost function SizePath(t: Trie, h: Heads, s: nat, lo: nat, k: nat): (p: Path)
    requires t.Node? && Ranged(t, h, lo, k) && lo <= s < lo + Pow2(k)
    ensures PathOk(t, p) && Leads(t, h, s, lo, k, p)
    decreases t
  {
    if Sz(h, t.chain[0]) == s then Here
    else if s < lo + Pow2(k - 1) then
      if t.left.Empty? then NewLeft else GoLeft(SizePath(t.left, h, s, lo, k - 1))
    else
      if t.right.Empty? then NewRight else GoRight(SizePath(t.right, h, s, lo + Pow2(k - 1), k - 1))
  }

  /** The state of the descent for size s: the current subtree leads to the slot q. */
  ghost predicate Seeking(h: Heads, tl: TLinks, s: nat, i: nat, t: Addr, c: Cursor, q: Slot) {
    && c.t.Node? && Linked(c.t, tl, t, c.p, i) && Ranged(c.t, h, c.lo, c.k)
    && c.lo <= s < c.lo + Pow2(c.k)
    && q == SlotAt(c.t, SizePath(c.t, h, s, c.lo, c.k))
  }

  lemma StartBits(s: nat, i: nat, t: Trie)
    requires i < NTREEBINS && InBin(s, i) && s < WORD
    ensures BitsAt(s, Cursor(t, Bin(i), RangeLo(i), RangeBits(i)), Shl(s, LeftShift(i)) % WORD)
  {
    FirstBits(s, i);
    InBinRange(i, s);
  }

  lemma SeekStart(h: Heads, tl: TLinks, root: Addr, s: nat, i: nat, t: Trie) returns (c: Cursor, q: Slot)
    requires i < NTREEBINS && InBin(s, i) && s < WORD
    requires t.Node? && Linked(t, tl, root, Bin(i), i) && Ranged(t, h, RangeLo(i), RangeBits(i))
    ensures RangeLo(i) <= s < RangeLo(i) + Pow2(RangeBits(i))
    ensures q == SlotAt(t, SizePath(t, h, s, RangeLo(i), RangeBits(i)))
    ensures c.t == t && Seeking(h, tl, s, i, root, c, q) && BitsAt(s, c, Shl(s, LeftShift(i)) % WORD)
  {
    InBinRange(i, s);
    StartBits(s, i, t);
    c := Cursor(t, Bin(i), RangeLo(i), RangeBits(i));
    q := SlotAt(t, SizePath(t, h, s, RangeLo(i), RangeBits(i)));
  }

  lemma SeekStep(h: Heads, tl: TLinks, s: nat, i: nat, t: Addr, c: Cursor, bits: nat, q: Slot) returns (c': Cursor)
    requires Seeking(h, tl, s, i, t, c, q) && BitsAt(s, c, bits) && Sz(h, t) != s
    ensures t in tl
    ensures var right := bits / 0x8000_0000 == 1; var n := if right then tl[t].right else tl[t].left;
      && (n == 0 ==> q == Child(t, right))
      && (n != 0 ==> c'.t < c.t && Seeking(h, tl, s, i, n, c', q) && BitsAt(s, c', (2 * bits) % WORD))
  {
    ProbeBit(s, c.lo, c.k, bits);
    if bits / 0x8000_0000 == 1 {
      SeekRight(h, tl, s, i, t, c, q);
      c' := Cursor(c.t.right, Chunk(t), c.lo + Pow2(c.k - 1), c.k - 1);
    } else {
      SeekLeft(h, tl, s, i, t, c, q);
      c' := Cursor(c.t.left, Chunk(t), c.lo, c.k - 1);
    }
  }

  lemma SeekLeft(h: Heads, tl: TLinks, s: nat, i: nat, t: Addr, c: Cursor, q: Slot)
    requires Seeking(h, tl, s, i, t, c, q) && Sz(h, t) != s && c.k > 0 && s < c.lo + Pow2(c.k - 1)
    ensures tl[t].left == 0 ==> q == Child(t, false)
    ensures tl[t].left != 0 ==> Seeking(h, tl, s, i, tl[t].left, Cursor(c.t.left, Chunk(t), c.lo, c.k - 1), q)
  {
    RootAddr(c.t.left, tl, tl[t].left, Chunk(t), i);
  }

  lemma SeekRight(h: Heads, tl: TLinks, s: nat, i: nat, t: Addr, c: Cursor, q: Slot)
    requires Seeking(h, tl, s, i, t, c, q) && Sz(h, t) != s && c.k > 0 && c.lo + Pow2(c.k - 1) <= s
    ensures tl[t].right == 0 ==> q == Child(t, true)
    ensures tl[t].right != 0 ==>
      Seeking(h, tl, s, i, tl[t].right, Cursor(c.t.right, Chunk(t), c.lo + Pow2(c.k - 1), c.k - 1), q)
  {
    RootAddr(c.t.right, tl, tl[t].right, Chunk(t), i);
  }

  lemma SeekEnd(h: Heads, tl: TLinks, s: nat, i: nat, t: Addr, c: Cursor, q: Slot)
    requires Seeking(h, tl, s, i, t, c, q) && Sz(h, t) == s
    ensures q == Same(t)
  {}

  /** The descent of insert_large_chunk, testing the top bit of K at each level. */
  method FindSlot(h: Heads, tl: TLinks, root: Addr, s: nat, i: nat, ghost t0: Trie) returns (q: Slot)
    requires i < NTREEBINS && InBin(s, i) && s < WORD
    requires t0.Node? && Linked(t0, tl, root, Bin(i), i) && Ranged(t0, h, RangeLo(i), RangeBits(i))
    ensures RangeLo(i) <= s < RangeLo(i) + Pow2(RangeBits(i))
    ensures q == SlotAt(t0, SizePath(t0, h, s, RangeLo(i), RangeBits(i)))
  {
    var t := root;
    var bits: nat := Shl(s, LeftShift(i)) % WORD;
    ghost var c, slot := SeekStart(h, tl, root, s, i, t0);
    while Sz(h, t) != s
      invariant Seeking(h, tl, s, i, t, c, slot) && BitsAt(s, c, bits)
      decreases c.t
    {
      c := SeekStep(h, tl, s, i, t, c, bits, slot);
      var right := bits / 0x8000_0000 == 1;
      var n := if right then tl[t].right else tl[t].left;
      bits := (2 * bits) % WORD;
      if n == 0 {
        return Child(t, right);
      }
      t := n;
    }
    SeekEnd(h, tl, s, i, t, c, slot);
    return Same(t);
  }

  // ---- removal -----------------------------------------------------------------------------

  /** Owner's child slot holds r, and no other of its slots does. */
  ghost predicate SlotHolds(tl: TLinks, owner: Addr, right: bool, r: Addr) {
    && owner in tl && r != 0
    && (if right then tl[owner].right == r && tl[owner].left != r else tl[owner].left == r)
  }

  function ClearSlot(tl: TLinks, owner: Addr, right: bool): TLinks
    requires owner in tl
  {
    tl[owner := if right then tl[owner].(right := 0) else tl[owner].(left := 0)]
  }

  /** The rightmost child, when there is one. */
  lemma RightmostChild(t: Trie, tl: TLinks, a: Addr, up: Parent, i: nat)
    requires t.Node? && Distinct(t) && Linked(t, tl, a, up, i)
    ensures a in tl && (tl[a].right != 0 <==> t.right.Node?) && (tl[a].left != 0 <==> t.left.Node?)
    ensures t.right.Node? ==> SlotHolds(tl, a, true, tl[a].right)
    ensures t.left.Node? ==> SlotHolds(tl, a, false, tl[a].left)
  {
    RootAddr(t.left, tl, tl[a].left, Chunk(a), i);
    RootAddr(t.right, tl, tl[a].right, Chunk(a), i);
    if t.right.Node? && t.left.Node? {
      assert t.left.chain[0] in Nodes(t.left) && t.right.chain[0] in Nodes(t.right);
    }
  }

  /** The loop of unlink_large_chunk that finds the leaf to promote and the slot that holds it. */
  method FindLeaf(tl: TLinks, x: Addr, ghost t: Trie, ghost up: Parent, ghost i: nat)
    returns (r: Addr, owner: Addr, right: bool)
    requires t.Node? && Distinct(t) && Linked(t, tl, x, up, i) && (t.left.Node? || t.right.Node?)
    ensures r == Root(Sub(t, LeafWay(t))) && SlotHolds(tl, owner, right, r)
    ensures r in tl && tl[r].parent == Chunk(owner)
  {
    RightmostChild(t, tl, x, up, i);
    owner, right := x, tl[x].right != 0;
    r := if right then tl[x].right else tl[x].left;
    ghost var c := if t.right.Node? then t.right else t.left;
    RightmostChild(c, tl, r, Chunk(x), i);
    while tl[r].right != 0 || tl[r].left != 0
      invariant c.Node? && Distinct(c) && Linked(c, tl, r, Chunk(owner), i) && SlotHolds(tl, owner, right, r)
      invariant r in tl && (tl[r].right != 0 <==> c.right.Node?) && (tl[r].left != 0 <==> c.left.Node?)
      invariant Root(Sub(t, LeafWay(t))) == Root(Sub(c, LeafWay(c)))
      decreases c
    {
      RightmostChild(c, tl, r, Chunk(owner), i);
      owner, right := r, tl[r].right != 0;
      r := if right then tl[r].right else tl[r].left;
      c := if c.right.Node? then c.right else c.left;
      RightmostChild(c, tl, r, Chunk(owner), i);
    }
  }

  lemma ClearSlotIsRedirect(tl: TLinks, owner: Addr, right: bool, r: Addr)
    requires SlotHolds(tl, owner, right, r) && r in tl && tl[r].parent == Chunk(owner)
    ensures ClearSlot(tl, owner, right) == RedirectT(tl, r, 0)
  {}

  // ---- the effect on all bins ----------------------------------------------------------------

  /** The bin of a chunk that is to be inserted. */
  ghost predicate Insertable(b: BinState, c: Content, h: Heads, x: Addr, i: nat) {
    && BinsOk(b, c, h) && x > 0 && x !in Members(c) && MIN_LARGE_SIZE <= Sz(h, x) < WORD && i < NTREEBINS
    && InBin(Sz(h, x), i)
  }

  /** What insert_large_chunk leaves: x hung in bin i, every other bin as it was. */
  ghost predicate Inserted(c: Content, b': BinState, c': Content, h: Heads, x: Addr) {
    BinsOk(b', c', h) && Members(c') == Members(c) + {x}
  }

  lemma InsertIntoEmpty(b: BinState, c: Content, h: Heads, x: Addr, i: nat)
    requires Insertable(b, c, h, x, i) && c.forest[i].Empty?
    ensures var b' := BinState(b.rl[x := RLink(x, x)], b.tl[x := TLink(0, 0, Bin(i), i)], b.smallmap,
      SetBit(b.treemap, i), b.roots[i := x]);
      Inserted(c, b', c.(forest := c.forest[i := Node([x], Empty, Empty)]), h, x)
  {
    forall j | 0 <= j < NTREEBINS
      ensures TestBit(SetBit(b.treemap, i), j) <==> i == j || TestBit(b.treemap, j)
    {
      MarkBits(b.treemap, i, j);
    }
    MarkBits(b.treemap, i, i);
    InsertEmptyBin(h, b.tl, b.rl, i, x);
    LargeUpdate(b, c, h, i, Node([x], Empty, Empty), b.tl[x := TLink(0, 0, Bin(i), i)], b.rl[x := RLink(x, x)], x,
      SetBit(b.treemap, i), x);
    assert Nodes(Node([x], Empty, Empty)) == {x};
  }

  /** Writes to tl and rl outside the chunks s. */
  ghost predicate Outside(tl: TLinks, rl: RLinks, tl': TLinks, rl': RLinks, s: set<Addr>) {
    && (forall a :: a in tl && a !in s ==> a in tl' && tl'[a] == tl[a])
    && (forall a :: a in rl && a !in s ==> a in rl' && rl'[a] == rl[a])
  }

  lemma InsertedBin(t: Trie, h: Heads, tl: TLinks, rl: RLinks, root: Addr, i: nat, x: Addr, p: Path)
    requires i < NTREEBINS && BinOk(t, h, tl, rl, root, i) && x > 0 && x !in Nodes(t) && InBin(Sz(h, x), i)
    requires Sz(h, x) < WORD
    requires PathOk(t, p) && Leads(t, h, Sz(h, x), RangeLo(i), RangeBits(i), p)
    ensures var q := SlotAt(t, p);
      && q.a in tl && q.a in rl && rl[q.a].fd in rl
      && BinOk(InsertAt(t, p, x), h, AttachT(tl, q, x, i), AttachR(rl, q, x), root, i)
      && Outside(tl, rl, AttachT(tl, q, x, i), AttachR(rl, q, x), Nodes(t) + {x})
    ensures Nodes(InsertAt(t, p, x)) == Nodes(t) + {x}
  {
    InsertPointers(t, tl, rl, root, i, x, p);
    InsertSizes(t, h, i, x, p);
    TopsAreNodes(t);
  }

  /** Any writes that leave bin i with x added, and touch no other chunk, insert x. */
  lemma InsertEffect(b: BinState, c: Content, h: Heads, x: Addr, i: nat, t: Trie, tl': TLinks, rl': RLinks)
    requires Insertable(b, c, h, x, i) && c.forest[i].Node? && t.Node?
    requires BinOk(t, h, tl', rl', b.roots[i], i) && Nodes(t) == Nodes(c.forest[i]) + {x}
    requires Outside(b.tl, b.rl, tl', rl', Nodes(c.forest[i]) + {x})
    ensures Inserted(c, BinState(rl', tl', b.smallmap, b.treemap, b.roots), c.(forest := c.forest[i := t]), h, x)
  {
    InsertableFacts(b, c, h, x, i);
    LargeUpdate(b, c, h, i, t, tl', rl', b.roots[i], b.treemap, x);
  }

  lemma InsertableFacts(b: BinState, c: Content, h: Heads, x: Addr, i: nat)
    requires Insertable(b, c, h, x, i)
    ensures |b.roots| == NTREEBINS && b.roots[i := b.roots[i]] == b.roots && b.treemap < WORD
    ensures x !in SmallNodes(c.small) && x !in ForestNodes(c.forest) && (TestBit(b.treemap, i) <==> c.forest[i].Node?)
    ensures Members(c) + {x} == SmallNodes(c.small) +
      (ForestNodes(c.forest) - Nodes(c.forest[i]) + (Nodes(c.forest[i]) + {x}))
  {
    NodesInForest(c.forest, i);
    AddOne(ForestNodes(c.forest), Nodes(c.forest[i]), x);
  }

  lemma AddOne(u: set<Addr>, s: set<Addr>, x: Addr)
    ensures s <= u ==> u - s + (s + {x}) == u + {x}
  {}

  lemma InsertIntoTrie(b: BinState, c: Content, h: Heads, x: Addr, i: nat, p: Path)
    requires Insertable(b, c, h, x, i) && PathOk(c.forest[i], p)
    requires Leads(c.forest[i], h, Sz(h, x), RangeLo(i), RangeBits(i), p)
    ensures var q := SlotAt(c.forest[i], p);
      && q.a in b.tl && q.a in b.rl && b.rl[q.a].fd in b.rl
      && var b' := BinState(AttachR(b.rl, q, x), AttachT(b.tl, q, x, i), b.smallmap, b.treemap, b.roots);
         Inserted(c, b', c.(forest := c.forest[i := InsertAt(c.forest[i], p, x)]), h, x)
  {
    var t, q := c.forest[i], SlotAt(c.forest[i], p);
    assert BinOk(t, h, b.tl, b.rl, b.roots[i], i);
    NodesInForest(c.forest, i);
    InsertedBin(t, h, b.tl, b.rl, b.roots[i], i, x, p);
    InsertEffect(b, c, h, x, i, InsertAt(t, p, x), AttachT(b.tl, q, x, i), AttachR(b.rl, q, x));
  }

  // ---- the effect of unlink_large_chunk --------------------------------------------------------

  /** A binned large chunk and its bin. */
  ghost predicate Removable(b: BinState, c: Content, h: Heads, x: Addr, i: nat) {
    BinsOk(b, c, h) && i < NTREEBINS && x in Nodes(c.forest[i])
  }

  /** treemap after the bin's root became r. */
  function ClearIfEmpty(treemap: nat, i: nat, r: Addr): nat
    requires i < NTREEBINS
  {
    if r == 0 then ClearBit(treemap, i) else treemap
  }

  lemma ClearedBits(treemap: nat, i: nat, r: Addr)
    requires i < NTREEBINS && treemap < WORD
    ensures ClearIfEmpty(treemap, i, r) < WORD
    ensures forall j :: 0 <= j < NTREEBINS && j != i ==>
      (TestBit(ClearIfEmpty(treemap, i, r), j) <==> TestBit(treemap, j))
    ensures TestBit(ClearIfEmpty(treemap, i, r), i) <==> r != 0 && TestBit(treemap, i)
  {
    forall j | 0 <= j < NTREEBINS
      ensures TestBit(ClearBit(treemap, i), j) <==> i != j && TestBit(treemap, j)
    {
      MarkBits(treemap, i, j);
    }
    MarkBits(treemap, i, i);
  }

  lemma RemovableFacts(b: BinState, c: Content, h: Heads, x: Addr, i: nat)
    requires Removable(b, c, h, x, i)
    ensures TestBit(b.treemap, i)
    ensures x > 0 && x !in SmallNodes(c.small) && 256 <= Sz(h, x) < WORD && b.treemap < WORD && |b.roots| == NTREEBINS
    ensures Members(c) - {x} == SmallNodes(c.small) +
      (ForestNodes(c.forest) - Nodes(c.forest[i]) + (Nodes(c.forest[i]) - {x}))
  {
    NodesInForest(c.forest, i);
    MemberKinds(b, c, h, x);
    RemoveOne(ForestNodes(c.forest), Nodes(c.forest[i]), x);
  }

  /** Any writes that leave bin i without x, and touch no other chunk, unlink x. */
  lemma UnlinkEffect(b: BinState, c: Content, h: Heads, x: Addr, i: nat, t: Trie, tl': TLinks, rl': RLinks, root: Addr)
    requires Removable(b, c, h, x, i)
    requires BinOk(t, h, tl', rl', root, i) && Nodes(t) == Nodes(c.forest[i]) - {x}
    requires Outside(b.tl, b.rl, tl', rl', Nodes(c.forest[i]))
    ensures var b' := BinState(rl', tl', b.smallmap, ClearIfEmpty(b.treemap, i, root), b.roots[i := root]);
      var c' := c.(forest := c.forest[i := t]);
      BinsOk(b', c', h) && Members(c') == Members(c) - {x}
  {
    RemovableFacts(b, c, h, x, i);
    ClearedBits(b.treemap, i, root);
    RootAddr(t, tl', root, Bin(i), i);
    LargeUpdate(b, c, h, i, t, tl', rl', root, ClearIfEmpty(b.treemap, i, root), x);
  }

  lemma RemoveOne(u: set<Addr>, s: set<Addr>, x: Addr)
    ensures s <= u && x in s ==> u - s + (s - {x}) == u - {x}
  {}
}
