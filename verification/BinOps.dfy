/** insert_chunk and unlink_chunk: the small and the tree bins behind one interface. */
module BinOps {
  import opened Basics
  import opened Bits
  import opened BinIndex
  import opened Chunks
  import opened Tries
  import opened TreeBins
  import opened TreeSearch
  import opened SmallBins
  import opened Bins
  import opened LargeBins
  import opened LargeUnlink

  /** The bins hold exactly x less than before. */
  ghost predicate Unlinked(c: Content, after: BinState, c': Content, h: Heads, x: Addr) {
    BinsOk(after, c', h) && Members(c') == Members(c) - {x}
  }

  /** A chunk that may be put in a bin. */
  ghost predicate Binnable(c: Content, h: Heads, x: Addr, s: nat) {
    x > 0 && x !in Members(c) && Sz(h, x) == s && s % 8 == 0 && s < WORD
  }

  method InsertLargeChunk(b: BinState, h: Heads, x: Addr, s: nat, ghost c: Content)
    returns (after: BinState, ghost c': Content)
    requires BinsOk(b, c, h) && Binnable(c, h, x, s) && s >= MIN_LARGE_SIZE
    ensures Inserted(c, after, c', h, x)
  {
    var i := TreeIndex(s);
    TreeIndexRange(s);
    assert Insertable(b, c, h, x, i);
    ghost var t := c.forest[i];
    assert BinOk(t, h, b.tl, b.rl, b.roots[i], i) && (TestBit(b.treemap, i) <==> t.Node?);
    if !TestBit(b.treemap, i) {
      InsertIntoEmpty(b, c, h, x, i);
      c' := c.(forest := c.forest[i := Node([x], Empty, Empty)]);
      after := BinState(b.rl[x := RLink(x, x)], b.tl[x := TLink(0, 0, Bin(i), i)], b.smallmap, SetBit(b.treemap, i),
        b.roots[i := x]);
    } else {
      var q := FindSlot(h, b.tl, b.roots[i], s, i, t);
      ghost var p := SizePath(t, h, s, RangeLo(i), RangeBits(i));
      InsertIntoTrie(b, c, h, x, i, p);
      c' := c.(forest := c.forest[i := InsertAt(t, p, x)]);
      after := b.(rl := AttachR(b.rl, q, x), tl := AttachT(b.tl, q, x, i));
    }
  }

  method UnlinkLargeChunk(b: BinState, x: Addr, ghost c: Content, ghost h: Heads)
    returns (after: BinState, ghost c': Content)
    requires BinsOk(b, c, h) && x in ForestNodes(c.forest)
    ensures Unlinked(c, after, c', h, x)
  {
    ghost var i: nat :| i < NTREEBINS && x in Nodes(c.forest[i]);
    ghost var t := c.forest[i];
    assert BinOk(t, h, b.tl, b.rl, b.roots[i], i);
    var tl, rl, roots, treemap := UnlinkFromTrie(b.tl, b.rl, b.roots, b.treemap, x, t, h, i);
    UnlinkEffect(b, c, h, x, i, Without(t, x), tl, rl, roots[i]);
    c' := c.(forest := c.forest[i := Without(t, x)]);
    after := BinState(rl, tl, b.smallmap, treemap, roots);
  }

  method InsertChunk(b: BinState, h: Heads, x: Addr, s: nat, ghost c: Content)
    returns (after: BinState, ghost c': Content)
    requires BinsOk(b, c, h) && Binnable(c, h, x, s)
    ensures Inserted(c, after, c', h, x)
  {
    if s / 8 < NSMALLBINS {
      InsertSmallOk(b, c, h, s / 8, x);
      c' := c.(small := c.small[s / 8 := [x] + c.small[s / 8]]);
      after := InsertSmall(b, s / 8, x);
    } else {
      after, c' := InsertLargeChunk(b, h, x, s, c);
    }
  }

  /** A member of the bins by size: small chunks are in a list, large ones in a trie. */
  lemma MemberBySize(b: BinState, c: Content, h: Heads, x: Addr)
    requires BinsOk(b, c, h) && x in Members(c)
    ensures Sz(h, x) / 8 < NSMALLBINS ==> x in c.small[Sz(h, x) / 8]
    ensures Sz(h, x) / 8 >= NSMALLBINS ==> x in ForestNodes(c.forest)
  {
    MemberKinds(b, c, h, x);
    SmallMember(c.small, h, b.rl, b.smallmap, x);
  }

  method UnlinkChunk(b: BinState, h: Heads, x: Addr, s: nat, ghost c: Content)
    returns (after: BinState, ghost c': Content)
    requires BinsOk(b, c, h) && x in Members(c) && Sz(h, x) == s
    ensures Unlinked(c, after, c', h, x)
  {
    MemberBySize(b, c, h, x);
    if s / 8 < NSMALLBINS {
      ghost var j := IndexOf(c.small[s / 8], x);
      UnlinkSmallOk(b, c, h, s / 8, j);
      c' := c.(small := c.small[s / 8 := DropAt(c.small[s / 8], j)]);
      after := UnlinkSmall(b, s / 8, x);
    } else {
      after, c' := UnlinkLargeChunk(b, x, c, h);
    }
  }

  /** The first chunk of a marked small bin. */
  lemma FirstOfBin(b: BinState, c: Content, h: Heads, i: nat)
    requires BinsOk(b, c, h) && i < NSMALLBINS && TestBit(b.smallmap, i)
    ensures Hdr(i) in b.rl && |c.small[i]| > 0 && b.rl[Hdr(i)].fd == c.small[i][0]
    ensures c.small[i][0] in Members(c) && Sz(h, c.small[i][0]) == 8 * i && c.small[i][0] > 0
  {
    assert SmallBinOk(c.small[i], h, b.rl, i) && |c.small[i]| > 0;
    var r := [Hdr(i)] + c.small[i];
    assert r[0] == Hdr(i) && r[1] == c.small[i][0];
  }

  /** unlink_first_small_chunk: the head of the marked bin i leaves it. */
  method UnlinkFirstSmallChunk(b: BinState, i: nat, ghost c: Content, ghost h: Heads)
    returns (after: BinState, p: Addr, ghost c': Content)
    requires BinsOk(b, c, h) && i < NSMALLBINS && TestBit(b.smallmap, i)
    ensures |c.small[i]| > 0 && p == c.small[i][0]
    ensures p in Members(c) && p > 0 && Sz(h, p) == 8 * i && Unlinked(c, after, c', h, p)
  {
    FirstOfBin(b, c, h, i);
    UnlinkSmallOk(b, c, h, i, 0);
    p := b.rl[Hdr(i)].fd;
    c' := c.(small := c.small[i := DropAt(c.small[i], 0)]);
    after := UnlinkSmall(b, i, p);
  }

  // ---- the bins as one set of chunks ---------------------------------------------------------------

  /** Mentioning Look(0) opens the definitions that are guarded by it. */
  ghost predicate Look(k: nat) { k >= 0 }

  /** The bins are in order, and together they hold the chunks u. The guard keeps the details of the bins
      out of proofs that only need the set. */
  ghost predicate BinsHold(b: BinState, c: Content, h: Heads, u: set<Addr>) {
    forall k: nat {:trigger Look(k)} :: Look(k) ==> BinsOk(b, c, h) && Members(c) == u
  }

  lemma Open(b: BinState, c: Content, h: Heads, u: set<Addr>)
    requires BinsHold(b, c, h, u)
    ensures BinsOk(b, c, h) && Members(c) == u
  {
    assert Look(0);
  }

  lemma HoldFrame(b: BinState, c: Content, h: Heads, h': Heads, u: set<Addr>)
    requires BinsHold(b, c, h, u) && forall a :: a in u ==> Sz(h', a) == Sz(h, a)
    ensures BinsHold(b, c, h', u)
  {
    Open(b, c, h, u);
    BinsFrame(b, c, h, h');
  }

  method Insert(b: BinState, h: Heads, x: Addr, s: nat, ghost c: Content, ghost u: set<Addr>)
    returns (after: BinState, ghost c': Content)
    requires BinsHold(b, c, h, u) && x > 0 && x !in u && Sz(h, x) == s && s % 8 == 0 && s < WORD
    ensures BinsHold(after, c', h, u + {x})
  {
    Open(b, c, h, u);
    after, c' := InsertChunk(b, h, x, s, c);
  }

  method Unlink(b: BinState, h: Heads, x: Addr, s: nat, ghost c: Content, ghost u: set<Addr>)
    returns (after: BinState, ghost c': Content)
    requires BinsHold(b, c, h, u) && x in u && Sz(h, x) == s
    ensures BinsHold(after, c', h, u - {x})
  {
    Open(b, c, h, u);
    after, c' := UnlinkChunk(b, h, x, s, c);
  }

  lemma RootIsNode(t: Trie)
    ensures t.Node? && |t.chain| > 0 ==> t.chain[0] in Nodes(t)
  {}

  /** Empty bins do not depend on the link fields. */
  lemma EmptyBins(b: BinState, c: Content, h: Heads, rl: RLinks)
    requires BinsHold(b, c, h, {})
    ensures BinsHold(b.(rl := rl), c, h, {})
  {
    Open(b, c, h, {});
    forall i | 0 <= i < NSMALLBINS ensures SmallBinOk(c.small[i], h, rl, i) {
      assert SmallBinOk(c.small[i], h, b.rl, i);
      if |c.small[i]| > 0 { FirstOfBin(b, c, h, i); }
    }
    forall i | 0 <= i < NTREEBINS ensures BinOk(c.forest[i], h, b.tl, rl, b.roots[i], i) {
      assert BinOk(c.forest[i], h, b.tl, b.rl, b.roots[i], i);
      NodesInForest(c.forest, i);
      RootIsNode(c.forest[i]);
    }
  }

  ghost function EmptyContent(): Content { Content(seq(NSMALLBINS, i => []), seq(NTREEBINS, i => Empty)) }

  /** Zeroed bins hold nothing. */
  lemma EmptyBinsHold(b: BinState, h: Heads)
    requires b.smallmap == 0 && b.treemap == 0 && |b.roots| == NTREEBINS
    requires forall i :: 0 <= i < NTREEBINS ==> b.roots[i] == 0
    ensures BinsHold(b, EmptyContent(), h, {})
  {
    var c := EmptyContent();
    forall i: nat ensures !TestBit(0, i) { ZeroBits(i); }
    assert Members(c) == {};
    forall i | 0 <= i < NTREEBINS ensures BinOk(c.forest[i], h, b.tl, b.rl, b.roots[i], i) {}
  }

  /** init_bins: every small bin's header points to itself. */
  method InitBins(rl: RLinks) returns (rl': RLinks)
    ensures forall i :: 0 <= i < NSMALLBINS ==> Hdr(i) in rl' && rl'[Hdr(i)] == RLink(Hdr(i), Hdr(i))
  {
    rl' := rl;
    for i := 0 to NSMALLBINS
      invariant forall j :: 0 <= j < i ==> Hdr(j) in rl' && rl'[Hdr(j)] == RLink(Hdr(j), Hdr(j))
    {
      rl' := rl'[Hdr(i) := RLink(Hdr(i), Hdr(i))];
    }
  }
}
