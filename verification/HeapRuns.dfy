/** Whole runs of malloc and free calls on a fresh allocator. */
module HeapRuns {
  import opened Basics
  import opened Bits
  import opened Chunks
  import opened Tiles
  import opened HeapInv
  import opened Malloc

  /** Two in-use chunks never overlap, and lie inside the memory got from sbrk. */
  lemma AllocatedApart(m: Mem, w: View, footer: nat, a: Addr, b: Addr)
    requires Sound(m, w, footer, {}) && a in InUse(w.seg, m.heads) && b in InUse(w.seg, m.heads) && a != b
    ensures a + Sz(m.heads, a) <= b || b + Sz(m.heads, b) <= a
    ensures w.seg.base <= a && a + Sz(m.heads, a) <= m.brk
  {
    assert TileOk(w.seg, m.heads, m.foots, a);
    assert TileOk(w.seg, m.heads, m.foots, a + m.heads[a].size);
  }

  /** Between operations no two free chunks touch, and none touches top: freeing has merged all it could. */
  lemma FreeChunksApart(m: Mem, w: View, footer: nat, a: Addr)
    requires Sound(m, w, footer, {}) && a in FreeChunks(w.seg, m.heads)
    ensures a + Sz(m.heads, a) in InUse(w.seg, m.heads) && a + Sz(m.heads, a) != m.top
    ensures forall b :: b in FreeChunks(w.seg, m.heads) ==> b + Sz(m.heads, b) != a
  {
    AfterFree(w.seg, m.heads, m.foots, a);
    forall b | b in FreeChunks(w.seg, m.heads)
      ensures b + Sz(m.heads, b) != a
    {
      AfterFree(w.seg, m.heads, m.foots, b);
    }
  }

  // ---- runs ------------------------------------------------------------------------------------------

  datatype Op = Request(bytes: nat, mapped: bool) | Release(i: nat)

  /** A block the program holds: the chunk behind what malloc returned, and what was asked for. */
  datatype Block = Block(chunk: Addr, bytes: nat)

  ghost function ChunksOf(blocks: seq<Block>): set<Addr> { set b | b in blocks :: b.chunk }

  ghost predicate NoTwice(blocks: seq<Block>) {
    forall i, j :: 0 <= i < j < |blocks| ==> blocks[i].chunk != blocks[j].chunk
  }

  /** Every block has room for its bytes behind its header. */
  ghost predicate Roomy(h: Heads, blocks: seq<Block>) {
    forall b :: b in blocks ==> Sz(h, b.chunk) >= b.bytes + 8
  }

  /** The blocks held are exactly the chunks in use. */
  ghost predicate Outstanding(g: Segment, h: Heads, blocks: seq<Block>) {
    NoTwice(blocks) && Roomy(h, blocks) && InUse(g, h) == ChunksOf(blocks)
  }

  lemma ChunkIn(blocks: seq<Block>, b: Block)
    ensures b in blocks ==> b.chunk in ChunksOf(blocks)
  {}

  lemma RoomyFrame(h: Heads, h': Heads, blocks: seq<Block>, u: set<Addr>)
    requires Roomy(h, blocks) && ChunksOf(blocks) <= u && (forall a :: a in u ==> a in h) && KeepSizes(h, h', u)
    ensures Roomy(h', blocks)
  {
    forall b | b in blocks ensures Sz(h', b.chunk) >= b.bytes + 8 { ChunkIn(blocks, b); }
  }

  lemma ChunksAppend(blocks: seq<Block>, b: Block)
    ensures ChunksOf(blocks + [b]) == ChunksOf(blocks) + {b.chunk}
  {
    var bs := blocks + [b];
    assert b in bs;
    forall x | x in ChunksOf(blocks) ensures x in ChunksOf(bs) {
      var c :| c in blocks && c.chunk == x;
      assert c in bs;
    }
  }

  lemma AfterRequest(g: Segment, h: Heads, g': Segment, h': Heads, blocks: seq<Block>, b: Block)
    requires Outstanding(g, h, blocks) && Gained(g, h, g', h', b.chunk) && Sz(h', b.chunk) >= b.bytes + 8
    ensures Outstanding(g', h', blocks + [b])
  {
    ChunksAppend(blocks, b);
    RoomyFrame(h, h', blocks, InUse(g, h));
    forall i | 0 <= i < |blocks| ensures blocks[i].chunk != b.chunk { ChunkIn(blocks, blocks[i]); }
  }

  lemma ChunksDrop(blocks: seq<Block>, i: nat)
    requires NoTwice(blocks) && i < |blocks|
    ensures ChunksOf(DropAt(blocks, i)) == ChunksOf(blocks) - {blocks[i].chunk} && NoTwice(DropAt(blocks, i))
    ensures forall b :: b in DropAt(blocks, i) ==> b in blocks
  {
    var bs := DropAt(blocks, i);
    forall x | x in ChunksOf(blocks) - {blocks[i].chunk} ensures x in ChunksOf(bs) {
      var c :| c in blocks && c.chunk == x;
      var j :| 0 <= j < |blocks| && blocks[j] == c;
      assert bs[if j < i then j else j - 1] == c;
    }
    forall x | x in ChunksOf(bs) ensures x in ChunksOf(blocks) && x != blocks[i].chunk {
      var c :| c in bs && c.chunk == x;
      var j :| 0 <= j < |bs| && bs[j] == c;
      assert c == blocks[if j < i then j else j + 1];
    }
  }

  lemma AfterRelease(g: Segment, h: Heads, g': Segment, h': Heads, blocks: seq<Block>, i: nat)
    requires Outstanding(g, h, blocks) && i < |blocks| && Lost(g, h, g', h', blocks[i].chunk)
    ensures Outstanding(g', h', DropAt(blocks, i))
  {
    ChunksDrop(blocks, i);
    RoomyFrame(h, h', DropAt(blocks, i), InUse(g, h) - {blocks[i].chunk});
  }

  /** A moment of a run: the allocator and the blocks the program holds. */
  datatype Moment = Moment(m: Mem, w: View, blocks: seq<Block>, contiguous: bool)

  /** The allocator is sound, and what it has in use is exactly what the program holds, each block with its room. */
  ghost predicate Good(x: Moment, footer: nat) {
    (Zeroed(x.m, x.w) || Sound(x.m, x.w, footer, {})) && Outstanding(x.w.seg, x.m.heads, x.blocks)
  }

  /** May sys_alloc still extend top, after a request that only new memory could serve? */
  ghost function ContiguousAfter(x: Moment, nb: nat): bool {
    if Grows(x.m, x.w, nb) then StaysContiguous(nb, x.m.topsize, x.m.top, x.contiguous) else x.contiguous
  }

  /** What one operation may do. A request gets no block exactly if no free chunk fits, top is too small, and it
      asks for more than the system can ever give; it then changes at most how memory is asked for. A release of a
      block not held changes nothing. */
  ghost predicate Steps(x: Moment, op: Op, p: Addr, y: Moment) {
    match op
    case Request(bytes, _) =>
      var nb := ChunkFor(bytes);
      && (p == 0 <==> Grows(x.m, x.w, nb) && CannotGrow(nb, x.m.topsize, x.m.top != 0 && x.contiguous))
      && y.contiguous == ContiguousAfter(x, nb)
      && if p == 0 then y == x.(contiguous := y.contiguous)
         else
           && Served(x.m, x.w, y.m, y.w, p - 8, nb) && p % 8 == 0
           && y.blocks == x.blocks + [Block(p - 8, bytes)]
    case Release(i) =>
      if i < |x.blocks| then
        && Freed(x.m, x.w, y.m, y.w, x.blocks[i].chunk)
        && y.blocks == DropAt(x.blocks, i) && y.contiguous == x.contiguous
      else y == x
  }

  /** The moments of a run: each operation takes one to the next, with the block address it returned. */
  ghost predicate Runs(tr: seq<Moment>, ops: seq<Op>, got: seq<Addr>, footer: nat) {
    && |tr| == |got| + 1 && |got| <= |ops|
    && (forall i :: 0 <= i < |tr| ==> Good(tr[i], footer))
    && (forall i, j :: 0 <= i < j < |tr| && j == i + 1 ==> Steps(tr[i], ops[i], got[i], tr[j]))
  }

  lemma RunOn(tr: seq<Moment>, ops: seq<Op>, got: seq<Addr>, footer: nat, p: Addr, y: Moment)
    requires Runs(tr, ops, got, footer) && |got| < |ops| && Steps(tr[|got|], ops[|got|], p, y) && Good(y, footer)
    ensures Runs(tr + [y], ops, got + [p], footer)
  {}

  /** The release of a block that makes top larger than the trim threshold, where sys_trim calls sbrk with a
      negative size. */
  ghost predicate Overgrows(x: Moment, op: Op) {
    op.Release? && op.i < |x.blocks| && Trims(x.m, x.blocks[op.i].chunk)
  }

  /** A request that only new memory can serve, and for which mmap does not map the pages: sbrk stops the program. */
  ghost predicate Starves(x: Moment, op: Op) {
    op.Request? && var nb := ChunkFor(op.bytes);
    Grows(x.m, x.w, nb) && Refused(x.m, nb, x.contiguous, op.mapped)
  }

  /** A request that only new memory can serve, and for which the break passes 2^32: nothing is mapped and nothing
      stops. */
  ghost predicate Overruns(x: Moment, op: Op) {
    op.Request? && var nb := ChunkFor(op.bytes);
    Grows(x.m, x.w, nb) && Wraps(x.m, nb, x.contiguous)
  }

  /** No operation before the n-th has ended the run. */
  ghost predicate Continues(tr: seq<Moment>, ops: seq<Op>, n: nat)
    requires n < |tr| && n <= |ops|
  {
    forall i :: 0 <= i < n ==>
      !Starves(tr[i], ops[i]) && !Overruns(tr[i], ops[i]) && (i + 1 < n ==> !Overgrows(tr[i], ops[i]))
  }

  method ServeRequest(s: MallocState, bytes: nat, mapped: bool, ghost blocks: seq<Block>)
    returns (p: Addr, halted: bool, wrapped: bool)
    requires s.Valid() && Outstanding(s.view.seg, s.heads, blocks) && bytes < WORD
    modifies s
    ensures var x := old(Moment(s.Now(), s.view, blocks, s.contiguous)); var op := Request(bytes, mapped);
      var y := Moment(s.Now(), s.view, if p == 0 then blocks else blocks + [Block(p - 8, bytes)], s.contiguous);
      && (halted <==> Starves(x, op)) && (wrapped <==> Overruns(x, op))
      && (!halted && !wrapped ==> s.Valid() && Steps(x, op, p, y) && Good(y, s.footer))
  {
    ghost var g, h := s.view.seg, s.heads;
    p, halted, wrapped := s.Dlmalloc(bytes, mapped);
    if !halted && !wrapped && p != 0 { AfterRequest(g, h, s.view.seg, s.heads, blocks, Block(p - 8, bytes)); }
  }

  method ServeRelease(s: MallocState, blocks: seq<Block>, i: nat) returns (halted: bool)
    requires s.Valid() && Outstanding(s.view.seg, s.heads, blocks) && i < |blocks|
    modifies s
    ensures s.Valid()
    ensures var x := old(Moment(s.Now(), s.view, blocks, s.contiguous));
      var y := Moment(s.Now(), s.view, DropAt(blocks, i), s.contiguous);
      Steps(x, Release(i), 0, y) && Good(y, s.footer) && (halted <==> Overgrows(x, Release(i)))
  {
    ghost var g, h := s.view.seg, s.heads;
    ChunkIn(blocks, blocks[i]);
    AllocatedFacts(s.Now(), s.view, s.footer, blocks[i].chunk);
    halted := s.Dlfree(blocks[i].chunk + 8);
    AfterRelease(g, h, s.view.seg, s.heads, blocks, i);
  }

  /** One operation of a run. */
  method ServeOp(s: MallocState, op: Op, blocks: seq<Block>)
    returns (blocks': seq<Block>, p: Addr, halted: bool, wrapped: bool)
    requires s.Valid() && Outstanding(s.view.seg, s.heads, blocks) && (op.Request? ==> op.bytes < WORD)
    modifies s
    ensures var x := old(Moment(s.Now(), s.view, blocks, s.contiguous));
      var y := Moment(s.Now(), s.view, blocks', s.contiguous);
      && (halted <==> Starves(x, op) || Overgrows(x, op)) && (wrapped <==> Overruns(x, op))
      && (!Starves(x, op) && !wrapped ==> s.Valid() && Steps(x, op, p, y) && Good(y, s.footer))
  {
    blocks', p, halted, wrapped := blocks, 0, false, false;
    match op
    case Request(bytes, mapped) =>
      p, halted, wrapped := ServeRequest(s, bytes, mapped, blocks);
      if p != 0 { blocks' := blocks + [Block(p - 8, bytes)]; }
    case Release(i) =>
      if i < |blocks| {
        halted := ServeRelease(s, blocks, i);
        blocks' := DropAt(blocks, i);
      }
  }

  /** A run of |got| operations so far, none of which has ended it. */
  ghost predicate Ongoing(tr: seq<Moment>, ops: seq<Op>, got: seq<Addr>, footer: nat) {
    Runs(tr, ops, got, footer) && Continues(tr, ops, |got|)
  }

  /** The last of n operations let top outgrow the threshold. */
  ghost predicate Overgrown(tr: seq<Moment>, ops: seq<Op>, n: nat)
    requires n < |tr| && n <= |ops|
  {
    n > 0 && Overgrows(tr[n - 1], ops[n - 1])
  }

  /** Why a run ends after n operations. */
  ghost predicate Ends(tr: seq<Moment>, ops: seq<Op>, n: nat, halted: bool, wrapped: bool)
    requires n < |tr| && n <= |ops|
  {
    var more := n < |ops| && !Overgrown(tr, ops, n);
    && (halted <==> Overgrown(tr, ops, n) || (more && Starves(tr[n], ops[n])))
    && (wrapped <==> more && Overruns(tr[n], ops[n]))
    && (!halted && !wrapped ==> n == |ops|)
  }

  lemma GoOn(tr: seq<Moment>, ops: seq<Op>, got: seq<Addr>, footer: nat, p: Addr, y: Moment)
    requires Ongoing(tr, ops, got, footer) && |got| < |ops| && !Overgrown(tr, ops, |got|)
    requires !Starves(tr[|got|], ops[|got|]) && !Overruns(tr[|got|], ops[|got|])
    requires Steps(tr[|got|], ops[|got|], p, y) && Good(y, footer)
    ensures Ongoing(tr + [y], ops, got + [p], footer)
    ensures Overgrown(tr + [y], ops, |got| + 1) <==> Overgrows(tr[|got|], ops[|got|])
  {
    RunOn(tr, ops, got, footer, p, y);
  }

  /** The next operation of a run. */
  method ServeNext(s: MallocState, ops: seq<Op>, blocks: seq<Block>, got: seq<Addr>, ghost tr: seq<Moment>)
    returns (blocks': seq<Block>, p: Addr, halted: bool, wrapped: bool)
    requires s.Valid() && Ongoing(tr, ops, got, s.footer) && |got| < |ops| && !Overgrown(tr, ops, |got|)
    requires tr[|got|] == Moment(s.Now(), s.view, blocks, s.contiguous)
    requires ops[|got|].Request? ==> ops[|got|].bytes < WORD
    modifies s
    ensures if wrapped || (halted && ops[|got|].Request?) then Ends(tr, ops, |got|, halted, wrapped)
      else var tr' := tr + [Moment(s.Now(), s.view, blocks', s.contiguous)];
        && s.Valid() && Ongoing(tr', ops, got + [p], s.footer) && (halted <==> Overgrown(tr', ops, |got| + 1))
  {
    assert Good(tr[|got|], s.footer);
    blocks', p, halted, wrapped := ServeOp(s, ops[|got|], blocks);
    if !wrapped && !(halted && ops[|got|].Request?) {
      GoOn(tr, ops, got, s.footer, p, Moment(s.Now(), s.view, blocks', s.contiguous));
    }
  }

  /** Any sequence of requests and releases from a fresh allocator: every moment is good and every operation takes
      its step. The run stops exactly where a request starves or after a release lets top outgrow the threshold, and
      this model of it ends exactly where the break wraps; otherwise it covers all operations. */
  method Serve(s: MallocState, ops: seq<Op>)
    returns (got: seq<Addr>, halted: bool, wrapped: bool, ghost tr: seq<Moment>)
    requires s.Unused() && forall i :: 0 <= i < |ops| && ops[i].Request? ==> ops[i].bytes < WORD
    modifies s
    ensures Ongoing(tr, ops, got, s.footer) && tr[0] == old(Moment(s.Now(), s.view, [], s.contiguous))
    ensures Ends(tr, ops, |got|, halted, wrapped)
  {
    var blocks := [];
    got, halted, wrapped := [], false, false;
    assert InUse(s.view.seg, s.heads) == {} == ChunksOf(blocks);
    tr := [Moment(s.Now(), s.view, [], s.contiguous)];
    while |got| < |ops| && !halted
      invariant s.Valid() && !wrapped && Ongoing(tr, ops, got, s.footer)
      invariant tr[0] == old(Moment(s.Now(), s.view, [], s.contiguous))
      invariant tr[|got|] == Moment(s.Now(), s.view, blocks, s.contiguous) && (halted <==> Overgrown(tr, ops, |got|))
      decreases |ops| - |got|
    {
      var p;
      blocks, p, halted, wrapped := ServeNext(s, ops, blocks, got, tr);
      if wrapped || (halted && ops[|got|].Request?) { return; }
      tr, got := tr + [Moment(s.Now(), s.view, blocks, s.contiguous)], got + [p];
    }
  }

  // ---- a run that stops -----------------------------------------------------------------------------------

  /** With one chunk in use, top comes right after it. */
  lemma OnlyChunk(m: Mem, w: View, footer: nat, p: Addr)
    requires Sound(m, w, footer, {}) && InUse(w.seg, m.heads) == {p}
    ensures p + Sz(m.heads, p) == m.top && FreeStart(m, p) <= p
  {
    After(w.seg, m.heads, m.foots, p);
    var n := p + Sz(m.heads, p);
    assert n !in InUse(w.seg, m.heads);
    if n in FreeChunks(w.seg, m.heads) { AfterFree(w.seg, m.heads, m.foots, n); }
    if !m.heads[p].pinuse { Before(w.seg, m.heads, m.foots, p); }
  }

  /** On a fresh allocator, asking for 2 MB and giving them back stops the program. */
  method TwoMegabytesStop() returns (halted: bool)
    ensures halted
  {
    var s := new MallocState(0x4000_0000, 0);
    ghost var g, h := s.view.seg, s.heads;
    var mem, wrapped;
    mem, halted, wrapped := s.Dlmalloc(0x20_0000, true);
    assert ChunkFor(0x20_0000) == 0x20_0008;
    assert InUse(g, h) == {};
    assert InUse(s.view.seg, s.heads) == {mem - 8};
    OnlyChunk(s.Now(), s.view, s.footer, mem - 8);
    halted := s.Dlfree(mem);
  }

  /** Before the only chunk in use, free chunks are smaller than its address. */
  lemma FreeBelow(m: Mem, w: View, footer: nat, p: Addr)
    requires Sound(m, w, footer, {}) && InUse(w.seg, m.heads) == {p}
    ensures forall a :: a in FreeChunks(w.seg, m.heads) ==> Sz(m.heads, a) < p
  {
    forall a | a in FreeChunks(w.seg, m.heads) ensures Sz(m.heads, a) < p {
      AfterFree(w.seg, m.heads, m.foots, a);
      FreeFacts(m, w, footer, {}, a);
    }
  }

  /** Two requests on a fresh allocator: the second asks sbrk for pages past the end of the address space, none is
      mapped, and it is given the address of top. */
  method BreakWraps() returns (mem: Addr, wrapped: bool)
    ensures wrapped && mem == 0x9000_0010
  {
    var s := new MallocState(0x4000_0000, 0);
    ghost var g, h := s.view.seg, s.heads;
    assert ChunkFor(0x5000_0000) == 0x5000_0008 && ChunkFor(0x7000_0000) == 0x7000_0008;
    var halted;
    mem, halted, wrapped := s.Dlmalloc(0x5000_0000, true);
    assert InUse(g, h) == {};
    assert InUse(s.view.seg, s.heads) == {mem - 8};
    FreeBelow(s.Now(), s.view, s.footer, mem - 8);
    mem, halted, wrapped := s.Dlmalloc(0x7000_0000, true);
  }
}
