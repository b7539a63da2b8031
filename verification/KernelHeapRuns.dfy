/** Whole runs of allocations and releases on the kernel heap. */
module KernelHeapRuns {
  import opened Basics
  import opened Bits
  import opened Alignment
  import opened KernelHeap
  import opened HeapBlocks

  /** An allocation, with the frames that are free when it is made, or the release of the k-th block held. */
  datatype Op = Take(bytes: nat, align: Alignment, frames: nat) | Give(k: nat)

  /** A block handed out, and what it was asked for. */
  datatype Grant = Grant(block: Block, bytes: nat, align: Alignment)

  /** What is allocated for a request: the sum with the canary is a word. */
  function Need(bytes: nat): nat { (bytes + CANARY) % WORD }

  ghost function BlocksOf(held: seq<Grant>): set<Block> { set g | g in held :: g.block }

  /** The block has the room that was allocated and at most a header more, and its data is aligned if the alignment is a
      power of two. */
  ghost predicate Kept(g: Grant) {
    && HDR + Need(g.bytes) <= g.block.size <= 2 * HDR + Need(g.bytes)
    && (IsPow2(g.align) ==> (g.block.addr + HDR) % g.align == 0)
  }

  /** The blocks in use are exactly those handed out and not given back, each at an address of its own. */
  ghost predicate Outstanding(bs: seq<Block>, held: seq<Grant>) {
    && (forall i, j :: 0 <= i < j < |held| ==> held[i].block.addr != held[j].block.addr)
    && (forall g :: g in held ==> Kept(g)) && Used(bs) == BlocksOf(held)
  }

  /** A moment of a run: the heap and the blocks held. */
  datatype Moment = Moment(s: State, held: seq<Grant>)

  /** The heap is a tiling without free neighbours, and its blocks in use are the grants. */
  ghost predicate Good(x: Moment, head: nat) { StateOk(x.s, head) && Outstanding(x.s.bs, x.held) }

  /** No two grants overlap, and each lies inside the heap. */
  lemma GrantsApart(x: Moment, head: nat, i: nat, j: nat)
    requires Good(x, head) && i < |x.held| && j < |x.held| && i != j
    ensures var b, c := x.held[i].block, x.held[j].block;
      && (b.addr + b.size <= c.addr || c.addr + c.size <= b.addr)
      && head <= b.addr && b.addr + b.size <= x.s.base + x.s.size
  {
    var y := x.s.base + x.s.size;
    var k := Place(x, i);
    var l := Place(x, j);
    if k < l { Apart(x.s.bs, k, l, head, y); } else { Apart(x.s.bs, l, k, head, y); }
    TilesCut(x.s.bs, k, head, y);
  }

  /** Where the block of a grant is in the list. */
  lemma Place(x: Moment, i: nat) returns (k: nat)
    requires Outstanding(x.s.bs, x.held) && i < |x.held|
    ensures k < |x.s.bs| && x.s.bs[k] == x.held[i].block && x.s.bs[k].used
  {
    assert x.held[i] in x.held && x.held[i].block in Used(x.s.bs);
    k :| 0 <= k < |x.s.bs| && x.s.bs[k] == x.held[i].block;
  }

  /** A grant has room for its bytes and the canary if and only if their sum is a word: a request of the last eight
      sizes wraps to a small one. */
  lemma GrantRoom(x: Moment, head: nat, i: nat)
    requires Good(x, head) && i < |x.held|
    ensures x.held[i].block.size >= HDR + x.held[i].bytes + CANARY <==> x.held[i].bytes + CANARY < WORD
  {
    var k := Place(x, i);
    NextAddr(x.s.bs, k, head, x.s.base + x.s.size);
    if k + 1 < |x.s.bs| { TilesCut(x.s.bs, k + 1, head, x.s.base + x.s.size); }
    assert x.held[i] in x.held;
  }

  /** The cut piece starts where no other block in use does. */
  lemma FreshPiece(from: seq<Block>, i: nat, n: nat, a: Alignment, x: nat, y: nat, b: Block)
    requires i < |from| && Taken(from[i], n, a) && Tiles(AllocAt(from, i, n, a), x, y) && b in Used(from)
    ensures b.addr != Piece(from[i], n, a).addr
  {
    var bs, c := AllocAt(from, i, n, a), Carve(from[i], n, a);
    var j :| 0 <= j < |from| && from[j] == b;
    var at := i + Result(from[i], a);
    assert bs[at] == c[Result(from[i], a)];
    if j < i {
      assert bs[j] == b;
      Apart(bs, j, at, x, y);
    } else {
      assert bs[j - 1 + |c|] == b;
      Apart(bs, at, j - 1 + |c|, x, y);
    }
  }

  lemma AfterTake(bs: seq<Block>, held: seq<Grant>, bs': seq<Block>, g: Grant)
    requires Outstanding(bs, held) && Used(bs') == Used(bs) + {g.block} && Kept(g)
    requires forall b :: b in Used(bs) ==> b.addr != g.block.addr
    ensures Outstanding(bs', held + [g])
  {
    var all := held + [g];
    forall i | 0 <= i < |held| ensures held[i].block.addr != g.block.addr { assert held[i] in held; }
    assert g in all;
    forall b | b in BlocksOf(held) ensures b in BlocksOf(all) {
      var h :| h in held && h.block == b;
      assert h in all;
    }
  }

  lemma AfterGive(bs: seq<Block>, held: seq<Grant>, bs': seq<Block>, k: nat)
    requires Outstanding(bs, held) && k < |held| && Used(bs') == Used(bs) - {held[k].block}
    ensures Outstanding(bs', DropAt(held, k))
  {
    var rest := DropAt(held, k);
    forall b | b in BlocksOf(held) && b != held[k].block ensures b in BlocksOf(rest) {
      var i :| 0 <= i < |held| && held[i].block == b;
      assert rest[if i < k then i else i - 1] == held[i];
    }
    forall b | b in BlocksOf(rest) ensures b in BlocksOf(held) && b != held[k].block {
      var i :| 0 <= i < |rest| && rest[i].block == b;
      assert held[if i < k then i else i + 1] == rest[i];
    }
  }

  // ---- what one operation does --------------------------------------------------------------------------------

  /** The heap after it has grown for the request, and the frames left. */
  ghost function Settled(x: Moment, op: Op): (State, nat)
    requires op.Take? && PageAligned(x.s)
  {
    Settle(x.s, op.frames, Need(op.bytes), op.align)
  }

  /** The block that the request finds in the grown heap: its index, or the length of the list. */
  ghost function Found(x: Moment, op: Op): nat
    requires op.Take? && PageAligned(x.s)
  {
    FirstTaken(Settled(x, op).0.bs, Need(op.bytes), op.align, 0)
  }

  /** The operation cuts a block that the search accepts although the aligned data does not fit it. */
  ghost predicate Stops(x: Moment, op: Op) {
    && op.Take? && PageAligned(x.s)
    && var bs, i := Settled(x, op).0.bs, Found(x, op); i < |bs| && !Fits(bs[i], Need(op.bytes), op.align)
  }

  /** An allocation: refused, with no block that would do and no way to grow; or the first block that would do is
      cut. */
  ghost predicate Takes(x: Moment, op: Op, r: nat, y: Moment)
    requires op.Take? && PageAligned(x.s)
  {
    var (t, left) := Settled(x, op);
    var n, i := Need(op.bytes), Found(x, op);
    if i == |t.bs| then r == 0 && y == Moment(t, x.held) && Refused(t, left, n)
    else
      && Fits(t.bs[i], n, op.align) && r == Piece(t.bs[i], n, op.align).addr
      && y.s == t.(bs := AllocAt(t.bs, i, n, op.align))
      && y.held == x.held + [Grant(Piece(t.bs[i], n, op.align), op.bytes, op.align)]
  }

  /** A release: the block of the k-th grant is freed and merged. */
  ghost predicate Gives(x: Moment, k: nat, y: Moment)
    requires k < |x.held|
  {
    && y.held == DropAt(x.held, k)
    && exists i :: 0 <= i < |x.s.bs| && x.s.bs[i] == x.held[k].block && y.s == x.s.(bs := FreeAt(x.s.bs, i))
  }

  ghost predicate Steps(x: Moment, op: Op, r: nat, y: Moment) {
    match op
    case Take(_, _, _) => PageAligned(x.s) && Takes(x, op, r, y)
    case Give(k) => if k < |x.held| then Gives(x, k, y) else y == x
  }

  /** An allocation that does not stop leads to a good moment again. */
  lemma TakeGood(x: Moment, op: Op, r: nat, y: Moment, head: nat)
    requires Good(x, head) && op.Take? && Takes(x, op, r, y)
    ensures Good(y, head)
  {
    var (t, left) := Settled(x, op);
    var n, a := Need(op.bytes), op.align;
    SettleOk(x.s, op.frames, n, a, head);
    var i := Found(x, op);
    if i < |t.bs| { CutGood(t, i, op.bytes, a, x.held, head); }
  }

  lemma CutGood(t: State, i: nat, bytes: nat, a: Alignment, held: seq<Grant>, head: nat)
    requires StateOk(t, head) && Outstanding(t.bs, held) && i < |t.bs|
    requires Taken(t.bs[i], Need(bytes), a) && Fits(t.bs[i], Need(bytes), a)
    ensures var n := Need(bytes); var p, s := Piece(t.bs[i], n, a), t.(bs := AllocAt(t.bs, i, n, a));
      Good(Moment(s, held + [Grant(p, bytes, a)]), head)
  {
    var n, end := Need(bytes), t.base + t.size;
    AllocOk(t.bs, i, n, a, head, end);
    AllocUsed(t.bs, i, n, a);
    var g := Grant(Piece(t.bs[i], n, a), bytes, a);
    forall b | b in Used(t.bs) ensures b.addr != g.block.addr { FreshPiece(t.bs, i, n, a, head, end, b); }
    AfterTake(t.bs, held, AllocAt(t.bs, i, n, a), g);
  }

  lemma GiveGood(x: Moment, k: nat, i: nat, head: nat)
    requires Good(x, head) && k < |x.held| && i < |x.s.bs| && x.s.bs[i] == x.held[k].block
    ensures x.s.bs[i].used && Good(Moment(x.s.(bs := FreeAt(x.s.bs, i)), DropAt(x.held, k)), head)
  {
    assert x.held[k] in x.held && x.held[k].block in Used(x.s.bs);
    FreeOk(x.s.bs, i, head, x.s.base + x.s.size);
    FreeUsed(x.s.bs, i, head, x.s.base + x.s.size);
    AfterGive(x.s.bs, x.held, FreeAt(x.s.bs, i), k);
  }

  // ---- runs ---------------------------------------------------------------------------------------------------

  /** The moments of a run: each is good, and each operation takes one to the next. */
  ghost predicate Runs(tr: seq<Moment>, ops: seq<Op>, rs: seq<nat>, head: nat) {
    && |tr| == |rs| + 1 && |rs| <= |ops| && (forall i :: 0 <= i < |tr| ==> Good(tr[i], head))
    && forall i, j :: 0 <= i < j < |tr| && j == i + 1 ==> Steps(tr[i], ops[i], rs[i], tr[j])
  }

  lemma RunOn(tr: seq<Moment>, ops: seq<Op>, rs: seq<nat>, head: nat, r: nat, y: Moment)
    requires Runs(tr, ops, rs, head) && |rs| < |ops| && Steps(tr[|rs|], ops[|rs|], r, y) && Good(y, head)
    ensures Runs(tr + [y], ops, rs + [r], head)
  {}

  method ServeTake(heap: Heap, op: Op, ghost x: Moment) returns (r: nat, right: bool, ghost y: Moment)
    requires heap.Valid() && op.Take? && Good(x, heap.head) && x.s == heap.Now()
    modifies heap
    ensures heap.head == old(heap.head)
    ensures
      if right then heap.Valid() && Steps(x, op, r, y) && Good(y, heap.head) && y.s == heap.Now() else Stops(x, op)
    ensures right ==> |y.held| == if r == 0 then |x.held| else |x.held| + 1
    ensures right && r != 0 ==> y.held[..|x.held|] == x.held && y.held[|x.held|].block.addr == r
  {
    SettleOk(x.s, op.frames, Need(op.bytes), op.align, heap.head);
    var left;
    r, right, left := heap.AllocAligned(op.bytes, op.align, op.frames);
    y := x;
    if right {
      ghost var t, n, i := Settled(x, op).0, Need(op.bytes), Found(x, op);
      y := Moment(heap.Now(), if i == |t.bs| then x.held
                              else x.held + [Grant(Piece(t.bs[i], n, op.align), op.bytes, op.align)]);
      TakeGood(x, op, r, y, heap.head);
    }
  }

  method ServeGive(heap: Heap, p: nat, ghost x: Moment, ghost k: nat) returns (ghost y: Moment)
    requires heap.Valid() && Good(x, heap.head) && x.s == heap.Now() && k < |x.held| && x.held[k].block.addr == p
    modifies heap
    ensures heap.Valid() && heap.head == old(heap.head) && Gives(x, k, y) && Good(y, heap.head) && y.s == heap.Now()
  {
    ghost var i := Place(x, k);
    GiveGood(x, k, i, heap.head);
    y := Moment(x.s.(bs := FreeAt(x.s.bs, i)), DropAt(x.held, k));
    heap.FreeBlock(p, i);
  }

  /** The addresses of the blocks held. */
  ghost predicate Pointers(ptrs: seq<nat>, held: seq<Grant>) {
    |ptrs| == |held| && forall i :: 0 <= i < |ptrs| ==> ptrs[i] == held[i].block.addr
  }

  /** One operation of a program that holds the blocks at ptrs. */
  lemma PointersMore(ptrs: seq<nat>, held: seq<Grant>, r: nat, held': seq<Grant>)
    requires Pointers(ptrs, held) && |held'| == |held| + 1 && held'[..|held|] == held && held'[|held|].block.addr == r
    ensures Pointers(ptrs + [r], held')
  {
    forall i | 0 <= i < |held| ensures held'[i] == held[i] { assert held'[..|held|][i] == held[i]; }
  }

  method ServeOp(heap: Heap, op: Op, ptrs: seq<nat>, ghost x: Moment)
    returns (r: nat, right: bool, ptrs': seq<nat>, ghost y: Moment)
    requires heap.Valid() && Good(x, heap.head) && x.s == heap.Now() && Pointers(ptrs, x.held)
    modifies heap
    ensures heap.head == old(heap.head)
    ensures
      if right then heap.Valid() && Steps(x, op, r, y) && Good(y, heap.head) && y.s == heap.Now() else Stops(x, op)
    ensures right ==> Pointers(ptrs', y.held)
  {
    r, right, ptrs', y := 0, true, ptrs, x;
    match op
    case Take(_, _, _) =>
      r, right, y := ServeTake(heap, op, x);
      if right && r != 0 {
        ptrs' := ptrs + [r];
        PointersMore(ptrs, x.held, r, y.held);
      }
    case Give(k) =>
      if k < |ptrs| {
        y := ServeGive(heap, ptrs[k], x, k);
        ptrs' := DropAt(ptrs, k);
      }
  }

  /** Any sequence of allocations and releases on a heap with no block in use: at every moment the heap is a tiling
      without free neighbours and in use are exactly the grants, and every operation takes its step. The run covers
      all operations unless one cuts a block that its data does not fit. */
  method Serve(heap: Heap, ops: seq<Op>) returns (rs: seq<nat>, right: bool, ghost tr: seq<Moment>)
    requires heap.Valid() && Used(heap.bs) == {}
    modifies heap
    ensures Runs(tr, ops, rs, heap.head) && tr[0] == old(Moment(heap.Now(), []))
    ensures if right then |rs| == |ops| && heap.Valid() && tr[|rs|].s == heap.Now()
      else |rs| < |ops| && Stops(tr[|rs|], ops[|rs|])
  {
    rs, tr, right := [], [Moment(heap.Now(), [])], true;
    var ptrs: seq<nat> := [];
    while |rs| < |ops|
      invariant right && heap.Valid() && Runs(tr, ops, rs, heap.head) && tr[0] == old(Moment(heap.Now(), []))
      invariant tr[|rs|].s == heap.Now() && Pointers(ptrs, tr[|rs|].held)
    {
      var r;
      ghost var y;
      assert Good(tr[|rs|], heap.head);
      r, right, ptrs, y := ServeOp(heap, ops[|rs|], ptrs, tr[|rs|]);
      if !right { return; }
      RunOn(tr, ops, rs, heap.head, r, y);
      tr, rs := tr + [y], rs + [r];
    }
  }

  // ---- a run that stops ---------------------------------------------------------------------------------------

  lemma AlignEight(x: nat)
    requires x + 7 < WORD
    ensures Align(x, 8) == x + 7 - (x + 7) % 8
  {
    assert Pow2(3) == 8 by { Pow2Small(); }
    AlignSplit(x, 8);
    SmallRest(x + 7, WORD);
    MaskIsMod(x + 7, 3);
  }

  /** A fresh heap of one page, as heap_init leaves it. */
  function Fresh(base: nat, max: nat): Moment { Moment(State([Block(base + 16, 4080, false)], base, 4096, max), []) }

  /** That heap after one byte was asked for. */
  function OneByte(base: nat, max: nat): Moment {
    var b := Block(base + 16, 25, true);
    Moment(State([b, Block(base + 41, 4055, false)], base, 4096, max), [Grant(b, 1, 8)])
  }

  lemma FreshGood(base: nat, max: nat)
    requires base % PAGE == 0 && base + 4096 < WORD
    ensures Good(Fresh(base, max), base + 16)
  {
    TilesOne(Block(base + 16, 4080, false), base + 16, base + 4096);
  }

  lemma FirstFits(base: nat)
    requires base % PAGE == 0 && base + 4096 < WORD
    ensures var b := Block(base + 16, 4080, false);
      && Taken(b, 9, 8) && Fits(b, 9, 8) && Piece(b, 9, 8) == Block(base + 16, 25, true)
      && Carve(b, 9, 8) == [Block(base + 16, 25, true), Block(base + 41, 4055, false)]
  {
    StartsInPlace(base);
  }

  lemma StartsInPlace(base: nat)
    requires base % PAGE == 0 && base + 4096 < WORD
    ensures InPlace(Block(base + 16, 4080, false), 8)
  {
    AlignEight(base + 32);
  }

  lemma FreshTakes(base: nat, max: nat, frames: nat)
    requires base % PAGE == 0 && base + 4096 < WORD
    ensures Steps(Fresh(base, max), Take(1, 8, frames), base + 16, OneByte(base, max))
  {
    var x := Fresh(base, max);
    FirstFits(base);
    assert FirstTaken(x.s.bs, 9, 8, 0) == 0;
    assert AllocAt(x.s.bs, 0, 9, 8) == OneByte(base, max).s.bs;
  }

  lemma SecondMisfits(base: nat)
    requires base % PAGE == 0 && base + 4096 < WORD
    ensures var b := Block(base + 41, 4055, false); Taken(b, 4020, 8) && !Fits(b, 4020, 8)
  {
    var b := Block(base + 41, 4055, false);
    AlignEight(base + 57);
    assert AlignedOff(b.addr, 8) == 23;
    assert Bump(23, 8) == Bump(31, 8) == Bump(39, 8) == 39;
  }

  /** On every heap of one page two requests for 8-aligned blocks suffice: one byte, then 4012. The second takes a
      block of 4055 bytes, whose data would start 39 bytes in and end, with the canary, 4 bytes behind it. */
  lemma MisfitReached(base: nat, max: nat, frames: nat, frames': nat)
    requires base % PAGE == 0 && base + 4096 < WORD
    ensures var ops := [Take(1, 8, frames), Take(4012, 8, frames')]; var tr := [Fresh(base, max), OneByte(base, max)];
      Runs(tr, ops, [base + 16], base + 16) && Stops(tr[1], ops[1])
  {
    FreshGood(base, max);
    FreshTakes(base, max, frames);
    var y := OneByte(base, max);
    TakeGood(Fresh(base, max), Take(1, 8, frames), base + 16, y, base + 16);
    SecondMisfits(base);
    assert FirstTaken(y.s.bs, 4020, 8, 0) == FirstTaken(y.s.bs, 4020, 8, 1) == 1;
  }
}
