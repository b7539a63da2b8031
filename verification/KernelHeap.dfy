/** The kernel heap: first fit with splitting, coalescing free, growth by pages. */
module KernelHeap {
  import opened Bits
  import opened Alignment

  const HDR := 16
  const CANARY := 8
  const PAGE := 4096

  /** A block: its header's address, its size with the header, and whether it is allocated. */
  datatype Block = Block(addr: nat, size: nat, used: bool)

  /** How far behind the header the first aligned address after it is: a pointer difference on words. */
  function AlignedOff(addr: nat, a: Alignment): nat { (Align((addr + HDR) % WORD, a) - addr) % WORD }

  /** The first of off, off + a, ... that leaves room for two headers. */
  function Bump(off: nat, a: Alignment): (r: nat)
    requires off < WORD
    ensures 2 * HDR <= r < WORD
    decreases if off >= 2 * HDR then 0 else if a > WORD - 2 * HDR then 1 + off else 1 + 2 * HDR - off
  {
    if off >= 2 * HDR then off else Bump((off + a) % WORD, a)
  }

  /** t times a. */
  function Steps(t: nat, a: nat): nat { if t == 0 then 0 else a + Steps(t - 1, a) }

  lemma {:induction false} BumpSteps(off: nat, a: Alignment) returns (t: nat)
    requires off < WORD && a <= WORD - 2 * HDR
    ensures Bump(off, a) == off + Steps(t, a)
    decreases if off >= 2 * HDR then 0 else 1 + 2 * HDR - off
  {
    t := 0;
    if off < 2 * HDR {
      SmallRest(off + a, WORD);
      t := BumpSteps(off + a, a);
      t := t + 1;
    }
  }

  lemma AddMultiple(x: nat, a: nat)
    requires a > 0 && x % a == 0
    ensures (x + a) % a == 0
  {
    assert x == a * (x / a);
    assert a * (x / a + 1) == a * (x / a) + a;
    ModUnique(x + a, a, x / a + 1, 0);
  }

  lemma {:induction false} AddSteps(x: nat, t: nat, a: nat)
    requires a > 0 && x % a == 0
    ensures (x + Steps(t, a)) % a == 0
    decreases t
  {
    if t > 0 {
      AddMultiple(x, a);
      AddSteps(x + a, t - 1, a);
      assert x + Steps(t, a) == x + a + Steps(t - 1, a);
    }
  }

  /** Can the data of the block stay right behind its header? */
  predicate InPlace(b: Block, a: Alignment) { Align((b.addr + HDR) % WORD, a) == (b.addr + HDR) % WORD }

  /** How far behind the block's header the data of the allocated part starts. */
  function DataOff(b: Block, a: Alignment): (r: nat)
    ensures HDR <= r < WORD && (!InPlace(b, a) ==> r >= 2 * HDR)
  {
    if InPlace(b, a) then HDR else Bump(AlignedOff(b.addr, a), a)
  }

  lemma Pow2Half(a: Alignment)
    requires IsPow2(a)
    ensures a <= 0x8000_0000
  {
    var k: nat :| a == Pow2(k);
    Pow2Small();
    if k >= 32 { Pow2Monotone(32, k); } else { Pow2Monotone(k, 31); }
  }

  /** From an aligned x the bumps lead to aligned addresses only. */
  lemma BumpedAligned(addr: nat, x: nat, a: Alignment)
    requires addr < WORD && x < WORD && x % a == 0 && a <= WORD - 2 * HDR
    ensures var r := Bump((x - addr) % WORD, a); addr + r < WORD ==> (addr + r) % a == 0
  {
    var off := (x - addr) % WORD;
    WordMinus(x, addr);
    var t := BumpSteps(off, a);
    if addr + Bump(off, a) < WORD { AddSteps(x, t, a); }
  }

  /** Data that does not run past the address space is aligned, if the alignment is a power of two. */
  lemma DataAligned(b: Block, a: Alignment)
    requires IsPow2(a) && b.addr + HDR < WORD && b.addr + DataOff(b, a) < WORD
    ensures (b.addr + DataOff(b, a)) % a == 0
  {
    var x := b.addr + HDR;
    SmallRest(x, WORD);
    AlignPow2(x, a);
    AlignBelow(x, a);
    Pow2Half(a);
    BumpedAligned(b.addr, Align(x, a), a);
  }

  /** The bumps stop at the first offset that leaves room for two headers. */
  lemma {:induction false} BumpLeast(off: nat, a: Alignment)
    requires off < WORD && a <= WORD - 2 * HDR
    ensures Bump(off, a) == off || Bump(off, a) < 2 * HDR + a
    decreases if off >= 2 * HDR then 0 else 1 + 2 * HDR - off
  {
    if off < 2 * HDR {
      SmallRest(off + a, WORD);
      BumpLeast(off + a, a);
    }
  }

  /** And it is the first aligned address behind the block's header, or behind two of them where it cannot be there. */
  lemma DataFirst(b: Block, a: Alignment, r: nat)
    requires IsPow2(a) && b.addr + HDR + a <= WORD && b.addr + DataOff(b, a) < WORD && r < DataOff(b, a)
    requires r >= if (b.addr + HDR) % a == 0 then HDR else 2 * HDR
    ensures (b.addr + r) % a != 0
  {
    var x := b.addr + HDR;
    SmallRest(x, WORD);
    AlignLeast(x, a, b.addr + r);
    AlignLeast(x, a, x);
    Pow2Half(a);
    DataAligned(b, a);
    if !InPlace(b, a) {
      var off := AlignedOff(b.addr, a);
      AlignBelow(x, a);
      WordMinus(Align(x, a), b.addr);
      BumpLeast(off, a);
      if DataOff(b, a) != off { NoMultiple(b.addr + DataOff(b, a), a, b.addr + r); }
    }
  }

  /** With alignment 12 the mask takes a block whose data is not aligned: 0x1010 is 8 more than a multiple of 12. */
  lemma TwelveMisaligned()
    ensures var b := Block(0x1000, 4096, false);
      Taken(b, 40, 12) && Fits(b, 40, 12) && b.addr + DataOff(b, 12) == 0x1010 && 0x1010 % 12 == 8
  {
    AlignSplit(0x1010, 12);
    AndByHalves(0x101B, 11);
    AndByHalves(0x80D, 5);
    AndByHalves(0x406, 2);
    AndByHalves(0x203, 1);
    assert And(0x101, 0) == 0;
  }

  lemma AndByHalves(x: nat, y: nat)
    requires x > 0 && y > 0
    ensures And(x, y) == 2 * And(x / 2, y / 2) + (if x % 2 == 1 && y % 2 == 1 then 1 else 0)
  {}

  /** The tests by which heap_alloc_block_aligned takes a block, for n bytes with the canary. */
  predicate Taken(b: Block, n: nat, a: Alignment) {
    !b.used && b.size >= HDR && b.size - HDR >= n && (InPlace(b, a) || b.size > 2 * HDR + n)
  }

  /** What a taken block becomes when its data can stay in place. */
  function CarveFront(b: Block, n: nat): seq<Block>
    requires b.size >= HDR + n
  {
    if b.size - HDR - n > HDR then [Block(b.addr, HDR + n, true), Block(b.addr + HDR + n, b.size - HDR - n, false)]
    else [b.(used := true)]
  }

  /** What a taken block becomes when its data must start off bytes behind its header; addresses and sizes are words. */
  function CarveAt(b: Block, n: nat, off: nat): seq<Block>
    requires off >= 2 * HDR
  {
    var header1, s1 := (b.addr + off - HDR) % WORD, off - HDR;
    var s2: nat := (b.size - s1) % WORD;
    if s2 > n + 2 * HDR
    then [Block(b.addr, s1, false), Block(header1, HDR + n, true),
      Block((header1 + HDR + n) % WORD, s2 - n - HDR, false)]
    else [Block(b.addr, s1, false), Block(header1, s2, true)]
  }

  function Carve(b: Block, n: nat, a: Alignment): seq<Block>
    requires Taken(b, n, a)
  {
    if InPlace(b, a) then CarveFront(b, n) else CarveAt(b, n, DataOff(b, a))
  }

  /** The index in Carve of the allocated block. */
  function Result(b: Block, a: Alignment): nat { if InPlace(b, a) then 0 else 1 }

  /** The allocated piece. */
  function Piece(b: Block, n: nat, a: Alignment): Block
    requires Taken(b, n, a)
  {
    Carve(b, n, a)[Result(b, a)]
  }

  /** The aligned data, with its canary, ends inside the block. */
  predicate Fits(b: Block, n: nat, a: Alignment) { DataOff(b, a) + n <= b.size }

  /** Blocks one after another from x to y. */
  predicate Tiles(bs: seq<Block>, x: nat, y: nat)
    decreases |bs|
  {
    if |bs| == 0 then x == y else bs[0].addr == x && bs[0].size >= HDR && Tiles(bs[1..], x + bs[0].size, y)
  }

  lemma TilesOne(p: Block, x: nat, y: nat)
    ensures Tiles([p], x, y) <==> p.addr == x && p.size >= HDR && x + p.size == y
  {
    assert [p][1..] == [];
  }

  lemma TilesTwo(p: Block, q: Block, x: nat, y: nat)
    ensures Tiles([p, q], x, y) <==>
      p.addr == x && p.size >= HDR && q.addr == x + p.size && q.size >= HDR && x + p.size + q.size == y
  {
    assert [p, q][1..] == [q];
    TilesOne(q, x + p.size, y);
  }

  lemma TilesThree(p: Block, q: Block, r: Block, x: nat, y: nat)
    ensures Tiles([p, q, r], x, y) <==>
      (&& p.addr == x && p.size >= HDR && q.addr == x + p.size && q.size >= HDR
       && r.addr == x + p.size + q.size && r.size >= HDR && x + p.size + q.size + r.size == y)
  {
    assert [p, q, r][1..] == [q, r];
    TilesTwo(q, r, x + p.size, y);
  }

  lemma WordMinus(x: nat, y: nat)
    requires x < WORD && y < WORD
    ensures (x - y) % WORD == if x >= y then x - y else x - y + WORD
  {}

  lemma CarveAtRight(b: Block, n: nat, off: nat)
    requires 2 * HDR <= off < WORD && b.addr + b.size < WORD
    ensures var c := CarveAt(b, n, off);
      (Tiles(c, b.addr, b.addr + b.size) && c[1].size >= HDR + n) <==> off + n <= b.size
  {
    var c, y := CarveAt(b, n, off), b.addr + b.size;
    WordMinus(b.size, off - HDR);
    if |c| == 3 { TilesThree(c[0], c[1], c[2], b.addr, y); } else { TilesTwo(c[0], c[1], b.addr, y); }
  }

  /** Carving is right exactly when the aligned data fits: then the pieces tile the block and the allocated one is large
      enough. On the misaligned path the guard of the code does not imply it. */
  lemma CarveRight(b: Block, n: nat, a: Alignment)
    requires Taken(b, n, a) && b.addr + b.size < WORD
    ensures (Tiles(Carve(b, n, a), b.addr, b.addr + b.size) && Piece(b, n, a).size >= HDR + n) <==> Fits(b, n, a)
  {
    if InPlace(b, a) {
      var c, y := CarveFront(b, n), b.addr + b.size;
      if |c| == 2 { TilesTwo(c[0], c[1], b.addr, y); } else { TilesOne(c[0], b.addr, y); }
    } else {
      CarveAtRight(b, n, DataOff(b, a));
    }
  }

  /** The search passes over a free block in which the aligned data fits in one case only: where it fits to the byte,
      right behind two headers. */
  lemma TakenIfFits(b: Block, n: nat, a: Alignment)
    requires !b.used && Fits(b, n, a)
    ensures Taken(b, n, a) <==> InPlace(b, a) || b.size != 2 * HDR + n
  {}

  /** The allocated piece starts right before its data, and takes the rest of the block only if that is no more than a
      header longer than needed; otherwise it is exactly as long as needed. */
  lemma PieceIs(b: Block, n: nat, a: Alignment)
    requires Taken(b, n, a) && Fits(b, n, a) && b.addr + b.size < WORD
    ensures var p, front := Piece(b, n, a), DataOff(b, a) - HDR; var rest := b.size - front;
      && p.used && p.addr == b.addr + front && HDR + n <= p.size <= 2 * HDR + n
      && p.size == if rest <= 2 * HDR + n then rest else HDR + n
  {
    if !InPlace(b, a) {
      WordMinus(b.size, DataOff(b, a) - HDR);
      SmallRest(b.addr + DataOff(b, a) - HDR, WORD);
    }
  }

  // ---- the block list --------------------------------------------------------------------------------------

  /** No two free blocks are neighbours. */
  ghost predicate NoTouch(bs: seq<Block>) {
    forall i, j :: 0 <= i < |bs| && 0 <= j < |bs| && j == i + 1 ==> bs[i].used || bs[j].used
  }

  /** The blocks tile the heap and freeing has merged all it could. */
  ghost predicate HeapOk(bs: seq<Block>, x: nat, y: nat) { |bs| > 0 && Tiles(bs, x, y) && NoTouch(bs) }

  /** Blocks lo .. hi - 1 are replaced by c. */
  function Splice(bs: seq<Block>, lo: nat, hi: nat, c: seq<Block>): seq<Block>
    requires lo <= hi <= |bs|
  {
    bs[..lo] + c + bs[hi..]
  }

  lemma {:induction false} TilesCut(bs: seq<Block>, i: nat, x: nat, y: nat)
    requires Tiles(bs, x, y) && i <= |bs|
    ensures var m := if i < |bs| then bs[i].addr else y; x <= m <= y && Tiles(bs[..i], x, m) && Tiles(bs[i..], m, y)
  {
    if i == 0 {
      assert bs[..0] == [] && bs[0..] == bs;
      TilesEnd(bs, x, y);
    } else {
      TilesCut(bs[1..], i - 1, x + bs[0].size, y);
      assert bs[..i][1..] == bs[1..][..i - 1] && bs[i..] == bs[1..][i - 1..];
    }
  }

  lemma {:induction false} TilesEnd(bs: seq<Block>, x: nat, y: nat)
    requires Tiles(bs, x, y)
    ensures x <= y && (|bs| > 0 ==> x < y && bs[0].addr == x)
  {
    if |bs| > 0 { TilesEnd(bs[1..], x + bs[0].size, y); }
  }

  lemma {:induction false} TilesJoin(p: seq<Block>, q: seq<Block>, x: nat, m: nat, y: nat)
    requires Tiles(p, x, m) && Tiles(q, m, y)
    ensures Tiles(p + q, x, y)
  {
    if |p| == 0 {
      assert p + q == q;
    } else {
      TilesJoin(p[1..], q, x + p[0].size, m, y);
      assert (p + q)[1..] == p[1..] + q;
    }
  }

  /** Replacing a stretch by blocks that tile it keeps the tiling. */
  lemma TilesSplice(bs: seq<Block>, lo: nat, hi: nat, c: seq<Block>, x: nat, y: nat)
    requires Tiles(bs, x, y) && lo < hi <= |bs| && Tiles(c, bs[lo].addr, if hi < |bs| then bs[hi].addr else y)
    ensures Tiles(Splice(bs, lo, hi, c), x, y)
  {
    TilesCut(bs, lo, x, y);
    TilesCut(bs, hi, x, y);
    var m := if hi < |bs| then bs[hi].addr else y;
    TilesJoin(bs[..lo], c, x, bs[lo].addr, m);
    TilesJoin(bs[..lo] + c, bs[hi..], x, m, y);
  }

  /** The block after block i starts where block i ends. */
  lemma NextAddr(bs: seq<Block>, i: nat, x: nat, y: nat)
    requires Tiles(bs, x, y) && i < |bs|
    ensures bs[i].size >= HDR && bs[i].addr + bs[i].size == if i + 1 < |bs| then bs[i + 1].addr else y
  {
    TilesCut(bs, i, x, y);
    TilesEnd(bs[i + 1..], bs[i].addr + bs[i].size, y) by { assert bs[i..][1..] == bs[i + 1..]; }
  }

  // ---- allocation -------------------------------------------------------------------------------------------

  lemma SpliceTouch(bs: seq<Block>, lo: nat, hi: nat, c: seq<Block>)
    requires NoTouch(bs) && lo < hi <= |bs| && |c| > 0 && NoTouch(c)
    requires lo > 0 ==> bs[lo - 1].used || c[0].used
    requires hi < |bs| ==> c[|c| - 1].used || bs[hi].used
    ensures NoTouch(Splice(bs, lo, hi, c))
  {
    var r := Splice(bs, lo, hi, c);
    forall i, j | 0 <= i < |r| && 0 <= j < |r| && j == i + 1 ensures r[i].used || r[j].used {
      if j < lo {
        assert r[i] == bs[i] && r[j] == bs[j];
      } else if i >= lo + |c| {
        var d := hi - lo - |c|;
        assert r[i] == bs[i + d] && r[j] == bs[j + d];
      } else {
        if i < lo { assert r[i] == bs[lo - 1] && r[j] == c[0]; }
        else if j >= lo + |c| { assert r[i] == c[|c| - 1] && r[j] == bs[hi]; }
        else { assert r[i] == c[i - lo] && r[j] == c[j - lo]; }
      }
    }
  }

  function AllocAt(bs: seq<Block>, i: nat, n: nat, a: Alignment): seq<Block>
    requires i < |bs| && Taken(bs[i], n, a)
  {
    Splice(bs, i, i + 1, Carve(bs[i], n, a))
  }

  /** Allocation keeps the tiling; the new block has room for the data and the canary, and is aligned if the
      alignment is a power of two. */
  lemma AllocOk(bs: seq<Block>, i: nat, n: nat, a: Alignment, x: nat, y: nat)
    requires HeapOk(bs, x, y) && y < WORD && i < |bs| && Taken(bs[i], n, a) && Fits(bs[i], n, a)
    ensures var r := i + Result(bs[i], a); var bs' := AllocAt(bs, i, n, a);
      && HeapOk(bs', x, y) && r < |bs'| && bs'[r] == Piece(bs[i], n, a) && bs'[r].used
      && HDR + n <= bs'[r].size <= 2 * HDR + n
      && bs'[r].addr + HDR == bs[i].addr + DataOff(bs[i], a) && (IsPow2(a) ==> (bs'[r].addr + HDR) % a == 0)
  {
    var b := bs[i];
    NextAddr(bs, i, x, y);
    TilesCut(bs, i + 1, x, y);
    CarveRight(b, n, a);
    PieceIs(b, n, a);
    var c := Carve(b, n, a);
    TilesSplice(bs, i, i + 1, c, x, y);
    if i > 0 { assert bs[i - 1].used; }
    if i + 1 < |bs| { assert bs[i + 1].used; }
    SpliceTouch(bs, i, i + 1, c);
    if IsPow2(a) { DataAligned(b, a); }
  }

  // ---- freeing ----------------------------------------------------------------------------------------------

  /** The stretch that freeing block i turns into one free block. */
  function LowEnd(bs: seq<Block>, i: nat): nat
    requires i < |bs|
  {
    if i > 0 && !bs[i - 1].used then i - 1 else i
  }

  function HighEnd(bs: seq<Block>, i: nat): nat
    requires i < |bs|
  {
    if i + 1 < |bs| && !bs[i + 1].used then i + 2 else i + 1
  }

  function SizeOf(bs: seq<Block>, lo: nat, hi: nat): nat
    requires lo <= hi <= |bs|
    decreases hi - lo
  {
    if lo == hi then 0 else bs[lo].size + SizeOf(bs, lo + 1, hi)
  }

  function FreeAt(bs: seq<Block>, i: nat): seq<Block>
    requires i < |bs|
  {
    var lo, hi := LowEnd(bs, i), HighEnd(bs, i);
    Splice(bs, lo, hi, [Block(bs[lo].addr, SizeOf(bs, lo, hi), false)])
  }

  lemma {:induction false} SizeSpan(bs: seq<Block>, lo: nat, hi: nat, x: nat, y: nat)
    requires Tiles(bs, x, y) && lo < hi <= |bs|
    ensures bs[lo].addr + SizeOf(bs, lo, hi) == if hi < |bs| then bs[hi].addr else y
    ensures SizeOf(bs, lo, hi) >= HDR
    decreases hi - lo
  {
    NextAddr(bs, lo, x, y);
    if lo + 1 < hi { SizeSpan(bs, lo + 1, hi, x, y); }
  }

  lemma FreeOk(bs: seq<Block>, i: nat, x: nat, y: nat)
    requires HeapOk(bs, x, y) && i < |bs| && bs[i].used
    ensures HeapOk(FreeAt(bs, i), x, y)
  {
    var lo, hi := LowEnd(bs, i), HighEnd(bs, i);
    SizeSpan(bs, lo, hi, x, y);
    var b := Block(bs[lo].addr, SizeOf(bs, lo, hi), false);
    TilesOne(b, bs[lo].addr, if hi < |bs| then bs[hi].addr else y);
    TilesSplice(bs, lo, hi, [b], x, y);
    assert lo > 0 ==> bs[lo - 1].used;
    assert hi < |bs| ==> bs[hi].used;
    SpliceTouch(bs, lo, hi, [b]);
  }

  /** Where the neighbours of a carved block are in use, freeing its allocated piece takes in all its pieces. */
  lemma PiecesMerge(bs: seq<Block>, i: nat, c: seq<Block>, k: nat)
    requires i < |bs| && k < |c| && k <= 1 && |c| <= k + 2 && (k == 1 ==> !c[0].used)
    requires |c| == k + 2 ==> !c[k + 1].used
    requires (i > 0 ==> bs[i - 1].used) && (i + 1 < |bs| ==> bs[i + 1].used)
    ensures var bs' := Splice(bs, i, i + 1, c);
      i + k < |bs'| && LowEnd(bs', i + k) == i && HighEnd(bs', i + k) == i + |c|
  {
    var bs' := Splice(bs, i, i + 1, c);
    assert bs'[i + k] == c[k];
    if k == 1 { assert bs'[i] == c[0]; }
    if |c| == k + 2 { assert bs'[i + k + 1] == c[k + 1]; }
    if i > 0 { assert bs'[i - 1] == bs[i - 1]; }
    if i + 1 < |bs| { assert bs'[i + |c|] == bs[i + 1]; }
  }

  /** Freeing what was just allocated restores the identical list. */
  lemma AllocFree(bs: seq<Block>, i: nat, n: nat, a: Alignment, x: nat, y: nat)
    requires HeapOk(bs, x, y) && y < WORD && i < |bs| && Taken(bs[i], n, a) && Fits(bs[i], n, a)
    ensures i + Result(bs[i], a) < |AllocAt(bs, i, n, a)| && FreeAt(AllocAt(bs, i, n, a), i + Result(bs[i], a)) == bs
  {
    var b, c := bs[i], Carve(bs[i], n, a);
    AllocOk(bs, i, n, a, x, y);
    PiecesMerge(bs, i, c, Result(b, a));
    MergedPieces(bs, i, c, x, y);
  }

  lemma MergedPieces(bs: seq<Block>, i: nat, c: seq<Block>, x: nat, y: nat)
    requires Tiles(bs, x, y) && i < |bs| && !bs[i].used && |c| > 0 && c[0].addr == bs[i].addr
    requires Tiles(Splice(bs, i, i + 1, c), x, y)
    ensures var bs' := Splice(bs, i, i + 1, c);
      Splice(bs', i, i + |c|, [Block(bs'[i].addr, SizeOf(bs', i, i + |c|), false)]) == bs
  {
    var bs' := Splice(bs, i, i + 1, c);
    NextAddr(bs, i, x, y);
    SizeSpan(bs', i, i + |c|, x, y);
    assert bs'[i] == c[0];
    if i + 1 < |bs| { assert bs'[i + |c|] == bs[i + 1]; }
    assert bs'[..i] == bs[..i] && bs'[i + |c|..] == bs[i + 1..];
    assert bs == bs[..i] + [bs[i]] + bs[i + 1..];
  }

  // ---- growth -----------------------------------------------------------------------------------------------

  /** heap_grow by k bytes: the last block, if free, gets them; otherwise they become a new free block. */
  function GrowBy(bs: seq<Block>, y: nat, k: nat): seq<Block>
    requires |bs| > 0
  {
    var l := bs[|bs| - 1];
    if l.used then bs + [Block(y, k, false)] else bs[..|bs| - 1] + [l.(size := l.size + k)]
  }

  lemma GrowOk(bs: seq<Block>, x: nat, y: nat, k: nat)
    requires HeapOk(bs, x, y) && k >= HDR
    ensures HeapOk(GrowBy(bs, y, k), x, y + k)
  {
    var i := |bs| - 1;
    var l := bs[i];
    TilesCut(bs, i, x, y);
    NextAddr(bs, i, x, y);
    if l.used {
      TilesOne(Block(y, k, false), y, y + k);
      TilesJoin(bs, [Block(y, k, false)], x, y, y + k);
    } else {
      TilesOne(l.(size := l.size + k), l.addr, y + k);
      TilesJoin(bs[..i], [l.(size := l.size + k)], x, l.addr, y + k);
    }
  }

  /** ALIGN(n, PAGE_SIZE): whole pages, wrapping to 0 for the largest words. */
  lemma PageRound(n: nat)
    ensures Align(n, PAGE) == PAGE * ((n + PAGE - 1) % WORD / PAGE) && Align(n, PAGE) % PAGE == 0
    ensures Align(n, PAGE) < WORD
  {
    Pow2Small();
    AlignSplit(n, PAGE);
    MaskIsMod((n + PAGE - 1) % WORD, 12);
  }

  /** The page loop of heap_grow: how many pages it maps from page on, with the pointers compared as words. */
  function Mapped(page: nat, limit: nat, size: nat, max: nat, frames: nat): (p: nat)
    ensures p <= frames
    decreases frames
  {
    if page < limit && size < max && frames > 0 then 1 + Mapped(page + PAGE, limit, size + PAGE, max, frames - 1) else 0
  }

  /** Why the loop ends where it does. */
  lemma {:induction false} MappedEnds(page: nat, limit: nat, size: nat, max: nat, frames: nat)
    requires page % PAGE == 0 && limit % PAGE == 0
    ensures var p := Mapped(page, limit, size, max, frames);
      && (p == 0 || page + PAGE * p <= limit) && (p == 0 <==> page >= limit || size >= max || frames == 0)
      && (p > 0 ==> size + PAGE * p < max + PAGE) && (page + PAGE * p >= limit || size + PAGE * p >= max || p == frames)
    decreases frames
  {
    if page < limit && size < max && frames > 0 { MappedEnds(page + PAGE, limit, size + PAGE, max, frames - 1); }
  }

  /** heap_grow for n bytes at the end of the heap: the pages it grows by. */
  function GrowPages(n: nat, end: nat, size: nat, max: nat, frames: nat): (p: nat)
    ensures p <= frames
  {
    Mapped(end, (end + Align(n, PAGE)) % WORD, size, max, frames)
  }

  /** The heap grows by the pages that cover the request, as far as its limit and the frames go. It does not grow
      exactly if one of these is used up, or the request rounds to no page, or its end is past the address space. */
  lemma GrowEnds(n: nat, end: nat, size: nat, max: nat, frames: nat)
    requires end % PAGE == 0 && end < WORD
    ensures var k, s := PAGE * GrowPages(n, end, size, max, frames), Align(n, PAGE);
      && end + k < WORD && (end + k) % PAGE == 0 && k <= s && (k > 0 ==> size + k < max + PAGE)
      && (k == 0 <==> s == 0 || end + s >= WORD || size >= max || frames == 0)
      && (k < s ==> end + s >= WORD || size + k >= max || k == PAGE * frames)
  {
    PageRound(n);
    var s := Align(n, PAGE);
    var limit := (end + s) % WORD;
    assert limit == (if end + s < WORD then end + s else end + s - WORD) && limit % PAGE == 0;
    MappedEnds(end, limit, size, max, frames);
  }

  /** The first block that the search takes, from index i on; the length if there is none. */
  function FirstTaken(bs: seq<Block>, n: nat, a: Alignment, i: nat): (r: nat)
    requires i <= |bs|
    ensures i <= r <= |bs| && (forall j :: i <= j < r ==> !Taken(bs[j], n, a)) && (r < |bs| ==> Taken(bs[r], n, a))
    decreases |bs| - i
  {
    if i == |bs| || Taken(bs[i], n, a) then i else FirstTaken(bs, n, a, i + 1)
  }

  /** A heap from base on: its blocks, its size and the most it may grow to. */
  datatype State = State(bs: seq<Block>, base: nat, size: nat, max: nat)

  predicate PageAligned(s: State) { |s.bs| > 0 && s.base + s.size < WORD && (s.base + s.size) % PAGE == 0 }

  function PagesFor(s: State, n: nat, frames: nat): (p: nat)
    ensures p <= frames
  {
    GrowPages(n, s.base + s.size, s.size, s.max, frames)
  }

  /** The state after heap_grow. */
  function Grown(s: State, n: nat, frames: nat): State
    requires |s.bs| > 0
  {
    var k := PAGE * PagesFor(s, n, frames);
    if k == 0 then s else s.(bs := GrowBy(s.bs, s.base + s.size, k), size := s.size + k)
  }

  lemma GrownAligned(s: State, n: nat, frames: nat)
    requires PageAligned(s)
    ensures PageAligned(Grown(s, n, frames)) && (Grown(s, n, frames).size > s.size <==> PagesFor(s, n, frames) > 0)
  {
    GrowEnds(n, s.base + s.size, s.size, s.max, frames);
  }

  /** The loop of heap_alloc_block_aligned: grow until a block is taken or the heap does not grow. */
  function Settle(s: State, frames: nat, n: nat, a: Alignment): (r: (State, nat))
    requires PageAligned(s)
    ensures PageAligned(r.0) && r.0.base == s.base && r.0.max == s.max && r.0.size >= s.size && r.1 <= frames
    decreases WORD - (s.base + s.size)
  {
    GrownAligned(s, n, frames);
    var p := PagesFor(s, n, frames);
    if FirstTaken(s.bs, n, a, 0) < |s.bs| || p == 0 then (s, frames) else Settle(Grown(s, n, frames), frames - p, n, a)
  }

  lemma SettleStep(s: State, frames: nat, n: nat, a: Alignment)
    requires PageAligned(s)
    ensures var p, t := PagesFor(s, n, frames), Grown(s, n, frames);
      && PageAligned(t)
      && Settle(s, frames, n, a)
           == if FirstTaken(s.bs, n, a, 0) < |s.bs| || p == 0 then (s, frames) else Settle(t, frames - p, n, a)
  {
    GrownAligned(s, n, frames);
  }

  ghost predicate StateOk(s: State, head: nat) { PageAligned(s) && HeapOk(s.bs, head, s.base + s.size) }

  lemma GrownOk(s: State, n: nat, frames: nat, head: nat)
    requires StateOk(s, head)
    ensures StateOk(Grown(s, n, frames), head) && Used(Grown(s, n, frames).bs) == Used(s.bs)
    ensures PagesFor(s, n, frames) == 0 <==> Refused(s, frames, n)
  {
    var k := PAGE * PagesFor(s, n, frames);
    GrowEnds(n, s.base + s.size, s.size, s.max, frames);
    if k > 0 {
      GrowOk(s.bs, head, s.base + s.size, k);
      GrowUsed(s.bs, s.base + s.size, k);
    }
  }

  /** Growing for a request keeps the tiling and the blocks in use. It ends with a block taken, or with none and a
      reason: the request rounds to no page or past the address space, or the heap or the frames are used up. */
  lemma {:induction false} SettleOk(s: State, frames: nat, n: nat, a: Alignment, head: nat)
    requires StateOk(s, head)
    ensures var (t, left) := Settle(s, frames, n, a);
      && StateOk(t, head) && Used(t.bs) == Used(s.bs)
      && (FirstTaken(s.bs, n, a, 0) < |s.bs| ==> t == s && left == frames)
      && (FirstTaken(t.bs, n, a, 0) == |t.bs| ==> Refused(t, left, n))
    decreases WORD - (s.base + s.size)
  {
    GrownOk(s, n, frames, head);
    SettleStep(s, frames, n, a);
    var p, t := PagesFor(s, n, frames), Grown(s, n, frames);
    if FirstTaken(s.bs, n, a, 0) == |s.bs| && p > 0 {
      assert s.base + s.size < t.base + t.size < WORD by { GrownAligned(s, n, frames); }
      SettleOk(t, frames - p, n, a, head);
    }
  }

  /** Why the heap cannot grow for n bytes. */
  predicate Refused(s: State, frames: nat, n: nat) {
    var pages := Align(n, PAGE);
    pages == 0 || s.base + s.size + pages >= WORD || s.size >= s.max || frames == 0
  }

  // ---- the allocated blocks ----------------------------------------------------------------------------------

  ghost function Used(bs: seq<Block>): set<Block> { set b | b in bs && b.used }

  lemma UsedSplice(bs: seq<Block>, lo: nat, hi: nat, c: seq<Block>)
    requires lo <= hi <= |bs|
    ensures Used(Splice(bs, lo, hi, c)) == Used(bs[..lo]) + Used(c) + Used(bs[hi..])
    ensures Used(bs) == Used(bs[..lo]) + Used(bs[lo..hi]) + Used(bs[hi..])
  {
    assert bs == bs[..lo] + bs[lo..hi] + bs[hi..];
  }

  /** Allocation adds one block to the allocated ones and changes none of them. */
  lemma AllocUsed(bs: seq<Block>, i: nat, n: nat, a: Alignment)
    requires i < |bs| && Taken(bs[i], n, a)
    ensures Used(AllocAt(bs, i, n, a)) == Used(bs) + {Piece(bs[i], n, a)}
  {
    var c := Carve(bs[i], n, a);
    UsedSplice(bs, i, i + 1, c);
    assert bs[i..i + 1] == [bs[i]];
    assert Used([bs[i]]) == {};
    assert Used(c) == {c[Result(bs[i], a)]};
  }

  /** Growth changes none of the allocated blocks. */
  lemma GrowUsed(bs: seq<Block>, y: nat, k: nat)
    requires |bs| > 0
    ensures Used(GrowBy(bs, y, k)) == Used(bs)
  {
    var i := |bs| - 1;
    assert bs == bs[..i] + [bs[i]];
    if bs[i].used {
      assert Used(bs + [Block(y, k, false)]) == Used(bs);
    } else {
      assert Used(bs) == Used(bs[..i]);
    }
  }

  /** Freeing takes exactly the freed block off the allocated ones. */
  lemma FreeUsed(bs: seq<Block>, i: nat, x: nat, y: nat)
    requires HeapOk(bs, x, y) && i < |bs| && bs[i].used
    ensures Used(FreeAt(bs, i)) == Used(bs) - {bs[i]}
  {
    var lo, hi := LowEnd(bs, i), HighEnd(bs, i);
    UsedSplice(bs, lo, hi, [Block(bs[lo].addr, SizeOf(bs, lo, hi), false)]);
    assert Used([Block(bs[lo].addr, SizeOf(bs, lo, hi), false)]) == {};
    forall b | b in bs[lo..hi] && b.used ensures b == bs[i] {
      var j :| 0 <= j < hi - lo && bs[lo..hi][j] == b;
      assert b == bs[lo + j];
    }
    assert bs[lo..hi][i - lo] == bs[i];
    assert Used(bs[lo..hi]) == {bs[i]};
    forall b | b in Used(bs[..lo]) + Used(bs[hi..]) ensures b != bs[i] {
      OtherBlock(bs, i, lo, hi, b, x, y);
    }
    assert bs[i] !in Used(bs[..lo]) + Used(bs[hi..]);
    assert FreeAt(bs, i) == Splice(bs, lo, hi, [Block(bs[lo].addr, SizeOf(bs, lo, hi), false)]);
  }

  lemma OtherBlock(bs: seq<Block>, i: nat, lo: nat, hi: nat, b: Block, x: nat, y: nat)
    requires Tiles(bs, x, y) && lo <= i < hi <= |bs| && (b in bs[..lo] || b in bs[hi..])
    ensures b.addr != bs[i].addr
  {
    var j :| 0 <= j < |bs| && (j < lo || hi <= j) && bs[j] == b;
    if j < i { Apart(bs, j, i, x, y); } else { Apart(bs, i, j, x, y); }
  }

  /** Two blocks do not overlap. */
  lemma {:induction false} Apart(bs: seq<Block>, i: nat, j: nat, x: nat, y: nat)
    requires Tiles(bs, x, y) && i < j < |bs|
    ensures bs[i].size >= HDR && bs[i].addr + bs[i].size <= bs[j].addr && bs[j].addr + bs[j].size <= y
    decreases j - i
  {
    NextAddr(bs, i, x, y);
    NextAddr(bs, j, x, y);
    TilesCut(bs, j, x, y);
    if j + 1 < |bs| { TilesCut(bs, j + 1, x, y); }
    if i + 1 < j { Apart(bs, i + 1, j, x, y); }
  }
}
