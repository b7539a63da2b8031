/** The kernel heap in memory: headers linked by next, rewritten in place. */
module HeapBlocks {
  import opened Bits
  import opened Alignment
  import opened KernelHeap

  /** A block header; next is 0 at the end of the list. */
  datatype Header = Header(size: nat, next: nat, used: bool)

  type Headers = map<nat, Header>

  /** Following next from bs[0] runs through the blocks bs and then to e. */
  ghost predicate LinkedTo(h: Headers, bs: seq<Block>, e: nat) {
    && (forall i :: 0 <= i < |bs| ==>
          bs[i].addr in h && h[bs[i].addr].size == bs[i].size && h[bs[i].addr].used == bs[i].used)
    && (forall i, j :: 0 <= i < |bs| && 0 <= j < |bs| && j == i + 1 ==> h[bs[i].addr].next == bs[j].addr)
    && (|bs| > 0 ==> h[bs[|bs| - 1].addr].next == e)
  }

  /** Where a list of blocks starts, or e if there are none. */
  function StartOf(bs: seq<Block>, e: nat): nat { if |bs| > 0 then bs[0].addr else e }

  lemma LinkedJoin(h: Headers, p: seq<Block>, q: seq<Block>, e: nat)
    requires LinkedTo(h, p, StartOf(q, e)) && LinkedTo(h, q, e)
    ensures LinkedTo(h, p + q, e)
  {
    var r := p + q;
    forall i | 0 <= i < |r| ensures r[i].addr in h && h[r[i].addr].size == r[i].size && h[r[i].addr].used == r[i].used {
      if i < |p| { assert r[i] == p[i]; } else { assert r[i] == q[i - |p|]; }
    }
    forall i, j | 0 <= i < |r| && 0 <= j < |r| && j == i + 1 ensures h[r[i].addr].next == r[j].addr {
      if j < |p| { assert r[i] == p[i] && r[j] == p[j]; }
      else if i >= |p| { assert r[i] == q[i - |p|] && r[j] == q[j - |p|]; }
      else { assert r[i] == p[|p| - 1] && r[j] == q[0]; }
    }
    if |q| > 0 { assert r[|r| - 1] == q[|q| - 1]; } else { assert r == p; }
  }

  lemma LinkedCut(h: Headers, bs: seq<Block>, k: nat, e: nat)
    requires LinkedTo(h, bs, e) && k <= |bs|
    ensures LinkedTo(h, bs[..k], StartOf(bs[k..], e)) && LinkedTo(h, bs[k..], e)
  {
    var p, q := bs[..k], bs[k..];
    forall i | 0 <= i < |p| ensures p[i] == bs[i] {}
    forall i | 0 <= i < |q| ensures q[i] == bs[k + i] {}
    forall i, j | 0 <= i < |q| && 0 <= j < |q| && j == i + 1 ensures h[q[i].addr].next == q[j].addr {
      assert q[i] == bs[k + i] && q[j] == bs[k + j];
    }
    if 0 < k < |bs| { assert h[bs[k - 1].addr].next == bs[k].addr; }
  }

  lemma LinkedFrame(h: Headers, h': Headers, bs: seq<Block>, e: nat)
    requires LinkedTo(h, bs, e) && forall i :: 0 <= i < |bs| ==> bs[i].addr in h' && h'[bs[i].addr] == h[bs[i].addr]
    ensures LinkedTo(h', bs, e)
  {}

  /** Different blocks have different addresses. */
  lemma AddrsDiffer(bs: seq<Block>, i: nat, j: nat, x: nat, y: nat)
    requires Tiles(bs, x, y) && i < j < |bs|
    ensures bs[i].addr + bs[i].size <= bs[j].addr
  {
    Apart(bs, i, j, x, y);
  }

  /** Writes at addresses from lo's block up to hi's touch no other header. */
  ghost predicate Within(h: Headers, h': Headers, x: nat, y: nat) {
    forall a :: a in h && (a < x || y <= a) ==> a in h' && h'[a] == h[a]
  }

  /** Writing the headers of c over a stretch of the heap splices c into the list. */
  lemma LinkedSplice(h: Headers, h': Headers, bs: seq<Block>, lo: nat, hi: nat, c: seq<Block>, x: nat, y: nat)
    requires Tiles(bs, x, y) && LinkedTo(h, bs, 0) && lo < hi <= |bs| && |c| > 0 && c[0].addr == bs[lo].addr
    requires LinkedTo(h', c, StartOf(bs[hi..], 0)) && Within(h, h', bs[lo].addr, StartOf(bs[hi..], y))
    ensures LinkedTo(h', Splice(bs, lo, hi, c), 0)
  {
    LinkedCut(h, bs, lo, 0);
    LinkedCut(h, bs, hi, 0);
    forall i | 0 <= i < lo ensures bs[i].addr < bs[lo].addr { AddrsDiffer(bs, i, lo, x, y); NextAddr(bs, i, x, y); }
    forall i | hi < i < |bs| ensures bs[hi].addr <= bs[i].addr { AddrsDiffer(bs, hi, i, x, y); }
    assert bs[lo..][0] == bs[lo];
    LinkedFrame(h, h', bs[..lo], bs[lo].addr);
    LinkedFrame(h, h', bs[hi..], 0);
    LinkedJoin(h', bs[..lo], c, StartOf(bs[hi..], 0));
    LinkedJoin(h', bs[..lo] + c, bs[hi..], 0);
  }

  /** The header writes of an allocation: each piece points to the next, the last one to where the block pointed. */
  function WritePieces(h: Headers, c: seq<Block>, e: nat): Headers
    decreases |c|
  {
    if |c| == 0 then h
    else WritePieces(h, c[1..], e)[c[0].addr := Header(c[0].size, StartOf(c[1..], e), c[0].used)]
  }

  lemma {:induction false} PiecesLinked(h: Headers, c: seq<Block>, e: nat, x: nat, y: nat)
    requires Tiles(c, x, y)
    ensures LinkedTo(WritePieces(h, c, e), c, e) && Within(h, WritePieces(h, c, e), x, y)
  {
    if |c| > 0 {
      var t := c[1..];
      TilesEnd(t, x + c[0].size, y);
      PiecesLinked(h, t, e, x + c[0].size, y);
      var h1, h2 := WritePieces(h, t, e), WritePieces(h, c, e);
      forall i | 0 <= i < |t| ensures t[i].addr > c[0].addr { TilesCut(t, i, x + c[0].size, y); }
      LinkedFrame(h1, h2, t, e);
      assert LinkedTo(h2, [c[0]], StartOf(t, e));
      LinkedJoin(h2, [c[0]], t, e);
      assert [c[0]] + t == c;
    }
  }

  class Heap {
    const base: nat
    const maxSize: nat
    var headers: Headers
    var head: nat
    var size: nat
    ghost var bs: seq<Block>

    ghost predicate Valid()
      reads this
    {
      && LinkedTo(headers, bs, 0) && HeapOk(bs, head, base + size) && bs[0].addr == head && head > 0
      && PageAligned(Now())
    }

    ghost function Now(): State
      reads this
    {
      State(bs, base, size, maxSize)
    }

    /** heap_init: one free block behind the heap's own header. */
    constructor (address: nat, initial: nat, max: nat)
      requires address % PAGE == 0 && initial % PAGE == 0 && initial > 0 && address + initial < WORD
      ensures Valid() && base == address && size == initial && maxSize == max
      ensures bs == [Block(address + 16, initial - 16, false)]
    {
      base, maxSize, size, head := address, max, initial, address + 16;
      headers := map[address + 16 := Header(initial - 16, 0, false)];
      bs := [Block(address + 16, initial - 16, false)];
      new;
      TilesOne(bs[0], head, base + size);
    }

    /** The walk for a free block that passes the tests: the first one in list order. */
    method FindBlock(n: nat, a: Alignment) returns (h: nat)
      requires Valid()
      ensures var i := FirstTaken(bs, n, a, 0); (h == 0 <==> i == |bs|) && (i < |bs| ==> h == bs[i].addr)
    {
      h := head;
      ghost var i := 0;
      while h != 0
        invariant i <= |bs| && (if i < |bs| then h == bs[i].addr else h == 0)
        invariant FirstTaken(bs, n, a, 0) == FirstTaken(bs, n, a, i)
        decreases |bs| - i
      {
        PositiveAddr(bs, i, head, base + size);
        var b := Block(h, headers[h].size, headers[h].used);
        assert b == bs[i];
        if Taken(b, n, a) { return; }
        if i + 1 < |bs| { PositiveAddr(bs, i + 1, head, base + size); }
        h := headers[h].next;
        i := i + 1;
      }
      if i < |bs| { PositiveAddr(bs, i, head, base + size); }
    }

    /** The block at h is carved up; r is the address of its allocated piece. right tells whether the data fits. The
        header writes are the same in either case. */
    method TakeBlock(h: nat, n: nat, a: Alignment, ghost i: nat) returns (r: nat, right: bool)
      requires Valid() && i < |bs| && h == bs[i].addr && Taken(bs[i], n, a)
      modifies this`headers, this`bs
      ensures right == Fits(old(bs)[i], n, a) && r == Piece(old(bs)[i], n, a).addr && (right ==> r > 0)
      ensures headers == WritePieces(old(headers), Carve(old(bs)[i], n, a), StartOf(old(bs)[i + 1..], 0))
      ensures bs == if right then AllocAt(old(bs), i, n, a) else old(bs)
      ensures right ==> Valid()
    {
      var b := Block(h, headers[h].size, headers[h].used);
      assert b == bs[i];
      right := Fits(b, n, a);
      ghost var h0 := headers;
      StartOfRest(h0, bs, i, headers[h].next, head, base + size);
      headers := WritePieces(headers, Carve(b, n, a), headers[h].next);
      r := Piece(b, n, a).addr;
      if right {
        Carved(h0, bs, i, n, a, head, base + size);
        bs := AllocAt(bs, i, n, a);
      }
    }

    /** The block before p, 0 for the first one. */
    method PrevBlock(p: nat, ghost i: nat) returns (h: nat)
      requires Valid() && i < |bs| && p == bs[i].addr
      ensures h == if i == 0 then 0 else bs[i - 1].addr
    {
      NextAddr(bs, 0, head, base + size);
      if i > 0 { AddrsDiffer(bs, 0, i, head, base + size); }
      if p == head { return 0; }
      h := head;
      ghost var j := 0;
      while h != 0 && headers[h].next != p
        invariant j < i && h == bs[j].addr && h in headers
        decreases i - j
      {
        assert headers[bs[j].addr].next == bs[j + 1].addr;
        h := headers[h].next;
        j := j + 1;
      }
      PositiveAddr(bs, j, head, base + size);
      if j + 1 < i { AddrsDiffer(bs, j + 1, i, head, base + size); NextAddr(bs, j + 1, head, base + size); }
    }

    /** The header that freeing writes, and where: the block merged with its free neighbours. */
    method Merged(p: nat, ghost i: nat) returns (block: nat, m: Header)
      requires Valid() && i < |bs| && p == bs[i].addr
      ensures block == bs[LowEnd(bs, i)].addr
      ensures var lo, hi := LowEnd(bs, i), HighEnd(bs, i); m == Header(SizeOf(bs, lo, hi), StartOf(bs[hi..], 0), false)
    {
      var prev := PrevBlock(p, i);
      block, m := p, Header(headers[p].size, headers[p].next, false);
      if i > 0 { PositiveAddr(bs, i - 1, head, base + size); }
      if prev != 0 && !headers[prev].used {
        m := Header(headers[prev].size + m.size, m.next, false);
        block := prev;
      }
      if i + 1 < |bs| { PositiveAddr(bs, i + 1, head, base + size); }
      assert i + 1 < |bs| ==> headers[p].next == bs[i + 1].addr;
      var next := m.next;
      if next != 0 && !headers[next].used {
        m := Header(m.size + headers[next].size, headers[next].next, false);
      }
      FreedHeader(headers, bs, i, m, head, base + size);
    }

    /** heap_free_block: the block and its free neighbours become one free block. */
    method FreeBlock(p: nat, ghost i: nat)
      requires Valid() && i < |bs| && p == bs[i].addr && bs[i].used
      modifies this`headers, this`bs
      ensures Valid() && bs == FreeAt(old(bs), i)
    {
      var block, m := Merged(p, i);
      headers := headers[p := headers[p].(used := false)];
      headers := headers[block := m];
      Freed(old(headers), headers, bs, i, m, head, base + size);
      bs := FreeAt(bs, i);
    }

    /** The last block of the list. */
    method LastBlock() returns (h: nat)
      requires Valid()
      ensures h == bs[|bs| - 1].addr
    {
      h := head;
      ghost var i := 0;
      while headers[h].next != 0
        invariant i < |bs| && h == bs[i].addr && h in headers
        decreases |bs| - i
      {
        assert i + 1 < |bs| ==> headers[bs[i].addr].next == bs[i + 1].addr;
        h := headers[h].next;
        i := i + 1;
      }
      if i + 1 < |bs| { PositiveAddr(bs, i + 1, head, base + size); }
    }

    /** The page loop of heap_grow. */
    method TakePages(n: nat, frames: nat) returns (p: nat)
      requires Valid()
      ensures p == PagesFor(Now(), n, frames)
    {
      var end := base + size;
      var limit := (end + Align(n, PAGE)) % WORD;
      p := 0;
      while end + PAGE * p < limit && size + PAGE * p < maxSize && p < frames
        invariant p <= frames
        invariant PagesFor(Now(), n, frames) == p + Mapped(end + PAGE * p, limit, size + PAGE * p, maxSize, frames - p)
        decreases frames - p
      {
        p := p + 1;
      }
    }

    /** The pages behind the heap's end become part of its last block, or a new one. */
    method Extend(k: nat)
      requires Valid() && k >= PAGE && base + size + k < WORD && (base + size + k) % PAGE == 0
      modifies this`headers, this`size, this`bs
      ensures Valid() && size == old(size) + k && bs == GrowBy(old(bs), base + old(size), k)
    {
      var last := LastBlock();
      NextAddr(bs, |bs| - 1, head, base + size);
      GrowOk(bs, head, base + size, k);
      var end := last + headers[last].size;
      var h;
      if headers[last].used {
        GrownUsed(headers, bs, head, end, k);
        h := headers[last := headers[last].(next := end)][end := Header(k, 0, false)];
      } else {
        GrownFree(headers, bs, head, end, k);
        h := headers[last := headers[last].(size := headers[last].size + k)];
      }
      assert LinkedTo(h, GrowBy(bs, end, k), 0);
      headers, bs, size := h, GrowBy(bs, end, k), size + k;
    }

    /** heap_grow; p is the number of frames it takes. */
    method Grow(n: nat, frames: nat) returns (p: nat)
      requires Valid()
      modifies this`headers, this`size, this`bs
      ensures Valid() && p == PagesFor(old(Now()), n, frames) && Now() == Grown(old(Now()), n, frames)
    {
      GrowEnds(n, base + size, size, maxSize, frames);
      p := TakePages(n, frames);
      if p > 0 { Extend(PAGE * p); }
    }

    /** One round of the loop of heap_alloc_block_aligned: a block is found, or the heap grows, or the loop ends. */
    method Attempt(n: nat, a: Alignment, frames: nat) returns (h: nat, p: nat)
      requires Valid()
      modifies this`headers, this`size, this`bs
      ensures Valid() && p <= frames && (p > 0 ==> size > old(size))
      ensures Settle(old(Now()), frames, n, a) == if p == 0 then (Now(), frames) else Settle(Now(), frames - p, n, a)
      ensures p == 0 ==> var i := FirstTaken(bs, n, a, 0); (h == 0 <==> i == |bs|) && (i < |bs| ==> h == bs[i].addr)
    {
      SettleStep(Now(), frames, n, a);
      h := FindBlock(n, a);
      if h != 0 { return h, 0; }
      p := Grow(n, frames);
    }

    /** The loop: the heap grows until the walk finds a block. */
    method Search(n: nat, a: Alignment, frames: nat) returns (h: nat, left: nat)
      requires Valid()
      modifies this`headers, this`size, this`bs
      ensures Valid() && (Now(), left) == Settle(old(Now()), frames, n, a)
      ensures var i := FirstTaken(bs, n, a, 0); (h == 0 <==> i == |bs|) && (i < |bs| ==> h == bs[i].addr)
    {
      left := frames;
      ghost var goal := Settle(Now(), frames, n, a);
      while true
        invariant Valid() && Settle(Now(), left, n, a) == goal
        decreases WORD - (base + size)
      {
        var p;
        h, p := Attempt(n, a, left);
        if p == 0 { return; }
        left := left - p;
      }
    }

    /** heap_alloc_block_aligned: the first block that the guard accepts is cut, after growing the heap while there
        is none. right tells, as the code does not, whether the aligned data fits the block found. */
    method AllocAligned(bytes: nat, a: Alignment, frames: nat) returns (r: nat, right: bool, left: nat)
      requires Valid()
      modifies this`headers, this`size, this`bs
      ensures var n := (bytes + CANARY) % WORD; var (s, rest) := Settle(old(Now()), frames, n, a);
        var i := FirstTaken(s.bs, n, a, 0);
        && left == rest && size == s.size && right == (i < |s.bs| ==> Fits(s.bs[i], n, a))
        && (i == |s.bs| ==> r == 0 && Valid() && Now() == s)
        && (i < |s.bs| ==> r == Piece(s.bs[i], n, a).addr)
        && (i < |s.bs| && right ==> r > 0 && Valid() && bs == AllocAt(s.bs, i, n, a))
    {
      var n: nat := (bytes + CANARY) % WORD;
      var h;
      h, left := Search(n, a, frames);
      if h == 0 { return 0, true, left; }
      r, right := TakeBlock(h, n, a, FirstTaken(bs, n, a, 0));
    }
  }

  /** The header writes of an allocation whose data fits give the list with the pieces in it. */
  lemma Carved(h: Headers, bs: seq<Block>, i: nat, n: nat, a: Alignment, x: nat, y: nat)
    requires LinkedTo(h, bs, 0) && HeapOk(bs, x, y) && x > 0 && bs[0].addr == x && y < WORD
    requires i < |bs| && Taken(bs[i], n, a) && Fits(bs[i], n, a)
    ensures var bs' := AllocAt(bs, i, n, a);
      && LinkedTo(WritePieces(h, Carve(bs[i], n, a), StartOf(bs[i + 1..], 0)), bs', 0)
      && HeapOk(bs', x, y) && bs'[0].addr == x && Piece(bs[i], n, a).addr > 0
  {
    var b, c, e := bs[i], Carve(bs[i], n, a), StartOf(bs[i + 1..], 0);
    CarveStart(b, n, a);
    AllocOk(bs, i, n, a, x, y);
    NextAddr(bs, i, x, y);
    TilesCut(bs, i + 1, x, y);
    CarveRight(b, n, a);
    PiecesLinked(h, c, e, b.addr, b.addr + b.size);
    StartOfRest(h, bs, i, h[b.addr].next, x, y);
    LinkedSplice(h, WritePieces(h, c, e), bs, i, i + 1, c, x, y);
    HeadKept(bs, i, c);
    PositiveAddr(AllocAt(bs, i, n, a), i + Result(b, a), x, y);
  }

  /** The headers before the last block are below it. */
  lemma FrontLinked(h: Headers, h': Headers, bs: seq<Block>, x: nat, y: nat)
    requires LinkedTo(h, bs, 0) && Tiles(bs, x, y) && |bs| > 0
    requires forall a :: a in h && a < bs[|bs| - 1].addr ==> a in h' && h'[a] == h[a]
    ensures LinkedTo(h', bs[..|bs| - 1], bs[|bs| - 1].addr)
  {
    var i := |bs| - 1;
    LinkedCut(h, bs, i, 0);
    assert bs[i..][0] == bs[i];
    forall j | 0 <= j < i ensures bs[j].addr < bs[i].addr { AddrsDiffer(bs, j, i, x, y); NextAddr(bs, j, x, y); }
    LinkedFrame(h, h', bs[..i], bs[i].addr);
  }

  lemma GrownUsed(h: Headers, bs: seq<Block>, x: nat, y: nat, k: nat)
    requires LinkedTo(h, bs, 0) && Tiles(bs, x, y) && |bs| > 0 && bs[|bs| - 1].used && bs[|bs| - 1].addr in h
    ensures var l := bs[|bs| - 1].addr; var h' := h[l := h[l].(next := y)][y := Header(k, 0, false)];
      LinkedTo(h', GrowBy(bs, y, k), 0) && GrowBy(bs, y, k)[0].addr == bs[0].addr
  {
    var l := bs[|bs| - 1];
    var h' := h[l.addr := h[l.addr].(next := y)][y := Header(k, 0, false)];
    NextAddr(bs, |bs| - 1, x, y);
    FrontLinked(h, h', bs, x, y);
    var t := [l, Block(y, k, false)];
    assert LinkedTo(h', t, 0);
    LinkedJoin(h', bs[..|bs| - 1], t, 0);
    assert bs[..|bs| - 1] + t == GrowBy(bs, y, k);
  }

  lemma GrownFree(h: Headers, bs: seq<Block>, x: nat, y: nat, k: nat)
    requires LinkedTo(h, bs, 0) && Tiles(bs, x, y) && |bs| > 0 && !bs[|bs| - 1].used && bs[|bs| - 1].addr in h
    ensures var l := bs[|bs| - 1].addr; var h' := h[l := h[l].(size := h[l].size + k)];
      LinkedTo(h', GrowBy(bs, y, k), 0) && GrowBy(bs, y, k)[0].addr == bs[0].addr
  {
    var l := bs[|bs| - 1];
    var h' := h[l.addr := h[l.addr].(size := h[l.addr].size + k)];
    FrontLinked(h, h', bs, x, y);
    var t := [l.(size := l.size + k)];
    assert LinkedTo(h', t, 0);
    LinkedJoin(h', bs[..|bs| - 1], t, 0);
  }

  /** The merged header is that of the merged block. */
  lemma FreedHeader(h: Headers, bs: seq<Block>, i: nat, m: Header, x: nat, y: nat)
    requires LinkedTo(h, bs, 0) && Tiles(bs, x, y) && i < |bs|
    requires var lo, hi := LowEnd(bs, i), HighEnd(bs, i);
      && m.next == h[bs[hi - 1].addr].next && !m.used
      && m.size == (if lo < i then bs[lo].size else 0) + bs[i].size + (if hi > i + 1 then bs[i + 1].size else 0)
    ensures var lo, hi := LowEnd(bs, i), HighEnd(bs, i);
      m == Header(SizeOf(bs, lo, hi), StartOf(bs[hi..], 0), false)
  {
    var lo, hi := LowEnd(bs, i), HighEnd(bs, i);
    StartOfRest(h, bs, hi - 1, m.next, x, y);
    assert SizeOf(bs, hi, hi) == 0;
    assert SizeOf(bs, i, hi) == bs[i].size + SizeOf(bs, i + 1, hi);
    assert hi > i + 1 ==> SizeOf(bs, i + 1, hi) == bs[i + 1].size + SizeOf(bs, hi, hi);
    assert lo < i ==> SizeOf(bs, lo, hi) == bs[lo].size + SizeOf(bs, i, hi);
  }

  lemma FreedSplice(h: Headers, h': Headers, bs: seq<Block>, i: nat, m: Header, x: nat, y: nat)
    requires LinkedTo(h, bs, 0) && Tiles(bs, x, y) && i < |bs| && bs[i].addr in h
    requires var lo, hi := LowEnd(bs, i), HighEnd(bs, i);
      && m == Header(SizeOf(bs, lo, hi), StartOf(bs[hi..], 0), false)
      && h' == h[bs[i].addr := h[bs[i].addr].(used := false)][bs[lo].addr := m]
    ensures LinkedTo(h', FreeAt(bs, i), 0) && FreeAt(bs, i)[0].addr == bs[0].addr
  {
    var lo, hi := LowEnd(bs, i), HighEnd(bs, i);
    var b := Block(bs[lo].addr, SizeOf(bs, lo, hi), false);
    NextAddr(bs, i, x, y);
    SizeSpan(bs, i, hi, x, y);
    if lo < i { AddrsDiffer(bs, lo, i, x, y); }
    if hi < |bs| { assert bs[hi..][0] == bs[hi]; }
    assert Within(h, h', bs[lo].addr, StartOf(bs[hi..], y));
    LinkedSplice(h, h', bs, lo, hi, [b], x, y);
    if lo > 0 { assert FreeAt(bs, i)[0] == bs[0]; } else { assert FreeAt(bs, i)[0] == b; }
  }

  lemma Freed(h: Headers, h': Headers, bs: seq<Block>, i: nat, m: Header, x: nat, y: nat)
    requires LinkedTo(h, bs, 0) && HeapOk(bs, x, y) && bs[0].addr == x && i < |bs| && bs[i].used && bs[i].addr in h
    requires var lo, hi := LowEnd(bs, i), HighEnd(bs, i);
      && m == Header(SizeOf(bs, lo, hi), StartOf(bs[hi..], 0), false)
      && h' == h[bs[i].addr := h[bs[i].addr].(used := false)][bs[lo].addr := m]
    ensures LinkedTo(h', FreeAt(bs, i), 0) && HeapOk(FreeAt(bs, i), x, y) && FreeAt(bs, i)[0].addr == x
  {
    FreeOk(bs, i, x, y);
    FreedSplice(h, h', bs, i, m, x, y);
  }

  lemma PositiveAddr(bs: seq<Block>, i: nat, x: nat, y: nat)
    requires Tiles(bs, x, y) && i < |bs| && x > 0
    ensures bs[i].addr > 0
  {
    TilesCut(bs, i, x, y);
  }

  lemma StartOfRest(h: Headers, bs: seq<Block>, i: nat, e: nat, x: nat, y: nat)
    requires LinkedTo(h, bs, 0) && Tiles(bs, x, y) && i < |bs| && e == h[bs[i].addr].next
    ensures e == StartOf(bs[i + 1..], 0) && bs[i].addr + bs[i].size == StartOf(bs[i + 1..], y)
  {
    NextAddr(bs, i, x, y);
    if i + 1 < |bs| { assert bs[i + 1..][0] == bs[i + 1]; }
  }

  lemma CarveStart(b: Block, n: nat, a: Alignment)
    requires Taken(b, n, a)
    ensures |Carve(b, n, a)| > Result(b, a) && Carve(b, n, a)[0].addr == b.addr
  {}

  lemma HeadKept(bs: seq<Block>, i: nat, c: seq<Block>)
    requires i < |bs| && |c| > 0 && c[0].addr == bs[i].addr
    ensures Splice(bs, i, i + 1, c)[0].addr == bs[0].addr
  {
    if i > 0 { assert Splice(bs, i, i + 1, c)[0] == bs[0]; } else { assert Splice(bs, i, i + 1, c)[0] == c[0]; }
  }
}
