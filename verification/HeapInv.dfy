/** The allocator's invariant: tags, bins, dv and top describe one and the same set of free chunks. */
module HeapInv {
  import opened Bits
  import opened Chunks
  import opened Bins
  import opened LargeBins
  import opened BinOps
  import opened Tiles

  ghost function DvSet(dv: Addr, dvsize: nat): set<Addr> { if dvsize == 0 then {} else {dv} }

  /** Every free chunk is in exactly one place: in a bin (u), dv, or the hands (held) of the running operation. */
  ghost predicate Owned(g: Segment, h: Heads, u: set<Addr>, dv: Addr, dvsize: nat, held: set<Addr>) {
    && FreeChunks(g, h) == u + DvSet(dv, dvsize) + held
    && u !! DvSet(dv, dvsize) && u !! held && DvSet(dv, dvsize) !! held
    && (dvsize == 0 ==> dv == 0) && (dvsize != 0 ==> Sz(h, dv) == dvsize)
  }

  /** All chunks but x are as they were, in use or free; x is newly in use. */
  ghost predicate Gained(g: Segment, h: Heads, g': Segment, h': Heads, x: Addr) {
    InUse(g', h') == InUse(g, h) + {x} && x !in InUse(g, h) && KeepSizes(h, h', g.tiles - {x})
  }

  const TOP_FOOT_SIZE := 40

  /** The fields of malloc_state. */
  datatype Mem = Mem(bins: BinState, heads: Heads, foots: Foots, dv: Addr, dvsize: nat, top: Addr, topsize: nat,
                     brk: nat)

  /** What the fields stand for: the bins' content, the chunks of the segment, the binned chunks. */
  datatype View = View(content: Content, seg: Segment, binned: set<Addr>)

  /** An initialised allocator; the operation that runs has the free chunks held in hand. */
  ghost predicate Sound(m: Mem, w: View, footer: nat, held: set<Addr>) {
    && Tiled(w.seg, m.heads, m.foots) && BinsHold(m.bins, w.content, m.heads, w.binned)
    && Owned(w.seg, m.heads, w.binned, m.dv, m.dvsize, held)
    && m.top > 0 && w.seg.top == m.top && m.heads[m.top].size == m.topsize && m.topsize > 0
    && w.seg.footer == footer && m.brk == m.top + m.topsize + TOP_FOOT_SIZE && m.brk < WORD && m.brk % 4096 == 0
  }

  lemma SoundTake(m: Mem, w: View, footer: nat, held: set<Addr>, x: Addr, s: nat)
    requires Sound(m, w, footer, held) && x in held && s == Sz(m.heads, x)
    ensures x + s in m.heads
    ensures var m' := m.(heads := TakeHeads(m.heads, x, s), foots := m.foots[x + s := footer]);
      Sound(m', w, footer, held - {x}) && Gained(w.seg, m.heads, w.seg, m'.heads, x) && Sz(m'.heads, x) == s
  {
    TakeWhole(w.seg, m.heads, m.foots, x);
    assert TileOk(w.seg, m.heads, m.foots, x);
    TakeSets(w.seg, m.heads, m.foots, x);
    HoldFrame(m.bins, w.content, m.heads, TakeHeads(m.heads, x, s), w.binned);
  }

  lemma SoundSplit(m: Mem, w: View, footer: nat, held: set<Addr>, x: Addr, nb: nat, s: nat)
    requires Sound(m, w, footer, held) && x in held && s == Sz(m.heads, x) && SizeOk(nb) && nb + MIN_CHUNK_SIZE <= s
    ensures var m' := m.(heads := SplitHeads(m.heads, x, nb, s), foots := SplitFoots(m.foots, x, nb, s, footer));
      var w' := w.(seg := w.seg.(tiles := w.seg.tiles + {x + nb}));
      && Sound(m', w', footer, held - {x} + {x + nb}) && Gained(w.seg, m.heads, w'.seg, m'.heads, x)
      && Sz(m'.heads, x) == nb && Sz(m'.heads, x + nb) == s - nb
  {
    SplitSound(m, w, footer, held, x, nb, s);
    SplitGained(m, w, footer, held, x, nb, s);
  }

  lemma SplitSound(m: Mem, w: View, footer: nat, held: set<Addr>, x: Addr, nb: nat, s: nat)
    requires Sound(m, w, footer, held) && x in held && s == Sz(m.heads, x) && SizeOk(nb) && nb + MIN_CHUNK_SIZE <= s
    ensures var m' := m.(heads := SplitHeads(m.heads, x, nb, s), foots := SplitFoots(m.foots, x, nb, s, footer));
      var w' := w.(seg := w.seg.(tiles := w.seg.tiles + {x + nb})); Sound(m', w', footer, held - {x} + {x + nb})
  {
    assert TileOk(w.seg, m.heads, m.foots, x);
    TakeSplit(w.seg, m.heads, m.foots, x, nb);
    SplitSets(w.seg, m.heads, x, nb);
    HoldFrame(m.bins, w.content, m.heads, SplitHeads(m.heads, x, nb, s), w.binned);
  }

  lemma SplitGained(m: Mem, w: View, footer: nat, held: set<Addr>, x: Addr, nb: nat, s: nat)
    requires Sound(m, w, footer, held) && x in held && s == Sz(m.heads, x) && SizeOk(nb) && nb + MIN_CHUNK_SIZE <= s
    ensures var h := SplitHeads(m.heads, x, nb, s);
      && Gained(w.seg, m.heads, w.seg.(tiles := w.seg.tiles + {x + nb}), h, x)
      && Sz(h, x) == nb && Sz(h, x + nb) == s - nb
  {
    assert TileOk(w.seg, m.heads, m.foots, x);
    TakeSplit(w.seg, m.heads, m.foots, x, nb);
    SplitSets(w.seg, m.heads, x, nb);
  }

  lemma SoundTop(m: Mem, w: View, footer: nat, held: set<Addr>, nb: nat)
    requires Sound(m, w, footer, held) && SizeOk(nb) && nb < m.topsize
    ensures var m' := m.(heads := SplitHeads(m.heads, m.top, nb, m.topsize), foots := m.foots[m.top + nb := footer],
                         top := m.top + nb, topsize := m.topsize - nb);
      var w' := w.(seg := CutTop(w.seg, nb));
      Sound(m', w', footer, held) && Gained(w.seg, m.heads, w'.seg, m'.heads, m.top) && Sz(m'.heads, m.top) == nb
  {
    TakeTop(w.seg, m.heads, m.foots, nb);
    TopSets(w.seg, m.heads, nb);
    HoldFrame(m.bins, w.content, m.heads, SplitHeads(m.heads, m.top, nb, m.topsize), w.binned);
  }

  /** In-use chunk p is gone, the others keep their sizes. */
  ghost predicate Lost(g: Segment, h: Heads, g': Segment, h': Heads, p: Addr) {
    InUse(g', h') == InUse(g, h) - {p} && KeepSizes(h, h', InUse(g, h) - {p})
  }

  /** The run of chunks from q up to n, one in-use chunk p and the free chunks in hand, becomes one free chunk in
      hand. */
  lemma SoundMerge(m: Mem, w: View, footer: nat, held: set<Addr>, q: Addr, n: Addr, p: Addr)
    requires Sound(m, w, footer, held) && q in w.seg.tiles && n in InUse(w.seg, m.heads) && q < n && SizeOk(n - q)
    requires q in m.heads && m.heads[q].pinuse && p in InUse(w.seg, m.heads)
    requires Run(w.seg, q, n) == held + {p}
    ensures var m' := m.(heads := MergeHeads(m.heads, q, n), foots := m.foots[n := n - q]);
      var w' := w.(seg := MergeRun(w.seg, q, n));
      && Sound(m', w', footer, {q}) && Lost(w.seg, m.heads, w'.seg, m'.heads, p) && Sz(m'.heads, q) == n - q
      && KeepSizes(m.heads, m'.heads, FreeChunks(w.seg, m.heads) - held)
  {
    assert TileOk(w.seg, m.heads, m.foots, n);
    MergeFree(w.seg, m.heads, m.foots, q, n);
    MergeSets(w.seg, m.heads, q, n);
    HoldFrame(m.bins, w.content, m.heads, MergeHeads(m.heads, q, n), w.binned);
  }

  /** The same where the run reaches the top chunk. */
  lemma SoundMergeTop(m: Mem, w: View, footer: nat, held: set<Addr>, q: Addr, p: Addr)
    requires Sound(m, w, footer, held) && q in w.seg.tiles && q in m.heads && m.heads[q].pinuse
    requires p in InUse(w.seg, m.heads)
    requires q <= m.top && Run(w.seg, q, m.top) == held + {p}
    ensures var s := m.top + m.topsize - q;
      var m' := m.(heads := m.heads[q := Head(s, false, true)], top := q, topsize := s);
      var w' := w.(seg := MergeIntoTop(w.seg, q));
      && Sound(m', w', footer, {}) && Lost(w.seg, m.heads, w'.seg, m'.heads, p)
      && KeepSizes(m.heads, m'.heads, FreeChunks(w.seg, m.heads) - held)
  {
    assert TileOk(w.seg, m.heads, m.foots, q);
    var s := m.top + m.topsize - q;
    MergeTop(w.seg, m.heads, m.foots, q, s);
    MergeTopSets(w.seg, m.heads, m.foots, q, s);
    HoldFrame(m.bins, w.content, m.heads, m.heads[q := Head(s, false, true)], w.binned);
  }

  // ---- moves between bins, dv and hand ---------------------------------------------------------------

  lemma SoundUnlink(m: Mem, w: View, footer: nat, held: set<Addr>, x: Addr, b: BinState, c: Content)
    requires Sound(m, w, footer, held) && x in w.binned && BinsHold(b, c, m.heads, w.binned - {x})
    ensures Sound(m.(bins := b), w.(content := c, binned := w.binned - {x}), footer, held + {x}) && x !in held
  {}

  lemma SoundInsert(m: Mem, w: View, footer: nat, held: set<Addr>, x: Addr, b: BinState, c: Content)
    requires Sound(m, w, footer, held) && x in held && BinsHold(b, c, m.heads, w.binned + {x})
    ensures Sound(m.(bins := b), w.(content := c, binned := w.binned + {x}), footer, held - {x})
  {}

  lemma SoundSetDv(m: Mem, w: View, footer: nat, held: set<Addr>, x: Addr, s: nat)
    requires Sound(m, w, footer, held) && m.dvsize == 0 && x in held && s == Sz(m.heads, x)
    ensures Sound(m.(dv := x, dvsize := s), w, footer, held - {x})
  {
    assert TileOk(w.seg, m.heads, m.foots, x);
  }

  lemma SoundDropDv(m: Mem, w: View, footer: nat, held: set<Addr>)
    requires Sound(m, w, footer, held) && m.dvsize != 0
    ensures Sound(m.(dv := 0, dvsize := 0), w, footer, held + {m.dv}) && m.dv !in held
  {}

  /** Sizes and addresses of free chunks. */
  lemma FreeFacts(m: Mem, w: View, footer: nat, held: set<Addr>, x: Addr)
    requires Sound(m, w, footer, held) && x in FreeChunks(w.seg, m.heads)
    ensures x > 0 && x % 8 == 0 && x in m.heads && SizeOk(Sz(m.heads, x)) && Sz(m.heads, x) < WORD
  {
    assert TileOk(w.seg, m.heads, m.foots, x);
    assert TileOk(w.seg, m.heads, m.foots, x + m.heads[x].size);
  }

  // ---- memory from the system ------------------------------------------------------------------------

  /** init_top on the head words: the new top and the fake chunk behind it. */
  function InitTop(h: Heads, p: Addr, s: nat): Heads {
    h[p := Head(s, false, true)][p + s := Head(TOP_FOOT_SIZE, false, false)]
  }

  lemma ExtendTiles(g: Segment, h: Heads, f: Foots, s: nat)
    requires Tiled(g, h, f) && s > 0
    ensures Tiled(g, InitTop(h, g.top, s), f)
    ensures InUse(g, InitTop(h, g.top, s)) == InUse(g, h) && FreeChunks(g, InitTop(h, g.top, s)) == FreeChunks(g, h)
    ensures KeepSizes(h, InitTop(h, g.top, s), g.tiles - {g.top})
  {
    var h' := InitTop(h, g.top, s);
    forall a | a in g.tiles ensures a <= g.top { assert TileOk(g, h, f, a); }
    forall a {:trigger TileOk(g, h', f, a)} | a in g.tiles ensures TileOk(g, h', f, a) {
      assert TileOk(g, h, f, a);
    }
  }

  /** sbrk gave k more bytes behind the segment. */
  lemma SoundExtend(m: Mem, w: View, footer: nat, k: nat)
    requires Sound(m, w, footer, {}) && k % 4096 == 0 && m.brk + k < WORD
    ensures var m' := m.(heads := InitTop(m.heads, m.top, m.topsize + k), topsize := m.topsize + k, brk := m.brk + k);
      && Sound(m', w, footer, {}) && InUse(w.seg, m'.heads) == InUse(w.seg, m.heads)
      && FreeChunks(w.seg, m'.heads) == FreeChunks(w.seg, m.heads)
      && KeepSizes(m.heads, m'.heads, w.seg.tiles - {m.top})
  {
    ExtendTiles(w.seg, m.heads, m.foots, m.topsize + k);
    HoldFrame(m.bins, w.content, m.heads, InitTop(m.heads, m.top, m.topsize + k), w.binned);
  }

  /** A zeroed malloc_state. */
  ghost predicate Zeroed(m: Mem, w: View) {
    && m.top == 0 && m.topsize == 0 && m.dv == 0 && m.dvsize == 0 && m.bins.smallmap == 0 && m.bins.treemap == 0
    && w.seg.tiles == {} && w.binned == {} && BinsHold(m.bins, w.content, m.heads, {})
    && 0 < m.brk < WORD && m.brk % 4096 == 0
  }

  lemma PageAligned(n: nat)
    requires n % 4096 == 0
    ensures n % 8 == 0 && (n > 0 ==> n >= 4096)
  {
    assert n == 8 * (512 * (n / 4096));
  }

  lemma FirstTiled(h: Heads, f: Foots, p: Addr, s: nat, footer: nat)
    requires p > 0 && p % 8 == 0 && s > 0
    ensures var g, h' := Segment({p}, p, p, footer), InitTop(h, p, s);
      Tiled(g, h', f) && InUse(g, h') == {} && FreeChunks(g, h') == {}
  {
    assert TileOk(Segment({p}, p, p, footer), InitTop(h, p, s), f, p);
  }

  /** The first k bytes from sbrk become the segment: one top chunk. */
  lemma SoundFirst(m: Mem, w: View, footer: nat, k: nat)
    requires Zeroed(m, w) && k % 4096 == 0 && k >= 4096 && m.brk + k < WORD
    ensures var s: nat := k - TOP_FOOT_SIZE;
      var m' := m.(heads := InitTop(m.heads, m.brk, s), top := m.brk, topsize := s, brk := m.brk + k);
      var w' := w.(seg := Segment({m.brk}, m.brk, m.brk, footer));
      Sound(m', w', footer, {}) && InUse(w'.seg, m'.heads) == {} && FreeChunks(w'.seg, m'.heads) == {}
  {
    HoldFrame(m.bins, w.content, m.heads, InitTop(m.heads, m.brk, k - TOP_FOOT_SIZE), {});
    PageAligned(m.brk);
    FirstTiled(m.heads, m.foots, m.brk, k - TOP_FOOT_SIZE, footer);
  }
}
