/** Boundary tags: the chunks of the segment tile it, and each header tells about its neighbours. */
module Tiles {
  import opened Bits
  import opened Chunks

  const MIN_CHUNK_SIZE := 16

  /** The prev_foot word of each chunk header. */
  type Foots = map<Addr, nat>

  /** The chunk addresses of the segment, from its first chunk up to the top chunk. */
  datatype Segment = Segment(tiles: set<Addr>, base: Addr, top: Addr, footer: nat)

  ghost predicate SizeOk(s: nat) { s >= MIN_CHUNK_SIZE && s % 8 == 0 }

  /** What the header of chunk a says about the chunk after it. */
  ghost predicate NextOk(g: Segment, h: Heads, f: Foots, a: Addr)
    requires a in h
  {
    var n := a + h[a].size;
    && SizeOk(h[a].size) && n in g.tiles && n in h && n in f
    && h[n].pinuse == h[a].cinuse
    && f[n] == (if h[a].cinuse then g.footer else h[a].size)
    && (!h[a].cinuse ==> h[a].pinuse && h[n].cinuse)
  }

  /** What a clear pinuse bit says: prev_foot leads to a free chunk that ends here. */
  ghost predicate PrevOk(g: Segment, h: Heads, f: Foots, a: Addr)
    requires a in h
  {
    !h[a].pinuse ==>
      a in f && f[a] > 0 && a - f[a] in g.tiles && a - f[a] in h && h[a - f[a]].size == f[a] && !h[a - f[a]].cinuse
  }

  ghost predicate TileOk(g: Segment, h: Heads, f: Foots, a: Addr) {
    && a in h && 0 < a && a % 8 == 0 && g.base <= a <= g.top
    && (a != g.top ==> NextOk(g, h, f, a)) && PrevOk(g, h, f, a)
  }

  ghost predicate AllTiles(g: Segment, h: Heads, f: Foots) {
    forall a {:trigger TileOk(g, h, f, a)} :: a in g.tiles ==> TileOk(g, h, f, a)
  }

  /** The chunks are disjoint. */
  ghost predicate Disjoint(g: Segment, h: Heads) {
    forall a, b :: a in g.tiles && b in g.tiles && a < b ==> a + Sz(h, a) <= b
  }

  /** The rules of check_any_chunk, check_inuse_chunk, check_free_chunk and check_top_chunk for a whole segment. */
  ghost predicate Tiled(g: Segment, h: Heads, f: Foots) {
    && g.base in g.tiles && g.top in g.tiles && Disjoint(g, h)
    && AllTiles(g, h, f)
    && g.base in h && h[g.base].pinuse && g.top in h && h[g.top].pinuse && !h[g.top].cinuse
  }

  ghost function InUse(g: Segment, h: Heads): set<Addr> {
    set a | a in g.tiles && a in h && h[a].cinuse
  }

  ghost function FreeChunks(g: Segment, h: Heads): set<Addr> {
    set a | a in g.tiles && a in h && !h[a].cinuse && a != g.top
  }

  /** Chunks of s keep their headers' size and in-use bit. */
  ghost predicate KeepSizes(h: Heads, h': Heads, s: set<Addr>) {
    forall a :: a in s && a in h ==> a in h' && h'[a].size == h[a].size && h'[a].cinuse == h[a].cinuse
  }

  lemma SameEnd(g: Segment, h: Heads, a: Addr, b: Addr)
    requires Disjoint(g, h) && a in g.tiles && b in g.tiles && Sz(h, a) > 0 && Sz(h, b) > 0
    requires a + Sz(h, a) == b + Sz(h, b)
    ensures a == b
  {}

  // ---- taking a free chunk -----------------------------------------------------------------------

  /** set_inuse_and_pinuse on the head words. */
  function TakeHeads(h: Heads, x: Addr, s: nat): Heads
    requires x + s in h
  {
    h[x := Head(s, true, true)][x + s := h[x + s].(pinuse := true)]
  }

  lemma TakeTile(g: Segment, h: Heads, f: Foots, x: Addr, a: Addr)
    requires TileOk(g, h, f, x) && TileOk(g, h, f, a) && x != g.top && !h[x].cinuse && x in g.tiles
    requires a != g.top && a != x ==> a + h[a].size != x + h[x].size
    requires !h[a].pinuse && a - f[a] != x ==> a != x + h[x].size
    requires h[x].size > 0
    ensures TileOk(g, TakeHeads(h, x, h[x].size), f[x + h[x].size := g.footer], a)
  {}

  /** Header writes that keep sizes keep the chunks apart. */
  lemma DisjointFrame(g: Segment, h: Heads, h': Heads)
    requires Disjoint(g, h) && forall a :: a in g.tiles ==> Sz(h', a) <= Sz(h, a)
    ensures Disjoint(g, h')
  {}

  lemma TakeTiles(g: Segment, h: Heads, f: Foots, x: Addr)
    requires Tiled(g, h, f) && x in FreeChunks(g, h) && TileOk(g, h, f, x)
    ensures AllTiles(g, TakeHeads(h, x, h[x].size), f[x + h[x].size := g.footer])
  {
    var h', f' := TakeHeads(h, x, h[x].size), f[x + h[x].size := g.footer];
    forall a {:trigger TileOk(g, h', f', a)} | a in g.tiles ensures TileOk(g, h', f', a) {
      assert TileOk(g, h, f, a);
      if a != g.top && a + h[a].size == x + h[x].size { SameEnd(g, h, a, x); }
      TakeTile(g, h, f, x, a);
    }
  }

  /** A free chunk taken whole: set_inuse_and_pinuse. */
  lemma TakeWhole(g: Segment, h: Heads, f: Foots, x: Addr)
    requires Tiled(g, h, f) && x in FreeChunks(g, h)
    ensures x + h[x].size in h && h[x].pinuse && x + h[x].size in g.tiles
    ensures var h' := TakeHeads(h, x, h[x].size); var f' := f[x + h[x].size := g.footer];
      && Tiled(g, h', f') && KeepSizes(h, h', g.tiles - {x})
  {
    assert TileOk(g, h, f, x);
    DisjointFrame(g, h, TakeHeads(h, x, h[x].size));
    TakeTiles(g, h, f, x);
  }

  lemma TakeSets(g: Segment, h: Heads, f: Foots, x: Addr)
    requires Tiled(g, h, f) && x in FreeChunks(g, h) && TileOk(g, h, f, x)
    ensures var h' := TakeHeads(h, x, h[x].size);
      InUse(g, h') == InUse(g, h) + {x} && FreeChunks(g, h') == FreeChunks(g, h) - {x}
  {}

  // ---- splitting a free chunk --------------------------------------------------------------------

  /** set_size_and_pinuse_of_inuse_chunk and set_size_and_pinuse_of_free_chunk on the head words. */
  function SplitHeads(h: Heads, x: Addr, nb: nat, s: nat): Heads
    requires nb <= s
  {
    h[x := Head(nb, true, true)][x + nb := Head(s - nb, false, true)]
  }

  /** The same two macros on the foot words. */
  function SplitFoots(f: Foots, x: Addr, nb: nat, s: nat, footer: nat): Foots
    requires nb <= s
  {
    f[x + nb := footer][x + s := s - nb]
  }

  lemma SplitTile(g: Segment, h: Heads, f: Foots, x: Addr, nb: nat, a: Addr)
    requires TileOk(g, h, f, x) && x in g.tiles && x != g.top && !h[x].cinuse
    requires SizeOk(nb) && nb <= h[x].size && SizeOk(h[x].size - nb) && x + nb !in g.tiles && x + h[x].size <= g.top
    requires a in g.tiles && TileOk(g, h, f, a)
    requires a != g.top && a != x ==> a + h[a].size != x + h[x].size
    requires !h[a].pinuse && a - f[a] != x ==> a != x + h[x].size
    ensures TileOk(g.(tiles := g.tiles + {x + nb}), SplitHeads(h, x, nb, h[x].size),
      SplitFoots(f, x, nb, h[x].size, g.footer), a)
  {}

  lemma SplitRest(g: Segment, h: Heads, f: Foots, x: Addr, nb: nat)
    requires TileOk(g, h, f, x) && x in g.tiles && x != g.top && !h[x].cinuse
    requires SizeOk(nb) && nb <= h[x].size && SizeOk(h[x].size - nb) && x + nb !in g.tiles && x + h[x].size <= g.top
    ensures TileOk(g.(tiles := g.tiles + {x + nb}), SplitHeads(h, x, nb, h[x].size),
      SplitFoots(f, x, nb, h[x].size, g.footer), x + nb)
  {}

  lemma SplitDisjoint(g: Segment, h: Heads, x: Addr, nb: nat, s: nat)
    requires Disjoint(g, h) && x in g.tiles && Sz(h, x) == s && 0 < nb < s
    ensures Disjoint(g.(tiles := g.tiles + {x + nb}), SplitHeads(h, x, nb, s)) && x + nb !in g.tiles
  {}

  lemma SplitTiles(g: Segment, h: Heads, f: Foots, x: Addr, nb: nat)
    requires Tiled(g, h, f) && x in FreeChunks(g, h) && TileOk(g, h, f, x) && x + nb !in g.tiles
    requires SizeOk(nb) && nb <= h[x].size && SizeOk(h[x].size - nb)
    ensures var g', h', f' := g.(tiles := g.tiles + {x + nb}), SplitHeads(h, x, nb, h[x].size),
      SplitFoots(f, x, nb, h[x].size, g.footer);
      AllTiles(g', h', f')
  {
    var g', h', f' := g.(tiles := g.tiles + {x + nb}), SplitHeads(h, x, nb, h[x].size),
      SplitFoots(f, x, nb, h[x].size, g.footer);
    assert TileOk(g, h, f, x + h[x].size);
    SplitRest(g, h, f, x, nb);
    forall a {:trigger TileOk(g', h', f', a)} | a in g.tiles ensures TileOk(g', h', f', a) {
      assert TileOk(g, h, f, a);
      if a != g.top && a + h[a].size == x + h[x].size { SameEnd(g, h, a, x); }
      SplitTile(g, h, f, x, nb, a);
    }
  }

  /** The front of a free chunk becomes an in-use chunk, the rest a smaller free one. */
  lemma TakeSplit(g: Segment, h: Heads, f: Foots, x: Addr, nb: nat)
    requires Tiled(g, h, f) && x in FreeChunks(g, h) && SizeOk(nb) && nb <= h[x].size && SizeOk(h[x].size - nb)
    ensures x + nb !in g.tiles && h[x].pinuse
    ensures Tiled(g.(tiles := g.tiles + {x + nb}), SplitHeads(h, x, nb, h[x].size),
      SplitFoots(f, x, nb, h[x].size, g.footer))
    ensures KeepSizes(h, SplitHeads(h, x, nb, h[x].size), g.tiles - {x})
  {
    assert TileOk(g, h, f, x);
    SplitDisjoint(g, h, x, nb, h[x].size);
    SplitTiles(g, h, f, x, nb);
  }

  lemma SplitSets(g: Segment, h: Heads, x: Addr, nb: nat)
    requires x in FreeChunks(g, h) && nb <= h[x].size && x + nb !in g.tiles && g.top != x + nb
    ensures var g', h' := g.(tiles := g.tiles + {x + nb}), SplitHeads(h, x, nb, h[x].size);
      && InUse(g', h') == InUse(g, h) + {x} && FreeChunks(g', h') == FreeChunks(g, h) - {x} + {x + nb}
  {}

  // ---- taking from the top chunk -----------------------------------------------------------------

  ghost function CutTop(g: Segment, nb: nat): Segment { g.(tiles := g.tiles + {g.top + nb}, top := g.top + nb) }

  lemma TopTile(g: Segment, h: Heads, f: Foots, nb: nat, a: Addr)
    requires TileOk(g, h, f, a) && a in g.tiles && TileOk(g, h, f, g.top) && g.top in g.tiles && h[g.top].pinuse
    requires !h[g.top].cinuse
    requires SizeOk(nb) && nb <= h[g.top].size && g.top + nb !in g.tiles
    ensures TileOk(CutTop(g, nb), SplitHeads(h, g.top, nb, h[g.top].size), f[g.top + nb := g.footer], a)
  {}

  lemma TopRest(g: Segment, h: Heads, f: Foots, nb: nat)
    requires TileOk(g, h, f, g.top) && SizeOk(nb) && nb <= h[g.top].size
    ensures TileOk(CutTop(g, nb), SplitHeads(h, g.top, nb, h[g.top].size), f[g.top + nb := g.footer], g.top + nb)
  {}

  lemma TopDisjoint(g: Segment, h: Heads, f: Foots, nb: nat)
    requires Tiled(g, h, f) && 0 < nb <= h[g.top].size
    ensures Disjoint(CutTop(g, nb), SplitHeads(h, g.top, nb, h[g.top].size)) && g.top + nb !in g.tiles
  {
    forall a | a in g.tiles ensures a <= g.top { assert TileOk(g, h, f, a); }
  }

  lemma TopTiles(g: Segment, h: Heads, f: Foots, nb: nat)
    requires Tiled(g, h, f) && SizeOk(nb) && nb <= h[g.top].size && g.top + nb !in g.tiles
    ensures var g', h', f' := CutTop(g, nb), SplitHeads(h, g.top, nb, h[g.top].size), f[g.top + nb := g.footer];
      AllTiles(g', h', f')
  {
    var g', h', f' := CutTop(g, nb), SplitHeads(h, g.top, nb, h[g.top].size), f[g.top + nb := g.footer];
    assert TileOk(g, h, f, g.top);
    TopRest(g, h, f, nb);
    forall a {:trigger TileOk(g', h', f', a)} | a in g.tiles ensures TileOk(g', h', f', a) {
      assert TileOk(g, h, f, a);
      TopTile(g, h, f, nb, a);
    }
  }

  /** The front of the top chunk becomes an in-use chunk. */
  lemma TakeTop(g: Segment, h: Heads, f: Foots, nb: nat)
    requires Tiled(g, h, f) && SizeOk(nb) && nb <= h[g.top].size
    ensures g.top + nb !in g.tiles
    ensures Tiled(CutTop(g, nb), SplitHeads(h, g.top, nb, h[g.top].size), f[g.top + nb := g.footer])
    ensures KeepSizes(h, SplitHeads(h, g.top, nb, h[g.top].size), g.tiles - {g.top})
  {
    TopDisjoint(g, h, f, nb);
    TopTiles(g, h, f, nb);
  }

  lemma TopSets(g: Segment, h: Heads, nb: nat)
    requires g.top in g.tiles && g.top in h && nb <= h[g.top].size && g.top + nb !in g.tiles && !h[g.top].cinuse
    requires nb > 0
    ensures var g', h' := CutTop(g, nb), SplitHeads(h, g.top, nb, h[g.top].size);
      && InUse(g', h') == InUse(g, h) + {g.top} && FreeChunks(g', h') == FreeChunks(g, h)
  {}

  // ---- freeing: a run of chunks becomes one free chunk ---------------------------------------------

  ghost function MergeRun(g: Segment, q: Addr, n: Addr): Segment {
    g.(tiles := (set a | a in g.tiles && (a <= q || n <= a)))
  }

  /** set_free_with_pinuse on the head words. */
  function MergeHeads(h: Heads, q: Addr, n: Addr): Heads
    requires n in h && q < n
  {
    h[q := Head(n - q, false, true)][n := h[n].(pinuse := false)]
  }

  lemma MergeTile(g: Segment, h: Heads, f: Foots, q: Addr, n: Addr, a: Addr)
    requires q in g.tiles && n in g.tiles && q < n && n % 8 == 0 && SizeOk(n - q) && q <= g.top && n <= g.top
    requires TileOk(g, h, f, q) && TileOk(g, h, f, n) && h[q].pinuse && h[n].cinuse && n < g.top
    requires a in g.tiles && TileOk(g, h, f, a) && (a <= q || n <= a)
    requires a < q ==> a + h[a].size <= q
    requires !h[a].pinuse && n < a ==> n <= a - f[a]
    requires a == n ==> n + h[n].size > n
    ensures TileOk(MergeRun(g, q, n), MergeHeads(h, q, n), f[n := n - q], a)
  {}

  lemma MergeTiles(g: Segment, h: Heads, f: Foots, q: Addr, n: Addr)
    requires Tiled(g, h, f) && q in g.tiles && n in InUse(g, h) && q < n && q in h && h[q].pinuse && SizeOk(n - q)
    ensures AllTiles(MergeRun(g, q, n), MergeHeads(h, q, n), f[n := n - q])
  {
    var g', h', f' := MergeRun(g, q, n), MergeHeads(h, q, n), f[n := n - q];
    assert TileOk(g, h, f, q) && TileOk(g, h, f, n);
    forall a {:trigger TileOk(g', h', f', a)} | a in g'.tiles ensures TileOk(g', h', f', a) {
      assert TileOk(g, h, f, a);
      assert a < q ==> a + h[a].size <= q;
      assert h[a].pinuse || a <= n || n <= a - f[a];
      MergeTile(g, h, f, q, n, a);
    }
  }

  lemma MergeDisjoint(g: Segment, h: Heads, q: Addr, n: Addr)
    requires Disjoint(g, h) && q in g.tiles && n in g.tiles && n in h && q < n
    ensures Disjoint(MergeRun(g, q, n), MergeHeads(h, q, n))
  {}

  /** Chunks from q up to the in-use chunk n become one free chunk. */
  lemma MergeFree(g: Segment, h: Heads, f: Foots, q: Addr, n: Addr)
    requires Tiled(g, h, f) && q in g.tiles && n in InUse(g, h) && q < n && q in h && h[q].pinuse && SizeOk(n - q)
    ensures Tiled(MergeRun(g, q, n), MergeHeads(h, q, n), f[n := n - q])
  {
    assert TileOk(g, h, f, q) && TileOk(g, h, f, n) && TileOk(g, h, f, g.base) && TileOk(g, h, f, g.top);
    MergeDisjoint(g, h, q, n);
    MergeTiles(g, h, f, q, n);
  }

  lemma MergeSets(g: Segment, h: Heads, q: Addr, n: Addr)
    requires q in g.tiles && n in InUse(g, h) && q < n && q != g.top
    ensures var g', h' := MergeRun(g, q, n), MergeHeads(h, q, n); var run := set a | a in g.tiles && q <= a < n;
      && InUse(g', h') == InUse(g, h) - run && FreeChunks(g', h') == FreeChunks(g, h) - run + {q}
      && KeepSizes(h, h', g.tiles - run)
  {}

  // ---- freeing next to the top chunk ---------------------------------------------------------------

  ghost function MergeIntoTop(g: Segment, q: Addr): Segment {
    g.(tiles := (set a | a in g.tiles && a <= q), top := q)
  }

  lemma TopMergeTile(g: Segment, h: Heads, f: Foots, q: Addr, s: nat, a: Addr)
    requires q in g.tiles && TileOk(g, h, f, q) && h[q].pinuse
    requires a in g.tiles && TileOk(g, h, f, a) && a <= q && (a < q ==> a + h[a].size <= q)
    ensures TileOk(MergeIntoTop(g, q), h[q := Head(s, false, true)], f, a)
  {}

  lemma MergeTop(g: Segment, h: Heads, f: Foots, q: Addr, s: nat)
    requires Tiled(g, h, f) && q in g.tiles && q in h && h[q].pinuse
    ensures Tiled(MergeIntoTop(g, q), h[q := Head(s, false, true)], f)
  {
    var g', h' := MergeIntoTop(g, q), h[q := Head(s, false, true)];
    assert TileOk(g, h, f, q) && TileOk(g, h, f, g.base) && TileOk(g, h, f, g.top);
    forall a {:trigger TileOk(g', h', f, a)} | a in g'.tiles ensures TileOk(g', h', f, a) {
      assert TileOk(g, h, f, a);
      assert a < q ==> a + h[a].size <= q;
      TopMergeTile(g, h, f, q, s, a);
    }
    assert Disjoint(g', h');
  }

  lemma MergeTopSets(g: Segment, h: Heads, f: Foots, q: Addr, s: nat)
    requires Tiled(g, h, f) && q in g.tiles
    ensures var g', h' := MergeIntoTop(g, q), h[q := Head(s, false, true)]; var run := Run(g, q, g.top);
      && InUse(g', h') == InUse(g, h) - run && FreeChunks(g', h') == FreeChunks(g, h) - run
      && KeepSizes(h, h', g.tiles - run - {g.top})
  {
    forall a | a in g.tiles ensures a <= g.top { assert TileOk(g, h, f, a); }
  }

  // ---- neighbours ----------------------------------------------------------------------------------

  /** The chunks that start in [q, n). */
  ghost function Run(g: Segment, q: Addr, n: Addr): set<Addr> { set a | a in g.tiles && q <= a < n }

  lemma OneTile(g: Segment, h: Heads, a: Addr)
    requires Disjoint(g, h) && a in g.tiles && Sz(h, a) > 0
    ensures Run(g, a, a + Sz(h, a)) == {a}
  {}

  lemma RunJoin(g: Segment, q: Addr, m: Addr, n: Addr)
    requires q <= m <= n
    ensures Run(g, q, n) == Run(g, q, m) + Run(g, m, n)
  {}

  /** An in-use chunk and the chunk after it. */
  lemma After(g: Segment, h: Heads, f: Foots, p: Addr)
    requires Tiled(g, h, f) && p in InUse(g, h)
    ensures var n := p + h[p].size;
      p != g.top && SizeOk(h[p].size) && n in g.tiles && n in h && h[n].pinuse && Run(g, p, n) == {p}
  {
    assert TileOk(g, h, f, p);
    OneTile(g, h, p);
  }

  /** The chunk before an in-use chunk whose pinuse bit is clear. */
  lemma Before(g: Segment, h: Heads, f: Foots, p: Addr)
    requires Tiled(g, h, f) && p in InUse(g, h) && !h[p].pinuse
    ensures p in f && var q := p - f[p];
      q in FreeChunks(g, h) && h[q].size == f[p] && SizeOk(f[p]) && h[q].pinuse && Run(g, q, p) == {q}
  {
    assert TileOk(g, h, f, p);
    var q := p - f[p];
    assert TileOk(g, h, f, q);
    assert q != g.top by { assert TileOk(g, h, f, p); }
    OneTile(g, h, q);
  }

  /** A free chunk and the in-use chunk after it. */
  lemma AfterFree(g: Segment, h: Heads, f: Foots, q: Addr)
    requires Tiled(g, h, f) && q in FreeChunks(g, h)
    ensures var n := q + h[q].size; SizeOk(h[q].size) && n in InUse(g, h) && h[q].pinuse && Run(g, q, n) == {q}
  {
    assert TileOk(g, h, f, q);
    OneTile(g, h, q);
  }

  // ---- what a tiling means ---------------------------------------------------------------------------

  /** The tiles from a on, counted down by address, cover every byte up to the end of the top chunk. */
  lemma {:induction false} Covered(g: Segment, h: Heads, f: Foots, a: Addr, x: int) returns (c: Addr)
    requires Tiled(g, h, f) && a in g.tiles && a <= x < g.top + h[g.top].size
    ensures c in g.tiles && c <= x < c + Sz(h, c)
    decreases g.top - a
  {
    assert TileOk(g, h, f, a);
    if a == g.top || x < a + h[a].size {
      c := a;
    } else {
      assert TileOk(g, h, f, a + h[a].size);
      c := Covered(g, h, f, a + h[a].size, x);
    }
  }

  /** Every byte of the segment lies in exactly one chunk. */
  lemma Partition(g: Segment, h: Heads, f: Foots, x: int)
    requires Tiled(g, h, f) && g.base <= x < g.top + h[g.top].size
    ensures exists c :: c in g.tiles && c <= x < c + Sz(h, c)
    ensures forall c, d :: c in g.tiles && d in g.tiles && c <= x < c + Sz(h, c) && d <= x < d + Sz(h, d) ==> c == d
  {
    var c := Covered(g, h, f, g.base, x);
  }
}
