/** The userland allocator: dlmalloc, dlfree and sys_alloc over this system's sbrk. */
module Malloc {
  import opened Bits
  import opened BinIndex
  import opened Chunks
  import opened TreeSearch
  import opened SmallBins
  import opened Bins
  import opened LargeBins
  import opened BinOps
  import opened Tiles
  import opened HeapInv
  import opened SmallFit

  const MAX_SMALL_REQUEST := 240
  const MIN_REQUEST := 7
  const MAX_REQUEST := 0xFFFF_FFC0
  const HALF_MAX := 0x7FFF_FFFF
  const SYS_ALLOC_PADDING := 48
  const TRIM_THRESHOLD := 0x20_0000

  /** pad_request: room for the two overhead words, rounded up to 8. */
  function PadRequest(bytes: nat): nat { (bytes + 15) / 8 * 8 }

  /** The chunk size dlmalloc looks for. */
  function ChunkFor(bytes: nat): nat {
    if bytes <= MAX_SMALL_REQUEST then (if bytes < MIN_REQUEST then MIN_CHUNK_SIZE else PadRequest(bytes))
    else if bytes >= MAX_REQUEST then WORD - 1
    else PadRequest(bytes)
  }

  /** granularity_align on 32-bit words. */
  function PageAlign(n: nat): nat { (n + 4095) % WORD / 4096 * 4096 }

  /** What sys_alloc asks sbrk for. */
  function GrowSize(nb: nat, topsize: nat, onTop: bool): nat
    requires nb >= topsize
  {
    PageAlign(nb - (if onTop then topsize else 0) + SYS_ALLOC_PADDING)
  }

  /** No free chunk has nb bytes. */
  ghost predicate NoneFits(m: Mem, w: View, nb: nat) {
    forall a :: a in FreeChunks(w.seg, m.heads) ==> Sz(m.heads, a) < nb
  }

  /** The address of top, or where the first segment will start. */
  ghost function TopAddr(m: Mem): Addr { if m.top == 0 then m.brk else m.top }

  /** No small bin has a chunk of nb bytes or of the next size. */
  ghost predicate NoExactBin(m: Mem, w: View, nb: nat) {
    forall a :: a in w.binned && Sz(m.heads, a) < MIN_LARGE_SIZE ==> Sz(m.heads, a) != nb && Sz(m.heads, a) != nb + 8
  }

  /** Where a chunk is taken from. A bin, if it is a best fit of the bins: where dv fits too, for a small request only
      without a remainder, and for a large one only if it is smaller than dv. dv, for a small request only if its bin
      and the next one are empty, and for a large one only if no binned chunk is smaller. top, if no free chunk fits.
      */
  ghost predicate WellChosen(m: Mem, w: View, p: Addr, nb: nat) {
    if p in w.binned then
      && IsBestFit(m.heads, w.binned, nb, p)
      && (nb <= m.dvsize ==> if nb < MIN_LARGE_SIZE then Sz(m.heads, p) <= nb + 8 else Sz(m.heads, p) < m.dvsize)
    else if p == TopAddr(m) then NoneFits(m, w, nb)
    else
      && p == m.dv && nb <= m.dvsize
      && (nb < MIN_LARGE_SIZE ==> NoExactBin(m, w, nb))
      && (nb >= MIN_LARGE_SIZE ==> forall a :: a in w.binned && Sz(m.heads, a) >= nb ==> m.dvsize <= Sz(m.heads, a))
  }

  /** What is left of a chunk of s bytes at p: nothing, or a chunk behind the nb bytes that are used. */
  ghost function Rest(p: Addr, nb: nat, s: nat): set<Addr> { if s < nb + MIN_CHUNK_SIZE then {} else {p + nb} }

  /** The chunk of s bytes at p serves nb: whole, if less than a chunk would be left. */
  ghost predicate Cut(h: Heads, p: Addr, nb: nat, s: nat) {
    if s < nb + MIN_CHUNK_SIZE then Sz(h, p) == s else Sz(h, p) == nb && Sz(h, p + nb) == s - nb
  }

  /** A binned chunk serves nb. What is left of it is binned for a large request; for a small one it becomes dv, and the
      old dv is binned. */
  ghost predicate FromBin(m: Mem, w: View, m': Mem, w': View, p: Addr, nb: nat) {
    var s := Sz(m.heads, p);
    && Cut(m'.heads, p, nb, s) && m'.top == m.top && m'.topsize == m.topsize && m'.brk == m.brk
    && if nb >= MIN_LARGE_SIZE || Rest(p, nb, s) == {} then
         w'.binned == w.binned - {p} + Rest(p, nb, s) && m'.dv == m.dv && m'.dvsize == m.dvsize
       else
         w'.binned == w.binned - {p} + DvSet(m.dv, m.dvsize) && m'.dv == p + nb && m'.dvsize == s - nb
  }

  /** dv serves nb. What is left of it is dv. */
  ghost predicate FromDv(m: Mem, w: View, m': Mem, w': View, p: Addr, nb: nat) {
    && Cut(m'.heads, p, nb, m.dvsize) && m'.top == m.top && m'.topsize == m.topsize && m'.brk == m.brk
    && w'.binned == w.binned
    && if Rest(p, nb, m.dvsize) == {} then m'.dv == 0 && m'.dvsize == 0
       else m'.dv == p + nb && m'.dvsize == m.dvsize - nb
  }

  /** The front of top serves nb, after top has grown if it was too small. */
  ghost predicate FromTop(m: Mem, w: View, m': Mem, w': View, p: Addr, nb: nat) {
    && Sz(m'.heads, p) == nb && m'.top == p + nb && w'.binned == w.binned && m'.dv == m.dv && m'.dvsize == m.dvsize
    && (nb < m.topsize ==> m'.topsize == m.topsize - nb && m'.brk == m.brk)
  }

  /** p is a new in-use chunk, well chosen, of nb bytes or up to 8 more; all other chunks are as before, and what is
      left of the chunk that p was cut from is free and kept in its place. */
  ghost predicate Served(m: Mem, w: View, m': Mem, w': View, p: Addr, nb: nat) {
    && Gained(w.seg, m.heads, w'.seg, m'.heads, p) && WellChosen(m, w, p, nb)
    && if p in w.binned then FromBin(m, w, m', w', p, nb)
       else if p == TopAddr(m) then FromTop(m, w, m', w', p, nb)
       else FromDv(m, w, m', w', p, nb)
  }

  /** The chunk handed out has room for nb bytes and wastes less than a chunk. */
  lemma ServedSize(m: Mem, w: View, m': Mem, w': View, p: Addr, nb: nat)
    requires Served(m, w, m', w', p, nb)
    ensures nb <= Sz(m'.heads, p) < nb + MIN_CHUNK_SIZE
  {}

  /** The free chunks afterwards: those before without the chosen one, and with what is left of it. */
  lemma ServedFree(m: Mem, w: View, footer: nat, m': Mem, w': View, p: Addr, nb: nat)
    requires Served(m, w, m', w', p, nb) && Sound(m, w, footer, {}) && Sound(m', w', footer, {}) && nb > 0
    ensures var free, free' := FreeChunks(w.seg, m.heads), FreeChunks(w'.seg, m'.heads);
      if p in free then free' == free - {p} + Rest(p, nb, Sz(m.heads, p)) else p == m.top && free' == free
    ensures forall a :: a in FreeChunks(w.seg, m.heads) && a != p ==> Sz(m'.heads, a) == Sz(m.heads, a)
    ensures p in FreeChunks(w.seg, m.heads) ==> Cut(m'.heads, p, nb, Sz(m.heads, p))
  {
    assert p == m.top ==> p !in FreeChunks(w.seg, m.heads);
    if p !in w.binned && p != m.top { assert p in DvSet(m.dv, m.dvsize); }
  }

  lemma DvFacts(m: Mem, w: View, footer: nat, held: set<Addr>)
    requires Sound(m, w, footer, held)
    ensures m.dvsize < WORD && m.dvsize % 8 == 0
  {
    if m.dvsize != 0 { FreeFacts(m, w, footer, held, m.dv); }
  }

  /** Where the chunk that p merges into starts: at the free chunk before it, if there is one. */
  ghost function FreeStart(m: Mem, p: Addr): Addr {
    if p in m.heads && !m.heads[p].pinuse && p in m.foots then p - m.foots[p] else p
  }

  /** Freeing p makes top larger than the trim threshold. */
  ghost predicate Trims(m: Mem, p: Addr) {
    p + Sz(m.heads, p) == m.top && m.topsize + (m.top - FreeStart(m, p)) > TRIM_THRESHOLD
  }

  /** The free chunks that freeing p merges with. */
  ghost function Merges(m: Mem, w: View, p: Addr): set<Addr> {
    {FreeStart(m, p), p + Sz(m.heads, p)} * FreeChunks(w.seg, m.heads)
  }

  /** The end of the free chunk that p becomes part of. */
  ghost function FreeEnd(m: Mem, w: View, p: Addr): Addr {
    var n := p + Sz(m.heads, p);
    if n in FreeChunks(w.seg, m.heads) then n + Sz(m.heads, n) else n
  }

  /** p has been freed. It is part of top if it ended there. Otherwise it is one free chunk with its free neighbours:
      dv, if one of these was dv, and else binned. All other free chunks are where they were. */
  ghost predicate Freed(m: Mem, w: View, m': Mem, w': View, p: Addr) {
    var q, e, gone := FreeStart(m, p), FreeEnd(m, w, p), Merges(m, w, p);
    var hadDv := DvSet(m.dv, m.dvsize) <= gone && m.dvsize != 0;
    && Lost(w.seg, m.heads, w'.seg, m'.heads, p) && KeepSizes(m.heads, m'.heads, FreeChunks(w.seg, m.heads) - gone)
    && m'.brk == m.brk
    && if e == m.top then
         && m'.top == q && m'.topsize == m.topsize + (m.top - q) && w'.binned == w.binned - gone
         && m'.dv == (if hadDv then 0 else m.dv) && m'.dvsize == (if hadDv then 0 else m.dvsize)
       else
         && m'.top == m.top && m'.topsize == m.topsize && Sz(m'.heads, q) == e - q
         && if hadDv then w'.binned == w.binned - gone && m'.dv == q && m'.dvsize == e - q
            else w'.binned == w.binned - gone + {q} && m'.dv == m.dv && m'.dvsize == m.dvsize
  }

  /** From (m, w) to (m', w'): the free chunk before p, if there is one, has been taken out of its bin or of dv. */
  ghost predicate PrevTaken(m: Mem, w: View, m': Mem, w': View, p: Addr) {
    var q := FreeStart(m, p); var wasDv := q != p && q == m.dv;
    && m' == m.(bins := m'.bins, dv := if wasDv then 0 else m.dv, dvsize := if wasDv then 0 else m.dvsize)
    && w' == w.(content := w'.content, binned := w.binned - Prev(m, p))
  }

  class MallocState {
    var bins: BinState
    var heads: Heads
    var foots: Foots
    var dv: Addr
    var dvsize: nat
    var top: Addr
    var topsize: nat
    var brk: nat
    var contiguous: bool
    const footer: nat
    ghost var view: View

    /** A zeroed malloc_state, with the program break at a page boundary. */
    constructor (end: nat, magic: nat)
      requires 0 < end < WORD && end % 4096 == 0
      ensures Unused() && contiguous && brk == end && footer == magic
    {
      bins := BinState(map[], map[], 0, 0, seq(NTREEBINS, i => 0));
      heads, foots := map[], map[];
      dv, dvsize, top, topsize, brk, contiguous := 0, 0, 0, 0, end, true;
      footer := magic;
      view := View(EmptyContent(), Segment({}, 0, 0, magic), {});
      new;
      EmptyBinsHold(bins, heads);
    }

    ghost function Now(): Mem
      reads this
    {
      Mem(bins, heads, foots, dv, dvsize, top, topsize, brk)
    }

    /** An initialised allocator, with the free chunks held in hand. */
    ghost predicate Live(held: set<Addr>)
      reads this
    {
      Sound(Now(), view, footer, held)
    }

    /** Before the first request. */
    ghost predicate Unused()
      reads this
    {
      Zeroed(Now(), view)
    }

    ghost predicate Valid()
      reads this
    {
      Unused() || Live({})
    }

    ghost function Allocated(): set<Addr>
      reads this
    {
      InUse(view.seg, heads)
    }

    ghost function Free(): set<Addr>
      reads this
    {
      FreeChunks(view.seg, heads)
    }

    // ---- header writes -----------------------------------------------------------------------

    /** set_inuse_and_pinuse on a free chunk in hand. */
    method UseWhole(x: Addr, s: nat)
      requires Live({x}) && s == Sz(heads, x)
      modifies this`heads, this`foots
      ensures Live({}) && Gained(view.seg, old(heads), view.seg, heads, x) && Sz(heads, x) == s
    {
      SoundTake(Now(), view, footer, {x}, x, s);
      assert {x} - {x} == {};
      heads, foots := TakeHeads(heads, x, s), foots[x + s := footer];
    }

    /** The front nb bytes of a free chunk in hand are put to use; the rest is in hand. */
    method UseFront(x: Addr, nb: nat, s: nat) returns (r: Addr)
      requires Live({x}) && s == Sz(heads, x) && SizeOk(nb) && nb + MIN_CHUNK_SIZE <= s
      modifies this`heads, this`foots, this`view
      ensures r == x + nb && Live({r}) && Gained(old(view.seg), old(heads), view.seg, heads, x)
      ensures Sz(heads, x) == nb && Sz(heads, r) == s - nb && view.binned == old(view.binned)
      ensures view.content == old(view.content)
    {
      SoundSplit(Now(), view, footer, {x}, x, nb, s);
      r := x + nb;
      assert {x} - {x} + {r} == {r};
      heads, foots := SplitHeads(heads, x, nb, s), SplitFoots(foots, x, nb, s, footer);
      view := view.(seg := view.seg.(tiles := view.seg.tiles + {x + nb}));
    }

    /** nb bytes from the front of top. */
    method UseTop(nb: nat) returns (p: Addr)
      requires Live({}) && SizeOk(nb) && nb < topsize
      modifies this`heads, this`foots, this`view, this`top, this`topsize
      ensures Live({}) && Gained(old(view.seg), old(heads), view.seg, heads, p) && p == old(top) && Sz(heads, p) == nb
      ensures top == old(top) + nb && topsize == old(topsize) - nb && view.binned == old(view.binned)
    {
      SoundTop(Now(), view, footer, {}, nb);
      p := top;
      heads, foots := SplitHeads(heads, p, nb, topsize), foots[p + nb := footer];
      top, topsize := p + nb, topsize - nb;
      view := view.(seg := CutTop(view.seg, nb));
    }

    // ---- bins and dv ------------------------------------------------------------------------------

    method BinChunk(x: Addr, s: nat)
      requires Live({x}) && Sz(heads, x) == s
      modifies this`bins, this`view
      ensures Live({}) && view.seg == old(view.seg) && view.binned == old(view.binned) + {x}
    {
      FreeFacts(Now(), view, footer, {x}, x);
      var b, c := Insert(bins, heads, x, s, view.content, view.binned);
      SoundInsert(Now(), view, footer, {x}, x, b, c);
      assert {x} - {x} == {};
      bins := b;
      view := view.(content := c, binned := view.binned + {x});
    }

    method UnbinChunk(x: Addr, s: nat, ghost held: set<Addr>)
      requires Live(held) && x in view.binned && Sz(heads, x) == s
      modifies this`bins, this`view
      ensures Live(held + {x}) && x !in held && view.seg == old(view.seg) && view.binned == old(view.binned) - {x}
    {
      var b, c := Unlink(bins, heads, x, s, view.content, view.binned);
      SoundUnlink(Now(), view, footer, held, x, b, c);
      bins := b;
      view := view.(content := c, binned := view.binned - {x});
    }

    /** replace_dv: the old dv goes to its small bin, the chunk in hand becomes dv. */
    method ReplaceDv(x: Addr, s: nat)
      requires Live({x}) && Sz(heads, x) == s && dvsize < MIN_LARGE_SIZE
      modifies this`bins, this`dv, this`dvsize, this`view
      ensures Live({}) && view.seg == old(view.seg) && dv == x && dvsize == s
      ensures view.binned == old(view.binned) + if old(dvsize) != 0 then {old(dv)} else {}
    {
      if dvsize != 0 {
        SoundDropDv(Now(), view, footer, {x});
        FreeFacts(Now(), view, footer, {x}, dv);
        var b, c := Insert(bins, heads, dv, dvsize, view.content, view.binned);
        SoundInsert(Now().(dv := 0, dvsize := 0), view, footer, {x} + {dv}, dv, b, c);
        assert {x} + {dv} - {dv} == {x};
        bins := b;
        view := view.(content := c, binned := view.binned + {dv});
        dv, dvsize := 0, 0;
      }
      SoundSetDv(Now(), view, footer, {x}, x, s);
      assert {x} - {x} == {};
      dvsize := s;
      dv := x;
    }

    // ---- malloc ------------------------------------------------------------------------------------

    /** The chunk in hand serves nb; what is left of it is binned. */
    method CutToBin(v: Addr, nb: nat, s: nat)
      requires Live({v}) && s == Sz(heads, v) && SizeOk(nb) && nb <= s
      modifies this`heads, this`foots, this`bins, this`view
      ensures Live({}) && Gained(old(view.seg), old(heads), view.seg, heads, v) && Cut(heads, v, nb, s)
      ensures view.binned == old(view.binned) + Rest(v, nb, s)
    {
      if s - nb < MIN_CHUNK_SIZE {
        UseWhole(v, s);
      } else {
        var r := UseFront(v, nb, s);
        BinChunk(r, s - nb);
      }
    }

    /** The chunk in hand serves nb; what is left of it becomes dv. */
    method CutToDv(v: Addr, nb: nat, s: nat)
      requires Live({v}) && s == Sz(heads, v) && SizeOk(nb) && nb <= s && dvsize < MIN_LARGE_SIZE
      modifies this`heads, this`foots, this`bins, this`view, this`dv, this`dvsize
      ensures Live({}) && Gained(old(view.seg), old(heads), view.seg, heads, v) && Cut(heads, v, nb, s)
      ensures if Rest(v, nb, s) == {} then view.binned == old(view.binned) && dv == old(dv) && dvsize == old(dvsize)
        else view.binned == old(view.binned) + DvSet(old(dv), old(dvsize)) && dv == v + nb && dvsize == s - nb
    {
      if s - nb < MIN_CHUNK_SIZE {
        UseWhole(v, s);
      } else {
        var r := UseFront(v, nb, s);
        ReplaceDv(r, s - nb);
      }
    }

    method TmallocLarge(nb: nat) returns (p: Addr)
      requires Live({}) && SizeOk(nb) && MIN_LARGE_SIZE <= nb < WORD
      modifies this
      ensures Live({}) && brk == old(brk) && contiguous == old(contiguous)
      ensures p == 0 ==> Now() == old(Now()) && view == old(view)
      ensures p == 0 ==> forall a :: a in view.binned && Sz(heads, a) >= nb ==> nb <= dvsize <= Sz(heads, a)
      ensures p != 0 ==> Served(old(Now()), old(view), Now(), view, p, nb) && p in old(view.binned)
    {
      ghost var m, w := Now(), view;
      var v, rsize := BestLarge(bins, heads, nb, view.content, view.binned);
      if v == 0 { return 0; }
      FreeFacts(m, w, footer, {}, v);
      DvFacts(m, w, footer, {});
      DvBetter(dvsize, rsize, nb, Sz(heads, v));
      if rsize >= (dvsize - nb) % WORD { return 0; }
      TakeLarge(v, nb, rsize);
      return v;
    }

    /** The best fit is taken out of its bin, and the rest of it goes into a bin. */
    method TakeLarge(v: Addr, nb: nat, rsize: nat)
      requires Live({}) && SizeOk(nb) && MIN_LARGE_SIZE <= nb < WORD && v in heads && rsize + nb == Sz(heads, v)
      requires IsBestFit(heads, view.binned, nb, v) && (dvsize < nb || rsize < dvsize - nb)
      modifies this
      ensures Live({}) && brk == old(brk) && contiguous == old(contiguous)
      ensures Served(old(Now()), old(view), Now(), view, v, nb)
    {
      FreeFacts(Now(), view, footer, {}, v);
      UnbinChunk(v, rsize + nb, {});
      assert {} + {v} == {v};
      CutToBin(v, nb, rsize + nb);
    }

    method TmallocSmall(nb: nat) returns (p: Addr)
      requires Live({}) && SizeOk(nb) && dvsize < nb < MIN_LARGE_SIZE && NoSmallFit(bins, nb) && bins.treemap != 0
      modifies this
      ensures Live({}) && brk == old(brk) && contiguous == old(contiguous)
      ensures p > 0 && Served(old(Now()), old(view), Now(), view, p, nb) && p in old(view.binned)
    {
      ghost var m, w := Now(), view;
      var v, rsize := BestSmall(bins, heads, nb, view.content, view.binned);
      FreeFacts(m, w, footer, {}, v);
      UnbinChunk(v, rsize + nb, {});
      assert {} + {v} == {v};
      CutToDv(v, nb, rsize + nb);
      return v;
    }

    /** The head of the lowest marked small bin that fits is taken in hand. */
    method UnbinSmall(nb: nat, i: nat) returns (p: Addr)
      requires Live({}) && nb % 8 == 0 && nb < 256 && LowestFrom(bins.smallmap, nb / 8, i)
      modifies this`bins, this`view
      ensures p > 0 && Live({p}) && view.seg == old(view.seg) && Sz(heads, p) == 8 * i
      ensures p in old(view.binned) && IsBestFit(heads, old(view.binned), nb, p)
      ensures view.binned == old(view.binned) - {p}
    {
      var b;
      ghost var c;
      p, b, c := TakeSmall(bins, heads, nb, i, view.content, view.binned);
      FreeFacts(Now(), view, footer, {}, p);
      SoundUnlink(Now(), view, footer, {}, p, b, c);
      assert {} + {p} == {p};
      bins := b;
      view := view.(content := c, binned := view.binned - {p});
    }

    /** A remainderless fit: bin i is that of nb or the next one. */
    method ServeExact(nb: nat, i: nat) returns (p: Addr)
      requires Live({}) && nb % 8 == 0 && nb < 256 && LowestFrom(bins.smallmap, nb / 8, i) && i <= nb / 8 + 1
      modifies this
      ensures Live({}) && brk == old(brk) && contiguous == old(contiguous)
      ensures p > 0 && Served(old(Now()), old(view), Now(), view, p, nb) && p in old(view.binned)
    {
      ghost var m, w := Now(), view;
      p := UnbinSmall(nb, i);
      UseWhole(p, 8 * i);
    }

    /** A chunk of the next non-empty small bin is split; the rest becomes dv. */
    method ServeNext(nb: nat, i: nat) returns (p: Addr)
      requires Live({}) && SizeOk(nb) && dvsize < nb < 256 && LowestFrom(bins.smallmap, nb / 8, i) && i >= nb / 8 + 2
      modifies this
      ensures Live({}) && brk == old(brk) && contiguous == old(contiguous)
      ensures p > 0 && Served(old(Now()), old(view), Now(), view, p, nb) && p in old(view.binned)
    {
      ghost var m, w := Now(), view;
      p := UnbinSmall(nb, i);
      CutToDv(p, nb, 8 * i);
    }

    /** The part of dlmalloc that serves a small request from the bins. */
    method MallocSmall(nb: nat) returns (p: Addr)
      requires Valid() && SizeOk(nb) && nb < MIN_LARGE_SIZE
      modifies this
      ensures Valid() && brk == old(brk) && contiguous == old(contiguous)
      ensures p == 0 ==> Now() == old(Now()) && view == old(view)
      ensures p == 0 ==> NoExactBin(Now(), view, nb)
      ensures p == 0 ==> nb <= dvsize || forall a :: a in view.binned ==> Sz(heads, a) < nb
      ensures p != 0 ==> Live({}) && Served(old(Now()), old(view), Now(), view, p, nb) && p in old(view.binned)
    {
      MapBounds(bins, view.content, heads, view.binned);
      var exact, i := ExactBin(bins.smallmap, nb / 8);
      if exact {
        if bins.smallmap == 0 { ZeroBits(i); }
        p := ServeExact(nb, i);
        return;
      }
      ExactBinsEmpty(bins, view.content, heads, view.binned, nb);
      if nb <= dvsize { return 0; }
      var found;
      found, i := NextSmallBin(bins.smallmap, nb / 8);
      if found {
        if bins.smallmap == 0 { ZeroBits(i); }
        p := ServeNext(nb, i);
        return;
      }
      if bins.treemap != 0 {
        p := TmallocSmall(nb);
        return;
      }
      NothingFits(bins, view.content, heads, view.binned, nb);
      return 0;
    }

    /** The chunk comes from dv. */
    method UseDv(nb: nat) returns (p: Addr)
      requires Live({}) && SizeOk(nb) && nb <= dvsize
      modifies this
      ensures Live({}) && brk == old(brk) && contiguous == old(contiguous) && p == old(dv) && p != old(top)
      ensures Gained(old(view.seg), old(heads), view.seg, heads, p) && p !in old(view.binned)
      ensures FromDv(old(Now()), old(view), Now(), view, p, nb)
    {
      var rsize := dvsize - nb;
      p := dv;
      SoundDropDv(Now(), view, footer, {});
      assert {} + {dv} == {dv};
      var s := dvsize;
      dv, dvsize := 0, 0;
      if rsize >= MIN_CHUNK_SIZE {
        var r := UseFront(p, nb, s);
        SoundSetDv(Now(), view, footer, {r}, r, rsize);
        assert {r} - {r} == {};
        dv := r;
        dvsize := rsize;
      } else {
        UseWhole(p, s);
      }
    }

    // ---- memory from the system ------------------------------------------------------------------------

    /** sys_alloc over sbrk and mmap. mapped says whether mmap maps the pages behind the break; where it does not,
        sbrk stops the program. A break that would pass 2^32 wraps: mmap's loops then run over no page, nothing is
        mapped, and sbrk reports success. On the contiguous path the code goes on with memory that is not there, and
        this model ends; on the other path it returns null. */
    method SysAlloc(nb: nat, mapped: bool) returns (p: Addr, halted: bool, wrapped: bool)
      requires Valid() && nb < WORD && topsize <= nb && (SizeOk(nb) || nb == WORD - 1)
      modifies this
      ensures halted <==> Refused(old(Now()), nb, old(contiguous), mapped)
      ensures wrapped <==> Wraps(old(Now()), nb, old(contiguous))
      ensures halted ==> Valid() && Now() == old(Now()) && view == old(view) && contiguous == old(contiguous)
      ensures wrapped ==> p == (if old(contiguous) then old(TopAddr(Now())) else 0)
      ensures wrapped ==> brk == old(brk + GrowSize(nb, topsize, top != 0 && contiguous)) - WORD < old(brk)
      ensures !halted && !wrapped ==> (p == 0 <==> CannotGrow(nb, old(topsize), old(top != 0 && contiguous)))
      ensures !halted && !wrapped && p == 0 ==> Valid() && Now() == old(Now()) && view == old(view)
      ensures !halted && !wrapped ==> contiguous == StaysContiguous(nb, old(topsize), old(top), old(contiguous))
      ensures !halted && !wrapped && p != 0 ==> Live({}) && p == old(TopAddr(Now())) && Sz(heads, p) == nb
      ensures !halted && !wrapped && p != 0 ==> Gained(old(view.seg), old(heads), view.seg, heads, p)
      ensures !halted && !wrapped && p != 0 ==> brk == old(brk + GrowSize(nb, topsize, top != 0 && contiguous))
      ensures !halted && !wrapped && p != 0 ==> FromTop(old(Now()), old(view), Now(), view, p, nb)
    {
      halted, wrapped, p := false, false, 0;
      var asize := PageAlign(nb + SYS_ALLOC_PADDING);
      GrowFacts(nb, topsize, top != 0 && contiguous);
      if asize <= nb { return; }
      var ssize := GrowSize(nb, topsize, top != 0 && contiguous);
      if ssize >= HALF_MAX {
        contiguous := false;
        return;
      }
      if brk + ssize >= WORD {
        p := if !contiguous then 0 else if top == 0 then brk else top;
        brk, wrapped := brk + ssize - WORD, true;
        return;
      }
      if !mapped {
        halted := true;
        return;
      }
      if top == 0 {
        FirstSegment(ssize);
      } else {
        ExtendSegment(ssize);
      }
      p := UseTop(nb);
    }

    method FirstSegment(k: nat)
      requires Unused() && k % 4096 == 0 && k >= 4096 && brk + k < WORD
      modifies this
      ensures Live({}) && top == old(brk) && topsize == k - TOP_FOOT_SIZE && Allocated() == {} == Free()
      ensures brk == old(brk) + k && contiguous == old(contiguous)
      ensures view.binned == old(view.binned) && dv == old(dv) && dvsize == old(dvsize)
    {
      var rl := InitBins(bins.rl);
      EmptyBins(bins, view.content, heads, rl);
      bins := bins.(rl := rl);
      SoundFirst(Now(), view, footer, k);
      heads := InitTop(heads, brk, k - TOP_FOOT_SIZE);
      view := view.(seg := Segment({brk}, brk, brk, footer));
      top, topsize, brk := brk, k - TOP_FOOT_SIZE, brk + k;
    }

    method ExtendSegment(k: nat)
      requires Live({}) && k % 4096 == 0 && brk + k < WORD
      modifies this`heads, this`topsize, this`brk
      ensures Live({}) && top == old(top) && topsize == old(topsize) + k && brk == old(brk) + k
      ensures Allocated() == old(Allocated()) && KeepSizes(old(heads), heads, view.seg.tiles - {top})
    {
      SoundExtend(Now(), view, footer, k);
      heads := InitTop(heads, top, topsize + k);
      topsize, brk := topsize + k, brk + k;
    }

    // ---- dlmalloc ----------------------------------------------------------------------------------------

    /** The part of dlmalloc that serves a request from the bins. */
    method FromBins(nb: nat) returns (p: Addr)
      requires Valid() && nb < WORD && (SizeOk(nb) || nb == WORD - 1)
      modifies this
      ensures Valid() && brk == old(brk) && contiguous == old(contiguous)
      ensures p == 0 ==> Now() == old(Now()) && view == old(view)
      ensures nb == WORD - 1 ==> p == 0
      ensures p == 0 && nb >= MIN_LARGE_SIZE ==> forall a ::
        a in view.binned && Sz(heads, a) >= nb ==> nb <= dvsize <= Sz(heads, a)
      ensures p == 0 && nb < MIN_LARGE_SIZE ==> NoExactBin(Now(), view, nb)
      ensures p == 0 ==> nb <= dvsize || forall a :: a in view.binned ==> Sz(heads, a) < nb
      ensures p != 0 ==> Live({}) && Served(old(Now()), old(view), Now(), view, p, nb) && p in old(view.binned)
    {
      if nb < MIN_LARGE_SIZE {
        p := MallocSmall(nb);
      } else if nb == WORD - 1 {
        SizesBounded(Now(), view, footer);
        return 0;
      } else if bins.treemap != 0 {
        p := TmallocLarge(nb);
      } else {
        NoTrees(bins, view.content, heads, view.binned);
        return 0;
      }
    }

    /** The part of dlmalloc that serves a request from memory at hand: it fails, changing nothing, exactly if no free
        chunk fits and top is too small. */
    method FromFree(nb: nat) returns (p: Addr)
      requires Valid() && nb < WORD && (SizeOk(nb) || nb == WORD - 1)
      modifies this
      ensures Valid() && contiguous == old(contiguous) && (p == 0 <==> Grows(old(Now()), old(view), nb))
      ensures p == 0 ==> Now() == old(Now()) && view == old(view)
      ensures p != 0 ==> Live({}) && Served(old(Now()), old(view), Now(), view, p, nb) && SizeOk(nb)
    {
      ghost var m, w := Now(), view;
      SizesBounded(m, w, footer);
      p := FromBins(nb);
      if p != 0 {
        BinnedFits(m, w, footer, nb, p);
      } else if nb <= dvsize {
        DvFits(m, w, footer, nb);
        p := UseDv(nb);
      } else {
        NoFreeFit(m, w, footer, nb);
        if nb < topsize { p := UseTop(nb); }
      }
    }

    /** The part of dlmalloc that serves a request from new memory. */
    method FromSystem(nb: nat, mapped: bool) returns (p: Addr, halted: bool, wrapped: bool)
      requires Valid() && nb < WORD && (SizeOk(nb) || nb == WORD - 1) && Grows(Now(), view, nb)
      modifies this
      ensures halted <==> Refused(old(Now()), nb, old(contiguous), mapped)
      ensures wrapped <==> Wraps(old(Now()), nb, old(contiguous))
      ensures halted ==> Valid() && Now() == old(Now()) && view == old(view) && contiguous == old(contiguous)
      ensures wrapped ==> p == (if old(contiguous) then old(TopAddr(Now())) else 0)
      ensures !halted && !wrapped ==> (p == 0 <==> CannotGrow(nb, old(topsize), old(top != 0 && contiguous)))
      ensures !halted && !wrapped && p == 0 ==> Valid() && Now() == old(Now()) && view == old(view)
      ensures !halted && !wrapped ==> contiguous == StaysContiguous(nb, old(topsize), old(top), old(contiguous))
      ensures !halted && !wrapped && p != 0 ==> Live({}) && p == old(TopAddr(Now()))
      ensures !halted && !wrapped && p != 0 ==> Served(old(Now()), old(view), Now(), view, p, nb)
      ensures !halted && !wrapped && p != 0 ==> brk == old(brk + GrowSize(nb, topsize, top != 0 && contiguous))
    {
      p, halted, wrapped := SysAlloc(nb, mapped);
      if !halted && !wrapped && p != 0 { ServedTop(old(Now()), old(view), footer, Now(), view, p, nb); }
    }

    /** The chunk for a request: from memory at hand, or else from the system. */
    method GetChunk(nb: nat, mapped: bool) returns (p: Addr, halted: bool, wrapped: bool)
      requires Valid() && nb < WORD && (SizeOk(nb) || nb == WORD - 1)
      modifies this
      ensures !wrapped ==> Valid()
      ensures !halted && !wrapped && p != 0 ==> Live({}) && Served(old(Now()), old(view), Now(), view, p, nb)
      ensures halted || (!wrapped && p == 0) ==> Now() == old(Now()) && view == old(view)
      ensures halted ==> contiguous == old(contiguous)
      ensures halted <==> Grows(old(Now()), old(view), nb) && Refused(old(Now()), nb, old(contiguous), mapped)
      ensures wrapped <==> Grows(old(Now()), old(view), nb) && Wraps(old(Now()), nb, old(contiguous))
      ensures !halted && !wrapped ==>
        (p == 0 <==>
         Grows(old(Now()), old(view), nb) && CannotGrow(nb, old(topsize), old(top != 0 && contiguous)))
      ensures wrapped ==> p == if old(contiguous) then old(TopAddr(Now())) else 0
      ensures !halted && !wrapped ==>
        contiguous == if Grows(old(Now()), old(view), nb)
          then StaysContiguous(nb, old(topsize), old(top), old(contiguous)) else old(contiguous)
      ensures Grows(old(Now()), old(view), nb) && !halted && !wrapped && p != 0 ==>
        brk == old(brk) + GrowSize(nb, old(topsize), old(top != 0 && contiguous)) && p == old(TopAddr(Now()))
      ensures nb == WORD - 1 ==> !halted && !wrapped && p == 0
    {
      halted, wrapped := false, false;
      p := FromFree(nb);
      if p == 0 { p, halted, wrapped := FromSystem(nb, mapped); }
    }

    /** dlmalloc. It turns to the system exactly if no free chunk fits and top is too small, and then gives null,
        stops or goes past the address space exactly as sys_alloc does. */
    method Dlmalloc(bytes: nat, mapped: bool) returns (mem: Addr, halted: bool, wrapped: bool)
      requires Valid() && bytes < WORD
      modifies this
      ensures !wrapped ==> Valid()
      ensures !halted && !wrapped && mem != 0 ==>
        Live({}) && Served(old(Now()), old(view), Now(), view, mem - 8, ChunkFor(bytes))
      ensures !halted && !wrapped && mem != 0 ==> mem % 8 == 0 && Sz(heads, mem - 8) >= bytes + 8
      ensures halted ==> Now() == old(Now()) && view == old(view) && contiguous == old(contiguous)
      ensures !halted && !wrapped && mem == 0 ==> Now() == old(Now()) && view == old(view)
      ensures var nb := ChunkFor(bytes);
        && (halted <==> Grows(old(Now()), old(view), nb) && Refused(old(Now()), nb, old(contiguous), mapped))
        && (wrapped <==> Grows(old(Now()), old(view), nb) && Wraps(old(Now()), nb, old(contiguous)))
        && (!halted && !wrapped ==>
              (mem == 0 <==> && Grows(old(Now()), old(view), nb)
                             && CannotGrow(nb, old(topsize), old(top != 0 && contiguous))))
      ensures wrapped && old(contiguous) ==> mem == old(TopAddr(Now())) + 8
      ensures wrapped && !old(contiguous) ==> mem == 0
      ensures var nb := ChunkFor(bytes);
        !halted && !wrapped ==>
          contiguous == if Grows(old(Now()), old(view), nb)
            then StaysContiguous(nb, old(topsize), old(top), old(contiguous))
                        else old(contiguous)
      ensures var nb := ChunkFor(bytes);
        Grows(old(Now()), old(view), nb) && !halted && !wrapped && mem != 0 ==>
          brk == old(brk) + GrowSize(nb, old(topsize), old(top != 0 && contiguous)) && mem - 8 == old(TopAddr(Now()))
      ensures bytes >= MAX_REQUEST ==> !halted && !wrapped && mem == 0
    {
      RequestFacts(bytes);
      var nb := ChunkFor(bytes);
      var p;
      p, halted, wrapped := GetChunk(nb, mapped);
      if halted || p == 0 { return 0, halted, wrapped; }
      if wrapped { return p + 8, false, true; }
      ServedSize(old(Now()), old(view), Now(), view, p, nb);
      AllocatedFacts(Now(), view, footer, p);
      return p + 8, false, false;
    }

    // ---- dlfree ------------------------------------------------------------------------------------------

    /** The header writes that make the chunks from q to n one free chunk in hand. */
    method SetFree(q: Addr, n: Addr, ghost p: Addr, ghost held: set<Addr>)
      requires Live(held) && q in view.seg.tiles && n in Allocated() && q < n && SizeOk(n - q)
      requires q in heads && heads[q].pinuse && p in Allocated() && Run(view.seg, q, n) == held + {p}
      modifies this`heads, this`foots, this`view
      ensures Live({q}) && Lost(old(view.seg), old(heads), view.seg, heads, p) && Sz(heads, q) == n - q
      ensures view.binned == old(view.binned) && KeepSizes(old(heads), heads, old(Free()) - held)
    {
      SoundMerge(Now(), view, footer, held, q, n, p);
      heads, foots := MergeHeads(heads, q, n), foots[n := n - q];
      view := view.(seg := MergeRun(view.seg, q, n));
    }

    /** The chunk in hand becomes dv. */
    method SetDv(q: Addr, s: nat)
      requires Live({q}) && dvsize == 0 && s == Sz(heads, q)
      modifies this`dv, this`dvsize
      ensures Live({}) && dv == q && dvsize == s
    {
      SoundSetDv(Now(), view, footer, {q}, q, s);
      assert {q} - {q} == {};
      dv, dvsize := q, s;
    }

    /** dv is taken in hand. */
    method DropDv(ghost held: set<Addr>)
      requires Live(held) && dvsize != 0
      modifies this`dv, this`dvsize
      ensures Live(held + {old(dv)}) && old(dv) !in held && dv == 0 && dvsize == 0
    {
      SoundDropDv(Now(), view, footer, held);
      dv, dvsize := 0, 0;
    }

    /** Consolidation with top. */
    method MergeWithTop(q: Addr, ghost p: Addr, ghost held: set<Addr>)
      requires Live(held) && q in view.seg.tiles && q <= top && q in heads && heads[q].pinuse
      requires p in Allocated() && Run(view.seg, q, top) == held + {p}
      modifies this`heads, this`top, this`topsize, this`view
      ensures Live({}) && Lost(old(view.seg), old(heads), view.seg, heads, p)
      ensures top == q && topsize == old(topsize) + (old(top) - q)
      ensures view.binned == old(view.binned) && KeepSizes(old(heads), heads, old(Free()) - held)
    {
      SoundMergeTop(Now(), view, footer, held, q, p);
      var s := topsize + (top - q);
      ghost var m := Now().(heads := heads[q := Head(s, false, true)], top := q, topsize := s);
      assert s == top + topsize - q;
      heads, top, topsize := heads[q := Head(s, false, true)], q, s;
      view := view.(seg := MergeIntoTop(view.seg, q));
      assert Now() == m;
    }

    /** Consolidation backward: the free chunk before p, if there is one, is taken in hand. */
    method TakePrev(p: Addr) returns (q: Addr, wasDv: bool, ghost held: set<Addr>)
      requires Live({}) && p in Allocated()
      modifies this`bins, this`dv, this`dvsize, this`view
      ensures Live(held) && view.seg == old(view.seg) && q in view.seg.tiles && q in heads && heads[q].pinuse
      ensures q <= p && Run(view.seg, q, p) == held && (q == p || SizeOk(p - q)) && (wasDv ==> dvsize == 0)
      ensures q == FreeStart(old(Now()), p) && held == Prev(old(Now()), p) && (wasDv <==> q != p && q == old(dv))
      ensures PrevTaken(old(Now()), old(view), Now(), view, p)
    {
      q, wasDv, held := p, false, {};
      if !heads[p].pinuse {
        Before(view.seg, heads, foots, p);
        q := p - foots[p];
        FreeFacts(Now(), view, footer, {}, q);
        held := {q};
        assert {} + {q} == {q};
        if q != dv {
          UnbinChunk(q, foots[p], {});
        } else {
          DropDv({});
          wasDv := true;
        }
      }
    }

    /** The run from q to the in-use chunk n becomes free, as dv or in a bin. */
    method FreeRun(q: Addr, n: Addr, toDv: bool, ghost p: Addr, ghost held: set<Addr>)
      requires Live(held) && q in view.seg.tiles && n in Allocated() && q < n && SizeOk(n - q) && (toDv ==> dvsize == 0)
      requires q in heads && heads[q].pinuse && p in Allocated() && Run(view.seg, q, n) == held + {p}
      modifies this
      ensures Live({}) && Lost(old(view.seg), old(heads), view.seg, heads, p)
      ensures top == old(top) && topsize == old(topsize) && brk == old(brk) && contiguous == old(contiguous)
      ensures Sz(heads, q) == n - q && KeepSizes(old(heads), heads, old(Free()) - held)
      ensures if toDv then dv == q && dvsize == n - q && view.binned == old(view.binned)
        else dv == old(dv) && dvsize == old(dvsize) && view.binned == old(view.binned) + {q}
    {
      SetFree(q, n, p, held);
      if toDv { SetDv(q, n - q); } else { BinChunk(q, n - q); }
    }

    /** Consolidation forward with a free chunk that is not top. */
    method MergeWithNext(q: Addr, next: Addr, wasDv: bool, ghost p: Addr, ghost held: set<Addr>)
      requires Live(held) && q in view.seg.tiles && q < next && SizeOk(next - q) && (wasDv ==> dvsize == 0)
      requires next in Free() && next !in held && q in heads && heads[q].pinuse && p in Allocated()
      requires Run(view.seg, q, next) == held + {p}
      modifies this
      ensures Live({}) && Lost(old(view.seg), old(heads), view.seg, heads, p)
      ensures top == old(top) && topsize == old(topsize) && brk == old(brk) && contiguous == old(contiguous)
      ensures var end := next + old(Sz(heads, next));
        && Sz(heads, q) == end - q && KeepSizes(old(heads), heads, old(Free()) - held - {next})
        && if wasDv || next == old(dv) then dv == q && dvsize == end - q && view.binned == old(view.binned) - {next}
           else dv == old(dv) && dvsize == old(dvsize) && view.binned == old(view.binned) - {next} + {q}
    {
      AfterFree(view.seg, heads, foots, next);
      FreeFacts(Now(), view, footer, held, next);
      var nsize := heads[next].size;
      var end := next + nsize;
      RunJoin(view.seg, q, next, end);
      SizesAdd(next - q, nsize);
      assert held + {p} + {next} == held + {next} + {p};
      if next == dv {
        DropDv(held);
        FreeRun(q, end, true, p, held + {next});
      } else {
        UnbinChunk(next, nsize, held);
        FreeRun(q, end, wasDv, p, held + {next});
      }
    }

    /** The chunk behind is in use. */
    method FreeAlone(q: Addr, next: Addr, wasDv: bool, p: Addr, ghost held: set<Addr>, ghost m: Mem, ghost w: View)
      requires Sound(m, w, footer, {}) && PrevTaken(m, w, Now(), view, p) && p in InUse(w.seg, m.heads)
      requires q == FreeStart(m, p) && held == Prev(m, p) && (wasDv <==> q != p && q == m.dv)
      requires Live(held) && q in view.seg.tiles && next in Allocated() && q < next && SizeOk(next - q)
      requires q in heads && heads[q].pinuse && next == p + Sz(heads, p) && Run(view.seg, q, next) == held + {p}
      modifies this
      ensures Live({}) && Freed(m, w, Now(), view, p) && contiguous == old(contiguous)
    {
      FreeRun(q, next, wasDv, p, held);
      FreedRun(m, w, footer, Now(), view, p);
    }

    /** The chunk behind is top. */
    method FreeToTop(q: Addr, p: Addr, ghost held: set<Addr>, ghost m: Mem, ghost w: View)
      requires Sound(m, w, footer, {}) && PrevTaken(m, w, Now(), view, p) && p in InUse(w.seg, m.heads)
      requires q == FreeStart(m, p) && held == Prev(m, p)
      requires Live(held) && q in view.seg.tiles && q <= top && q in heads && heads[q].pinuse
      requires top == p + Sz(heads, p) && Run(view.seg, q, top) == held + {p}
      modifies this
      ensures Live({}) && Freed(m, w, Now(), view, p) && contiguous == old(contiguous)
      ensures topsize == m.topsize + (m.top - q)
    {
      MergeWithTop(q, p, held);
      FreedTop(m, w, footer, Now(), view, p);
    }

    /** The chunk behind is free. */
    method FreeWithNext(q: Addr, next: Addr, wasDv: bool, p: Addr, ghost held: set<Addr>, ghost m: Mem, ghost w: View)
      requires Sound(m, w, footer, {}) && PrevTaken(m, w, Now(), view, p) && p in InUse(w.seg, m.heads)
      requires q == FreeStart(m, p) && held == Prev(m, p) && (wasDv <==> q != p && q == m.dv)
      requires Live(held) && q in view.seg.tiles && q < next && SizeOk(next - q)
      requires next in Free() && next !in held && q in heads && heads[q].pinuse
      requires next == p + Sz(heads, p) && Run(view.seg, q, next) == held + {p}
      modifies this
      ensures Live({}) && Freed(m, w, Now(), view, p) && contiguous == old(contiguous)
    {
      MergeWithNext(q, next, wasDv, p, held);
      FreedNext(m, w, footer, Now(), view, p);
    }

    /** dlfree. sys_trim asks sbrk to shrink, which stops the program: freeing halts exactly if the chunk lies
        before top, and together with the free chunk before it makes top larger than the threshold. */
    method Dlfree(mem: Addr) returns (halted: bool)
      requires mem == 0 || (Live({}) && mem - 8 in Allocated())
      modifies this
      ensures mem == 0 ==> !halted && Now() == old(Now()) && view == old(view)
      ensures mem != 0 ==> Live({}) && Freed(old(Now()), old(view), Now(), view, mem - 8)
      ensures mem != 0 ==> (halted <==> Trims(old(Now()), mem - 8))
      ensures contiguous == old(contiguous)
    {
      halted := false;
      if mem == 0 { return; }
      ghost var m, w := Now(), view;
      var p := mem - 8;
      var psize := heads[p].size;
      var next := p + psize;
      After(view.seg, heads, foots, p);
      var q, wasDv;
      ghost var held;
      q, wasDv, held := TakePrev(p);
      RunJoin(view.seg, q, p, next);
      SizesAdd(p - q, psize);
      if heads[next].cinuse {
        FreeAlone(q, next, wasDv, p, held, m, w);
      } else if next == top {
        FreeToTop(q, p, held, m, w);
        halted := topsize > TRIM_THRESHOLD;
      } else {
        FreeWithNext(q, next, wasDv, p, held, m, w);
      }
    }
  }

  ghost function Prev(m: Mem, p: Addr): set<Addr> { if FreeStart(m, p) == p then {} else {FreeStart(m, p)} }

  /** What p merges with, case by case. */
  lemma MergesIs(m: Mem, w: View, footer: nat, p: Addr)
    requires Sound(m, w, footer, {}) && p in InUse(w.seg, m.heads)
    ensures var n := p + Sz(m.heads, p);
      && n in m.heads && Prev(m, p) <= FreeChunks(w.seg, m.heads) && FreeStart(m, p) <= p < n
      && Merges(m, w, p) == Prev(m, p) + (if n == m.top || m.heads[n].cinuse then {} else {n})
      && (n == m.top <==> FreeEnd(m, w, p) == m.top)
      && FreeEnd(m, w, p) == n + (if n == m.top || m.heads[n].cinuse then 0 else Sz(m.heads, n))
  {
    var n := p + Sz(m.heads, p);
    After(w.seg, m.heads, m.foots, p);
    if !m.heads[p].pinuse { Before(w.seg, m.heads, m.foots, p); }
    if n in FreeChunks(w.seg, m.heads) { AfterFree(w.seg, m.heads, m.foots, n); }
    assert TileOk(w.seg, m.heads, m.foots, p);
  }

  /** p between chunks in use, or with a free chunk before it. */
  lemma FreedRun(m: Mem, w: View, footer: nat, m': Mem, w': View, p: Addr)
    requires Sound(m, w, footer, {}) && p in InUse(w.seg, m.heads) && p + Sz(m.heads, p) in m.heads
    requires m.heads[p + Sz(m.heads, p)].cinuse && Lost(w.seg, m.heads, w'.seg, m'.heads, p)
    requires var q, n := FreeStart(m, p), p + Sz(m.heads, p); var wasDv := q != p && q == m.dv;
      && KeepSizes(m.heads, m'.heads, FreeChunks(w.seg, m.heads) - Prev(m, p)) && Sz(m'.heads, q) == n - q
      && m'.top == m.top && m'.topsize == m.topsize && m'.brk == m.brk
      && if wasDv then m'.dv == q && m'.dvsize == n - q && w'.binned == w.binned - Prev(m, p)
         else m'.dv == m.dv && m'.dvsize == m.dvsize && w'.binned == w.binned - Prev(m, p) + {q}
    ensures Freed(m, w, m', w', p)
  {
    MergesIs(m, w, footer, p);
    DvOrNot(m, w, footer, p, {});
  }

  /** p before top. */
  lemma FreedTop(m: Mem, w: View, footer: nat, m': Mem, w': View, p: Addr)
    requires Sound(m, w, footer, {}) && p in InUse(w.seg, m.heads) && p + Sz(m.heads, p) == m.top
    requires Lost(w.seg, m.heads, w'.seg, m'.heads, p)
    requires var q := FreeStart(m, p); var wasDv := q != p && q == m.dv;
      && KeepSizes(m.heads, m'.heads, FreeChunks(w.seg, m.heads) - Prev(m, p))
      && m'.top == q && m'.topsize == m.topsize + (m.top - q) && m'.brk == m.brk
      && w'.binned == w.binned - Prev(m, p)
      && m'.dv == (if wasDv then 0 else m.dv) && m'.dvsize == (if wasDv then 0 else m.dvsize)
    ensures Freed(m, w, m', w', p)
  {
    MergesIs(m, w, footer, p);
    DvOrNot(m, w, footer, p, {});
  }

  /** p before a free chunk. */
  lemma FreedNext(m: Mem, w: View, footer: nat, m': Mem, w': View, p: Addr)
    requires Sound(m, w, footer, {}) && p in InUse(w.seg, m.heads) && p + Sz(m.heads, p) in FreeChunks(w.seg, m.heads)
    requires Lost(w.seg, m.heads, w'.seg, m'.heads, p)
    requires var q, n := FreeStart(m, p), p + Sz(m.heads, p); var e := n + Sz(m.heads, n);
      && KeepSizes(m.heads, m'.heads, FreeChunks(w.seg, m.heads) - Prev(m, p) - {n}) && Sz(m'.heads, q) == e - q
      && m'.top == m.top && m'.topsize == m.topsize && m'.brk == m.brk
      && if (q != p && q == m.dv) || n == m.dv then
           m'.dv == q && m'.dvsize == e - q && w'.binned == w.binned - Prev(m, p) - {n}
         else m'.dv == m.dv && m'.dvsize == m.dvsize && w'.binned == w.binned - Prev(m, p) - {n} + {q}
    ensures Freed(m, w, m', w', p)
  {
    MergesIs(m, w, footer, p);
    DvOrNot(m, w, footer, p, {p + Sz(m.heads, p)});
    var gone, n := Merges(m, w, p), p + Sz(m.heads, p);
    assert w.binned - Prev(m, p) - {n} == w.binned - gone;
    assert FreeChunks(w.seg, m.heads) - Prev(m, p) - {n} == FreeChunks(w.seg, m.heads) - gone;
  }

  lemma DvOrNot(m: Mem, w: View, footer: nat, p: Addr, next: set<Addr>)
    requires Sound(m, w, footer, {}) && Merges(m, w, p) == Prev(m, p) + next
    requires Merges(m, w, p) <= FreeChunks(w.seg, m.heads)
    ensures DvSet(m.dv, m.dvsize) <= Merges(m, w, p) && m.dvsize != 0 <==> m.dv in Prev(m, p) || m.dv in next
  {
    forall a | a in Merges(m, w, p) ensures a > 0 { FreeFacts(m, w, footer, {}, a); }
  }

  lemma SizesAdd(a: int, b: nat)
    requires a >= 0 && SizeOk(b)
    ensures a == 0 || SizeOk(a) ==> SizeOk(a + b)
  {}

  /** The padded size holds the request and the two overhead words. */
  lemma RequestFacts(bytes: nat)
    requires bytes < WORD
    ensures var nb := ChunkFor(bytes);
      && nb < WORD && (if bytes < MAX_REQUEST then SizeOk(nb) && nb >= bytes + 8 else nb == WORD - 1)
      && (bytes <= MAX_SMALL_REQUEST <==> nb < MIN_LARGE_SIZE)
  {}

  /** No smaller chunk does. */
  lemma RequestLeast(bytes: nat, s: nat)
    requires bytes < MAX_REQUEST && SizeOk(s) && s >= bytes + 8
    ensures ChunkFor(bytes) <= s
  {}

  lemma SizesBounded(m: Mem, w: View, footer: nat)
    requires Zeroed(m, w) || Sound(m, w, footer, {})
    ensures forall a :: a in w.binned ==> Sz(m.heads, a) < WORD - 1
    ensures m.dvsize < WORD - 1 && m.topsize < WORD - 1
  {
    if Sound(m, w, footer, {}) {
      DvFacts(m, w, footer, {});
      forall a | a in w.binned ensures Sz(m.heads, a) < WORD - 1 { FreeFacts(m, w, footer, {}, a); }
    }
  }

  lemma BinnedFits(m: Mem, w: View, footer: nat, nb: nat, p: Addr)
    requires (Zeroed(m, w) || Sound(m, w, footer, {})) && p in w.binned && WellChosen(m, w, p, nb)
    ensures !NoneFits(m, w, nb)
  {
    assert p in FreeChunks(w.seg, m.heads);
  }

  lemma DvFits(m: Mem, w: View, footer: nat, nb: nat)
    requires (Zeroed(m, w) || Sound(m, w, footer, {})) && 0 < nb <= m.dvsize
    ensures Sound(m, w, footer, {}) && !NoneFits(m, w, nb) && m.dv > 0
  {
    assert m.dv in FreeChunks(w.seg, m.heads);
    FreeFacts(m, w, footer, {}, m.dv);
  }

  lemma NoFreeFit(m: Mem, w: View, footer: nat, nb: nat)
    requires Zeroed(m, w) || Sound(m, w, footer, {})
    requires m.dvsize < nb && forall a :: a in w.binned ==> Sz(m.heads, a) < nb
    ensures NoneFits(m, w, nb)
  {}

  lemma ServedTop(m: Mem, w: View, footer: nat, m': Mem, w': View, p: Addr, nb: nat)
    requires (Zeroed(m, w) || Sound(m, w, footer, {})) && NoneFits(m, w, nb) && p == TopAddr(m)
    requires Gained(w.seg, m.heads, w'.seg, m'.heads, p) && FromTop(m, w, m', w', p, nb)
    ensures Served(m, w, m', w', p, nb) && Sz(m'.heads, p) == nb
  {}

  lemma AllocatedFacts(m: Mem, w: View, footer: nat, p: Addr)
    requires Sound(m, w, footer, {}) && p in InUse(w.seg, m.heads)
    ensures p > 0 && (p + 8) % 8 == 0
  {
    assert TileOk(w.seg, m.heads, m.foots, p);
    NextEighth(p);
  }

  lemma NextEighth(p: int)
    requires p % 8 == 0
    ensures (p + 8) % 8 == 0
  {}

  /** A request that only new memory can serve. */
  ghost predicate Grows(m: Mem, w: View, nb: nat) { NoneFits(m, w, nb) && m.topsize <= nb }

  /** The break would pass the end of the address space. */
  ghost predicate Wraps(m: Mem, nb: nat, contiguous: bool) {
    && m.topsize <= nb && !CannotGrow(nb, m.topsize, m.top != 0 && contiguous)
    && m.brk + GrowSize(nb, m.topsize, m.top != 0 && contiguous) >= WORD
  }

  /** mmap does not map the pages that sbrk asks for. */
  ghost predicate Refused(m: Mem, nb: nat, contiguous: bool, mapped: bool) {
    && m.topsize <= nb && !CannotGrow(nb, m.topsize, m.top != 0 && contiguous)
    && !Wraps(m, nb, contiguous) && !mapped
  }

  /** A request for 2 GB or more ends contiguous growth, unless its size wraps first. */
  ghost predicate StaysContiguous(nb: nat, topsize: nat, top: Addr, contiguous: bool)
    requires topsize <= nb
  {
    && contiguous
    && (PageAlign(nb + SYS_ALLOC_PADDING) > nb ==> GrowSize(nb, topsize, top != 0 && contiguous) < HALF_MAX)
  }

  /** No page-aligned growth below 2 GB makes room for nb bytes. */
  predicate CannotGrow(nb: nat, topsize: nat, onTop: bool)
    requires nb >= topsize
  {
    nb + SYS_ALLOC_PADDING + 4095 >= WORD || nb - (if onTop then topsize else 0) + SYS_ALLOC_PADDING > 0x7FFF_F000
  }

  /** The two size tests of sys_alloc fail exactly when growth is impossible, and the growth is enough, by less than a
      page. */
  lemma GrowFacts(nb: nat, topsize: nat, onTop: bool)
    requires nb < WORD && topsize <= nb
    ensures CannotGrow(nb, topsize, onTop) <==>
      PageAlign(nb + SYS_ALLOC_PADDING) <= nb || GrowSize(nb, topsize, onTop) >= HALF_MAX
    ensures GrowSize(nb, topsize, onTop) % 4096 == 0
    ensures PageAlign(nb + SYS_ALLOC_PADDING) > nb ==>
      GrowSize(nb, topsize, onTop) >= 4096 && GrowSize(nb, topsize, onTop) + topsize >= nb + SYS_ALLOC_PADDING
    ensures PageAlign(nb + SYS_ALLOC_PADDING) > nb ==>
      var need := nb + SYS_ALLOC_PADDING - (if onTop then topsize else 0);
      need <= GrowSize(nb, topsize, onTop) < need + 4096
  {
    AlignFacts(nb + SYS_ALLOC_PADDING);
    AlignFacts(nb - (if onTop then topsize else 0) + SYS_ALLOC_PADDING);
  }

  lemma AlignFacts(n: nat)
    requires n < 2 * WORD - 4096
    ensures PageAlign(n) % 4096 == 0
    ensures n + 4095 < WORD ==> n <= PageAlign(n) < n + 4096
    ensures n + 4095 >= WORD ==> PageAlign(n) <= n + 4095 - WORD
  {}

  /** rsize < dvsize - nb on 32-bit words: dv is too small, or fits worse. */
  lemma DvBetter(dvsize: nat, rsize: nat, nb: nat, size: nat)
    requires nb < WORD && dvsize < WORD && size < WORD && size == rsize + nb
    ensures rsize < (dvsize - nb) % WORD <==> dvsize < nb || size < dvsize
  {}
}
