/** The physical frame allocator: a list of regions with a bitmap each. Frames are counted in pages. */
module Pmm {
  import opened Bits
  import opened Alignment
  import opened Bitset

  const INVALID_FRAME := 0xFFFF_FFFF

  datatype Region = Region(addr: nat, pages: nat, bitmap: BitArray)

  /** The pages of the address space. */
  const FRAMES := 0x10_0000

  /** The test of a region's bounds: its end is computed on words. */
  predicate Within(addr: nat, pages: nat, f: nat) { addr <= f < (addr + pages) % FRAMES }

  predicate InRegion(r: Region, f: nat) { Within(r.addr, r.pages, f) }

  /** The region ends below 2^32. */
  predicate Whole(r: Region) { r.addr + r.pages < FRAMES }

  ghost predicate Bounded(rs: seq<Region>) {
    forall i :: 0 <= i < |rs| ==> rs[i].addr < FRAMES && rs[i].pages < FRAMES
  }

  /** The test finds every page of a region that ends below 2^32, and no page of any other. */
  lemma FoundOrLost(r: Region, f: nat)
    requires r.addr < FRAMES && r.pages < FRAMES
    ensures InRegion(r, f) <==> Whole(r) && r.addr <= f < r.addr + r.pages
  {}

  /** No frame is found in two regions. */
  ghost predicate Disjoint(rs: seq<Region>) {
    forall i, j, f: nat :: 0 <= i < j < |rs| ==> !(InRegion(rs[i], f) && InRegion(rs[j], f))
  }

  /** The first region from i on that holds frame f; the length when there is none. */
  function RegionOf(rs: seq<Region>, f: nat, i: nat): (r: nat)
    requires i <= |rs|
    ensures i <= r <= |rs| && (r < |rs| ==> InRegion(rs[r], f))
    decreases |rs| - i
  {
    if i == |rs| || InRegion(rs[i], f) then i else RegionOf(rs, f, i + 1)
  }

  lemma {:induction false} RegionIs(rs: seq<Region>, f: nat, i: nat, k: nat)
    requires i <= k < |rs| && InRegion(rs[k], f) && Disjoint(rs)
    ensures RegionOf(rs, f, i) == k
    decreases k - i
  {
    if i < k { RegionIs(rs, f, i + 1, k); }
  }

  // ---- from bytes to pages ----------------------------------------------------------------------------------

  const PAGE := 4096

  /** The bytes between addr and the next page boundary, as a word. */
  function Gap(addr: nat): nat { (Align(addr, PAGE) - addr) % WORD }

  /** The first page that add_region takes of a stretch of memory, and how many. */
  function FirstPage(addr: nat): nat { Align(addr, PAGE) / PAGE }

  function PageCount(addr: nat, len: nat): nat { (len - Gap(addr)) % WORD / PAGE }

  /** Does page f lie wholly in the bytes from addr on? */
  predicate PageIn(addr: nat, len: nat, f: nat) { addr <= PAGE * f && PAGE * (f + 1) <= addr + len }

  lemma GapIs(addr: nat)
    requires addr < WORD
    ensures var a := Align(addr, PAGE);
      && a % PAGE == 0 && Gap(addr) < PAGE
      && (a == addr + Gap(addr) || (a == 0 && addr + Gap(addr) == WORD))
  {
    Pow2Small();
    AlignSplit(addr, PAGE);
    MaskIsMod((addr + PAGE - 1) % WORD, 12);
  }

  /** add_region takes exactly the whole pages of the stretch if and only if it reaches to a page boundary: the
      length of a shorter one wraps, and the region comes out as large as the address space. */
  lemma WholePages(addr: nat, len: nat)
    requires addr < WORD && len < WORD && addr + len <= WORD
    ensures var s, n := FirstPage(addr), PageCount(addr, len);
      (forall f: nat :: s <= f < s + n <==> PageIn(addr, len, f)) <==> len >= Gap(addr)
  {
    GapIs(addr);
    var s, n, g := FirstPage(addr), PageCount(addr, len), Gap(addr);
    if len >= g {
      assert n == (len - g) / PAGE;
    } else {
      assert n == (len - g + WORD) / PAGE && n > 0;
      assert !PageIn(addr, len, s);
    }
  }

  /** A stretch of 0x100 bytes that ends inside a page gives a region of more than a million pages. */
  lemma ShortStretch()
    ensures PageCount(0x9_FC01, 0x100) == 0xF_FFFF && FirstPage(0x9_FC01) == 0xA0
  {
    Pow2Small();
    AlignSplit(0x9_FC01, PAGE);
    MaskIsMod(0xA_0C00, 12);
  }

  /** A stretch whose whole pages are taken ends at 2^32 exactly if the memory goes up to the last byte. */
  lemma TopEnds(addr: nat, len: nat)
    requires addr < WORD && len < WORD && addr + len <= WORD && len >= Gap(addr)
    ensures FirstPage(addr) + PageCount(addr, len) == FRAMES <==> addr + len == WORD && addr <= WORD - PAGE
    ensures FirstPage(addr) + PageCount(addr, len) <= FRAMES
  {
    GapIs(addr);
    var a, n := Align(addr, PAGE), PageCount(addr, len);
    assert n == (len - Gap(addr)) / PAGE;
    if a == addr + Gap(addr) {
      assert addr + len == a + PAGE * n + (len - Gap(addr)) % PAGE;
      EndPage(a / PAGE, n, (len - Gap(addr)) % PAGE);
      AlignBelow(addr, PAGE);
      assert a == PAGE * (a / PAGE) && a / PAGE < FRAMES;
    }
  }

  lemma EndPage(s: nat, n: nat, rest: nat)
    requires rest < PAGE && PAGE * s + PAGE * n + rest <= WORD
    ensures s + n <= FRAMES && (s + n == FRAMES <==> PAGE * s + PAGE * n + rest == WORD)
  {}

  // ---- the reserved frames --------------------------------------------------------------------------------

  /** One flag a page for every region. */
  type Maps = seq<seq<bool>>

  ghost predicate Shaped(rs: seq<Region>, maps: Maps) {
    |maps| == |rs| && forall i :: 0 <= i < |rs| ==> |maps[i]| == rs[i].pages
  }

  /** pmm_exists */
  predicate Exists(rs: seq<Region>, f: nat) { RegionOf(rs, f, 0) < |rs| }

  predicate IsReserved(rs: seq<Region>, maps: Maps, f: nat) {
    var i := RegionOf(rs, f, 0);
    i < |rs| && i < |maps| && f - rs[i].addr < |maps[i]| && maps[i][f - rs[i].addr]
  }

  predicate Full(map_: seq<bool>) { forall k :: 0 <= k < |map_| ==> map_[k] }

  /** Page k of region i gets the value v. */
  function Mark(maps: Maps, i: nat, k: nat, v: bool): Maps
    requires i < |maps| && k < |maps[i]|
  {
    maps[i := maps[i][k := v]]
  }

  /** Marking one page changes the state of that frame alone. */
  lemma MarkFrame(rs: seq<Region>, maps: Maps, f: nat, v: bool, g: nat)
    requires Shaped(rs, maps) && Exists(rs, f)
    ensures var i := RegionOf(rs, f, 0);
      && Shaped(rs, Mark(maps, i, f - rs[i].addr, v))
      && IsReserved(rs, Mark(maps, i, f - rs[i].addr, v), g) == if g == f then v else IsReserved(rs, maps, g)
  {}

  lemma MarkFrames(rs: seq<Region>, maps: Maps, f: nat, v: bool)
    requires Shaped(rs, maps) && Exists(rs, f)
    ensures var i := RegionOf(rs, f, 0); var maps' := Mark(maps, i, f - rs[i].addr, v);
      forall g: nat :: IsReserved(rs, maps', g) == if g == f then v else IsReserved(rs, maps, g)
  {
    var i := RegionOf(rs, f, 0);
    forall g: nat
      ensures IsReserved(rs, Mark(maps, i, f - rs[i].addr, v), g) == if g == f then v else IsReserved(rs, maps, g)
    {
      MarkFrame(rs, maps, f, v, g);
    }
  }

  /** The address of page k of a region, on words. */
  function FrameAt(r: Region, k: nat): nat { (r.addr + k) % FRAMES }

  /** Where pmm_alloc finds its page: page k is the first free one of the first region that has one. */
  ghost predicate FirstClear(rs: seq<Region>, maps: Maps, at: nat, k: nat) {
    && Shaped(rs, maps) && at < |rs| && k < |maps[at]| && !maps[at][k]
    && (forall j :: 0 <= j < k ==> maps[at][j]) && (forall j :: 0 <= j < at ==> Full(maps[j]))
  }

  /** f is the least free frame of region at. */
  ghost predicate LeastFree(rs: seq<Region>, maps: Maps, at: nat, f: nat) {
    && at < |rs| && RegionOf(rs, f, 0) == at && !IsReserved(rs, maps, f)
    && (forall g: nat :: rs[at].addr <= g < f ==> IsReserved(rs, maps, g))
  }

  /** In a region that ends below 2^32 the first clear bit is the least free frame. */
  lemma LeastFreeIs(rs: seq<Region>, maps: Maps, at: nat, k: nat)
    requires FirstClear(rs, maps, at, k) && Disjoint(rs) && Bounded(rs) && Whole(rs[at])
    ensures LeastFree(rs, maps, at, FrameAt(rs[at], k)) && FrameAt(rs[at], k) - rs[at].addr == k
  {
    FoundOrLost(rs[at], rs[at].addr + k);
    RegionIs(rs, rs[at].addr + k, 0, at);
    forall g: nat | rs[at].addr <= g < rs[at].addr + k ensures IsReserved(rs, maps, g) {
      FoundOrLost(rs[at], g);
      RegionIs(rs, g, 0, at);
    }
  }

  /** In any other region no frame is found, and marking its pages changes the state of no frame. */
  lemma LostRegion(rs: seq<Region>, maps: Maps, at: nat, k: nat, v: bool, g: nat)
    requires Shaped(rs, maps) && Bounded(rs) && at < |rs| && k < |maps[at]| && !Whole(rs[at])
    ensures RegionOf(rs, g, 0) != at && IsReserved(rs, Mark(maps, at, k, v), g) == IsReserved(rs, maps, g)
  {
    FoundOrLost(rs[at], g);
  }

  /** The frame just allocated can be freed exactly if its region ends below 2^32, or the frame is found reserved in
      another region. Freeing it undoes the allocation exactly in the first case. */
  lemma AllocFree(rs: seq<Region>, maps: Maps, at: nat, k: nat)
    requires FirstClear(rs, maps, at, k) && Disjoint(rs) && Bounded(rs)
    ensures var f, maps' := FrameAt(rs[at], k), Mark(maps, at, k, true); var i := RegionOf(rs, f, 0);
      && (IsReserved(rs, maps', f) <==> Whole(rs[at]) || IsReserved(rs, maps, f))
      && (IsReserved(rs, maps', f) && Mark(maps', i, f - rs[i].addr, false) == maps <==> Whole(rs[at]))
  {
    var f, maps' := FrameAt(rs[at], k), Mark(maps, at, k, true);
    if Whole(rs[at]) {
      LeastFreeIs(rs, maps, at, k);
      assert maps'[at := maps'[at][k := false]] == maps by { assert maps'[at][k := false] == maps[at]; }
    } else {
      LostRegion(rs, maps, at, k, true, f);
      var i := RegionOf(rs, f, 0);
      if IsReserved(rs, maps', f) {
        assert Mark(maps', i, f - rs[i].addr, false)[at][k];
      }
    }
  }

  lemma Prepended(rs: seq<Region>, maps: Maps, r: Region, m: seq<bool>)
    requires Shaped(rs, maps) && Disjoint(rs) && |m| == r.pages
    requires forall i, f: nat :: 0 <= i < |rs| ==> !(InRegion(r, f) && InRegion(rs[i], f))
    ensures Shaped([r] + rs, [m] + maps) && Disjoint([r] + rs)
  {
    var rs', maps' := [r] + rs, [m] + maps;
    forall i | 1 <= i < |rs'| ensures rs'[i] == rs[i - 1] && maps'[i] == maps[i - 1] {}
  }

  lemma PrependedShows(rs: seq<Region>, maps: Maps, r: Region, m: seq<bool>)
    requires |rs| == |maps|
    requires (forall i :: 0 <= i < |rs| ==> Shows(rs[i], maps[i]) && rs[i].bitmap.data != r.bitmap.data) && Shows(r, m)
    requires forall i, j :: 0 <= i < j < |rs| ==> rs[i].bitmap.data != rs[j].bitmap.data
    ensures var rs', maps' := [r] + rs, [m] + maps;
      && (forall i :: 0 <= i < |rs'| ==> Shows(rs'[i], maps'[i]))
      && (forall i, j :: 0 <= i < j < |rs'| ==> rs'[i].bitmap.data != rs'[j].bitmap.data)
  {
    var rs', maps' := [r] + rs, [m] + maps;
    forall i | 1 <= i < |rs'| ensures rs'[i] == rs[i - 1] && maps'[i] == maps[i - 1] {}
  }

  lemma PagesBounded(addr: nat, len: nat)
    ensures FirstPage(addr) < FRAMES && PageCount(addr, len) < FRAMES
  {
    AlignBelow(addr, PAGE);
  }

  class FrameAllocator {
    var regions: seq<Region>
    ghost var maps: Maps

    ghost function Data(): set<array<nat>>
      reads this
    {
      set i | 0 <= i < |regions| :: regions[i].bitmap.data
    }

    /** maps says what the bitmaps hold; every region has a bitmap of its own. */
    ghost predicate Valid()
      reads this, Data()
    {
      && Shaped(regions, maps) && Disjoint(regions)
      && (forall i :: 0 <= i < |regions| ==> Shows(regions[i], maps[i]))
      && (forall i, j :: 0 <= i < j < |regions| ==> regions[i].bitmap.data != regions[j].bitmap.data)
    }

    constructor ()
      ensures Valid() && regions == []
    {
      regions, maps := [], [];
    }

    /** add_region: the new region goes to the front, with all its frames free. */
    method AddRegion(addr: nat, len: nat)
      requires Valid() && addr < WORD && len < WORD
      requires var s, n := FirstPage(addr), PageCount(addr, len);
        forall i, f: nat :: 0 <= i < |regions| ==> !(Within(s, n, f) && InRegion(regions[i], f))
      modifies this
      ensures Valid() && |regions| == |old(regions)| + 1 && regions[1..] == old(regions)
      ensures regions[0].addr == FirstPage(addr) && regions[0].pages == PageCount(addr, len)
      ensures maps == [seq(PageCount(addr, len), i => false)] + old(maps) && fresh(regions[0].bitmap.data)
    {
      PagesBounded(addr, len);
      var start, pages := Align(addr, PAGE) / PAGE, (len - (Align(addr, PAGE) - addr) % WORD) % WORD / PAGE;
      var b := new BitArray(pages);
      var r := Region(start, pages, b);
      ghost var flags := seq(pages, i => false);
      assert Shows(r, flags);
      Prepended(regions, maps, r, flags);
      PrependedShows(regions, maps, r, flags);
      regions, maps := [r] + regions, [flags] + maps;
    }

    /** The walk over the region list. */
    method Find(f: nat) returns (i: nat)
      ensures i == RegionOf(regions, f, 0)
    {
      i := 0;
      while i < |regions|
        invariant i <= |regions| && RegionOf(regions, f, 0) == RegionOf(regions, f, i)
      {
        if InRegion(regions[i], f) { return; }
        i := i + 1;
      }
    }

    /** One bit of region i is written. */
    method Write(i: nat, k: nat, v: bool)
      requires Valid() && i < |regions| && k < regions[i].pages
      modifies this`maps, regions[i].bitmap.data
      ensures Valid() && maps == Mark(old(maps), i, k, v)
    {
      assert Shows(regions[i], maps[i]);
      if v { regions[i].bitmap.Set(k); } else { regions[i].bitmap.Clear(k); }
      maps := Mark(maps, i, k, v);
    }

    /** The walk, and the frame's bit. */
    method Look(f: nat) returns (i: nat, b: bool)
      requires Valid()
      ensures i == RegionOf(regions, f, 0) && b == IsReserved(regions, maps, f)
    {
      i := Find(f);
      if i == |regions| { return i, false; }
      assert Shows(regions[i], maps[i]);
      b := regions[i].bitmap.Test(f - regions[i].addr);
    }

    /** pmm_reserve; halted stands for its abort. */
    method Reserve(f: nat) returns (halted: bool)
      requires Valid()
      modifies this`maps, Data()
      ensures Valid() && (halted <==> !Exists(regions, f) || IsReserved(regions, old(maps), f))
      ensures var i := RegionOf(regions, f, 0);
        maps == if halted then old(maps) else Mark(old(maps), i, f - regions[i].addr, true)
      ensures !halted ==> forall g: nat :: IsReserved(regions, maps, g) <==> g == f || IsReserved(regions, old(maps), g)
    {
      var i, b := Look(f);
      if i == |regions| || b { return true; }
      Write(i, f - regions[i].addr, true);
      MarkFrames(regions, old(maps), f, true);
      halted := false;
    }

    /** pmm_free; halted stands for its abort. */
    method Free(f: nat) returns (halted: bool)
      requires Valid()
      modifies this`maps, Data()
      ensures Valid() && (halted <==> !IsReserved(regions, old(maps), f))
      ensures var i := RegionOf(regions, f, 0);
        maps == if halted then old(maps) else Mark(old(maps), i, f - regions[i].addr, false)
      ensures !halted ==> forall g: nat :: IsReserved(regions, maps, g) <==> g != f && IsReserved(regions, old(maps), g)
    {
      var i, b := Look(f);
      if i == |regions| || !b { return true; }
      Write(i, f - regions[i].addr, false);
      MarkFrames(regions, old(maps), f, false);
      halted := false;
    }

    /** pmm_reserved: frames that do not exist count as reserved. */
    method Reserved(f: nat) returns (r: bool)
      requires Valid()
      ensures r <==> !Exists(regions, f) || IsReserved(regions, maps, f)
    {
      var i;
      i, r := Look(f);
      if i == |regions| { return true; }
    }

    /** The search in the bitmap of region i. */
    method Scan(i: nat) returns (k: nat, halted: bool)
      requires Valid() && i < |regions|
      ensures halted <==> Full(maps[i]) && regions[i].pages % 32 != 0
      ensures !halted ==> (k == INVALID_INDEX <==> Full(maps[i]))
      ensures !halted && k != INVALID_INDEX ==> k < |maps[i]| && !maps[i][k] && forall j :: 0 <= j < k ==> maps[i][j]
    {
      assert Shows(regions[i], maps[i]);
      k, halted := regions[i].bitmap.FindClear();
      assert Full(maps[i]) <==> regions[i].bitmap.Full();
      if !halted && k != INVALID_INDEX {
        forall j | 0 <= j < k ensures maps[i][j] { assert regions[i].bitmap.Has(j); }
      }
    }

    /** Page k of region i, the first free one, is reserved. */
    method Take(i: nat, k: nat) returns (f: nat)
      requires Valid() && i < |regions| && k < |maps[i]| && !maps[i][k] && (forall j :: 0 <= j < k ==> maps[i][j])
      requires forall j :: 0 <= j < i ==> Full(maps[j])
      modifies this`maps, Data()
      ensures Valid() && f == FrameAt(regions[i], k) && maps == Mark(old(maps), i, k, true)
    {
      f := (regions[i].addr + k) % FRAMES;
      Write(i, k, true);
    }

    /** pmm_alloc: the first clear page of the first region that has one. INVALID_FRAME means that every region is full.
        The search stops the machine exactly when it comes to a full region whose page count is not a multiple of 32. */
    method Alloc() returns (f: nat, halted: bool, ghost at: nat, ghost page: nat)
      requires Valid()
      modifies this`maps, Data()
      ensures Valid() && at <= |regions| && forall j :: 0 <= j < at ==> Full(old(maps)[j]) && regions[j].pages % 32 == 0
      ensures halted <==> at < |regions| && Full(old(maps)[at]) && regions[at].pages % 32 != 0
      ensures !halted ==> (f == INVALID_FRAME <==> at == |regions|)
      ensures halted || f == INVALID_FRAME ==> maps == old(maps)
      ensures !halted && f != INVALID_FRAME ==>
        FirstClear(regions, old(maps), at, page) && f == FrameAt(regions[at], page)
      ensures !halted && f != INVALID_FRAME ==> maps == Mark(old(maps), at, page, true)
    {
      var i := 0;
      while i < |regions|
        invariant i <= |regions| && Valid() && maps == old(maps)
        invariant forall j :: 0 <= j < i ==> Full(maps[j]) && regions[j].pages % 32 == 0
      {
        var k;
        k, halted := Scan(i);
        if halted { return 0, true, i, 0; }
        if k != INVALID_INDEX {
          f := Take(i, k);
          return f, false, i, k;
        }
        i := i + 1;
      }
      return INVALID_FRAME, false, i, 0;
    }
  }

  /** The bitmap of a region holds the flags m. */
  ghost predicate Shows(r: Region, m: seq<bool>)
    reads r.bitmap.data
  {
    && r.bitmap.Valid() && r.bitmap.size == r.pages == |m| && r.addr < FRAMES && r.pages < FRAMES
    && forall k :: 0 <= k < |m| ==> m[k] == r.bitmap.Has(k)
  }

  /** The region of ShortStretch: its first frame is handed out, and stops the machine when it is given back. */
  method LostFrame() returns (f: nat, halted: bool)
    ensures f == 0xA0 && halted
  {
    var s := new FrameAllocator();
    ShortStretch();
    s.AddRegion(0x9_FC01, 0x100);
    assert s.regions == [s.regions[0]];
    assert s.Data() == {s.regions[0].bitmap.data};
    assert !s.maps[0][0];
    ghost var at, page;
    f, halted, at, page := s.Alloc();
    LostRegion(s.regions, s.maps, 0, 0, false, f);
    halted := s.Free(f);
  }
}
