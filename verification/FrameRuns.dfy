/** Whole runs of reserving, freeing and allocating frames. */
module FrameRuns {
  import opened Bits
  import opened Bitset
  import opened Pmm

  datatype Op = DoReserve(f: nat) | DoFree(f: nat) | DoAlloc

  /** The frames reserved after are those before and f. */
  ghost predicate Adds(rs: seq<Region>, maps: Maps, f: nat, maps': Maps) {
    forall g: nat :: IsReserved(rs, maps', g) <==> g == f || IsReserved(rs, maps, g)
  }

  ghost predicate Removes(rs: seq<Region>, maps: Maps, f: nat, maps': Maps) {
    forall g: nat :: IsReserved(rs, maps', g) <==> g != f && IsReserved(rs, maps, g)
  }

  /** The regions before the one at index at are full, in whole words. */
  ghost predicate Skips(rs: seq<Region>, maps: Maps, at: nat) {
    Shaped(rs, maps) && at <= |rs| && forall j :: 0 <= j < at ==> Full(maps[j]) && rs[j].pages % 32 == 0
  }

  /** What one operation does; r is the frame that an allocation returns. */
  ghost predicate Steps(rs: seq<Region>, maps: Maps, op: Op, r: nat, maps': Maps) {
    match op
    case DoReserve(f) =>
      Shaped(rs, maps) && Exists(rs, f) && !IsReserved(rs, maps, f) && maps' == Written(rs, maps, f, true)
    case DoFree(f) => Shaped(rs, maps) && IsReserved(rs, maps, f) && maps' == Written(rs, maps, f, false)
    case DoAlloc =>
      if r == INVALID_FRAME then maps' == maps && Skips(rs, maps, |rs|)
      else exists at: nat, k: nat :: Allocates(rs, maps, r, maps', at, k)
  }

  /** The bit of frame f in the region where it is found. */
  ghost function Written(rs: seq<Region>, maps: Maps, f: nat, v: bool): Maps
    requires Shaped(rs, maps) && Exists(rs, f)
  {
    var i := RegionOf(rs, f, 0);
    Mark(maps, i, f - rs[i].addr, v)
  }

  /** Page k of region at is handed out as frame r. */
  ghost predicate Allocates(rs: seq<Region>, maps: Maps, r: nat, maps': Maps, at: nat, k: nat) {
    && Skips(rs, maps, at) && FirstClear(rs, maps, at, k) && r == FrameAt(rs[at], k)
    && maps' == Mark(maps, at, k, true)
  }

  /** Reserving and freeing change the one frame they are about. */
  lemma OneFrame(rs: seq<Region>, maps: Maps, op: Op, r: nat, maps': Maps)
    requires Steps(rs, maps, op, r, maps') && op != DoAlloc
    ensures if op.DoReserve? then Adds(rs, maps, op.f, maps') else Removes(rs, maps, op.f, maps')
  {
    MarkFrames(rs, maps, op.f, op.DoReserve?);
  }

  /** Why an operation stops the machine. */
  ghost predicate Stops(rs: seq<Region>, maps: Maps, op: Op) {
    match op
    case DoReserve(f) => !Exists(rs, f) || IsReserved(rs, maps, f)
    case DoFree(f) => !IsReserved(rs, maps, f)
    case DoAlloc => exists at: nat :: Skips(rs, maps, at) && at < |rs| && Full(maps[at]) && rs[at].pages % 32 != 0
  }

  ghost predicate Runs(rs: seq<Region>, tr: seq<Maps>, ops: seq<Op>, got: seq<nat>) {
    && |tr| == |got| + 1 && |got| <= |ops|
    && forall i, j :: 0 <= i < j < |tr| && j == i + 1 ==> Steps(rs, tr[i], ops[i], got[i], tr[j])
  }

  lemma RunOn(rs: seq<Region>, tr: seq<Maps>, ops: seq<Op>, got: seq<nat>, r: nat, maps: Maps)
    requires Runs(rs, tr, ops, got) && |got| < |ops| && Steps(rs, tr[|got|], ops[|got|], r, maps)
    ensures Runs(rs, tr + [maps], ops, got + [r])
  {}

  /** An allocated frame exists, was free and is now reserved, with every other frame as before, if and only if its
      region ends below 2^32. Otherwise the set of reserved frames does not change. */
  lemma FreshFrame(rs: seq<Region>, maps: Maps, r: nat, maps': Maps, at: nat, k: nat)
    requires Allocates(rs, maps, r, maps', at, k) && Disjoint(rs) && Bounded(rs)
    ensures Whole(rs[at]) <==> Exists(rs, r) && !IsReserved(rs, maps, r) && Adds(rs, maps, r, maps')
    ensures Whole(rs[at]) ==> LeastFree(rs, maps, at, r)
    ensures !Whole(rs[at]) ==> forall g: nat :: IsReserved(rs, maps', g) == IsReserved(rs, maps, g)
  {
    if Whole(rs[at]) {
      LeastFreeIs(rs, maps, at, k);
      MarkFrames(rs, maps, r, true);
    } else {
      forall g: nat
        ensures IsReserved(rs, maps', g) == IsReserved(rs, maps, g)
      {
        LostRegion(rs, maps, at, k, true, g);
      }
    }
  }

  /** With whole words of pages in every region an allocation never stops; it finds none exactly if all frames that
      exist are reserved and the regions in which none is found are full. */
  lemma WholeWords(rs: seq<Region>, maps: Maps)
    requires Shaped(rs, maps) && Disjoint(rs) && Bounded(rs) && forall i :: 0 <= i < |rs| ==> rs[i].pages % 32 == 0
    ensures !Stops(rs, maps, DoAlloc)
    ensures Skips(rs, maps, |rs|) <==>
      && (forall f: nat :: Exists(rs, f) ==> IsReserved(rs, maps, f))
      && (forall i :: 0 <= i < |rs| && !Whole(rs[i]) ==> Full(maps[i]))
  {
    if Skips(rs, maps, |rs|) {
      forall f: nat | Exists(rs, f) ensures IsReserved(rs, maps, f) { FoundOrLost(rs[RegionOf(rs, f, 0)], f); }
    }
    if forall f: nat :: Exists(rs, f) ==> IsReserved(rs, maps, f) {
      forall j, k | 0 <= j < |rs| && Whole(rs[j]) && 0 <= k < |maps[j]| ensures maps[j][k] {
        FoundOrLost(rs[j], rs[j].addr + k);
        RegionIs(rs, rs[j].addr + k, 0, j);
        assert Exists(rs, rs[j].addr + k);
      }
    }
  }

  method ServeOp(s: FrameAllocator, op: Op) returns (r: nat, halted: bool)
    requires s.Valid()
    modifies s`maps, s.Data()
    ensures s.Valid() && (halted <==> Stops(s.regions, old(s.maps), op))
    ensures !halted ==> Steps(s.regions, old(s.maps), op, r, s.maps)
    ensures halted ==> s.maps == old(s.maps)
  {
    r := 0;
    match op
    case DoReserve(f) => halted := s.Reserve(f);
    case DoFree(f) => halted := s.Free(f);
    case DoAlloc =>
      ghost var at, k;
      r, halted, at, k := s.Alloc();
      assert Skips(s.regions, old(s.maps), at);
      assert !halted && r != INVALID_FRAME ==> Allocates(s.regions, old(s.maps), r, s.maps, at, k);
      StopsAt(s.regions, old(s.maps), at);
  }

  /** The search gets to one place only. */
  lemma StopsAt(rs: seq<Region>, maps: Maps, at: nat)
    requires Skips(rs, maps, at) && (at < |rs| ==> !(Full(maps[at]) && rs[at].pages % 32 == 0))
    ensures Stops(rs, maps, DoAlloc) <==> at < |rs| && Full(maps[at]) && rs[at].pages % 32 != 0
  {
    forall j: nat | Skips(rs, maps, j) && j < |rs| && Full(maps[j]) && rs[j].pages % 32 != 0 ensures j == at {}
  }

  /** Any sequence of operations: every step does to the set of reserved frames what it should, and the run covers all
      operations unless one stops the machine, for its stated reason. */
  method Serve(s: FrameAllocator, ops: seq<Op>) returns (got: seq<nat>, halted: bool, ghost tr: seq<Maps>)
    requires s.Valid()
    modifies s`maps, s.Data()
    ensures s.Valid() && Runs(s.regions, tr, ops, got) && tr[0] == old(s.maps) && tr[|got|] == s.maps
    ensures if halted then |got| < |ops| && Stops(s.regions, s.maps, ops[|got|]) else |got| == |ops|
  {
    got, halted, tr := [], false, [s.maps];
    while |got| < |ops|
      invariant s.Valid() && !halted && Runs(s.regions, tr, ops, got) && tr[0] == old(s.maps) && tr[|got|] == s.maps
    {
      var r;
      r, halted := ServeOp(s, ops[|got|]);
      if halted { return; }
      RunOn(s.regions, tr, ops, got, r, s.maps);
      got, tr := got + [r], tr + [s.maps];
    }
  }
}
