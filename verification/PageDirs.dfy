/** vmm_clone_pagedir and vmm_destroy_pagedir over the frame allocator. */
module PageDirs {
  import opened Basics
  import opened Vmm

  // ---- the frames an address space owns ----------------------------------------------------------------------

  /** The frames that the first n entries of table f map, in their order. */
  ghost function TableList(m: Phys, f: nat, n: nat): seq<nat>
    requires f in m && n <= ENTRIES
  {
    if n == 0 then [] else TableList(m, f, n - 1) + (if Present(m[f][n - 1]) then [FrameOf(m[f][n - 1])] else [])
  }

  /** For each of the first n directory entries, the frames that its table maps and then the table: the order in which
      vmm_destroy_pagedir frees them. */
  ghost function DirList(m: Phys, dir: nat, n: nat): seq<nat>
    requires dir in m && n <= ENTRIES
  {
    if n == 0 then []
    else
      DirList(m, dir, n - 1) +
      (if Present(m[dir][n - 1]) && FrameOf(m[dir][n - 1]) in m
       then TableList(m, FrameOf(m[dir][n - 1]), ENTRIES) + [FrameOf(m[dir][n - 1])] else [])
  }

  /** The list s names each frame of u once, and no other. */
  ghost predicate Once(s: seq<nat>, u: set<nat>) {
    Elems(s) == u && forall i, j :: 0 <= i < j < |s| ==> s[i] != s[j]
  }

  lemma OnceJoin(s: seq<nat>, u: set<nat>, t: seq<nat>, v: set<nat>)
    requires Once(s, u) && Once(t, v) && u !! v
    ensures Once(s + t, u + v)
  {
    forall i, j | 0 <= i < |s| && 0 <= j < |t| ensures s[i] != t[j] { assert s[i] in u && t[j] in v; }
  }

  lemma OneOnce(x: nat)
    ensures Once([x], {x})
  {}

  // ---- freeing a list of frames ---------------------------------------------------------------------------------

  /** pmm_free of all frames of s, one after the other: it stops at one that is not reserved. */
  ghost function FreeAll(reserved: set<nat>, s: seq<nat>): Option<set<nat>> {
    if |s| == 0 then Some(reserved)
    else
      var f := s[|s| - 1];
      match FreeAll(reserved, s[..|s| - 1])
      case None => None
      case Some(q) => if f in q then Some(q - {f}) else None
  }

  lemma {:induction false} FreeAllJoin(reserved: set<nat>, s: seq<nat>, t: seq<nat>)
    ensures FreeAll(reserved, s + t) == match FreeAll(reserved, s) case None => None case Some(q) => FreeAll(q, t)
    decreases |t|
  {
    if |t| == 0 {
      assert s + t == s;
    } else {
      FreeAllJoin(reserved, s, t[..|t| - 1]);
      assert (s + t)[..|s + t| - 1] == s + t[..|t| - 1];
    }
  }

  lemma OnceLast(p: seq<nat>, f: nat)
    ensures Elems(p + [f]) == Elems(p) + {f}
    ensures Once(p + [f], Elems(p + [f])) <==> Once(p, Elems(p)) && f !in Elems(p)
  {
    var s := p + [f];
    assert s[|p|] == f && forall i :: 0 <= i < |p| ==> s[i] == p[i];
    assert f in s && forall x :: x in p ==> x in s;
    if f in Elems(p) {
      var i :| 0 <= i < |p| && p[i] == f;
      assert s[i] == s[|p|];
    }
    if Once(s, Elems(s)) {
      forall i, j | 0 <= i < j < |p| ensures p[i] != p[j] { assert s[i] != s[j]; }
    }
  }

  /** It frees them all, without a stop, if and only if all are reserved and none is listed twice. */
  lemma {:induction false} FreeAllIff(reserved: set<nat>, s: seq<nat>)
    ensures FreeAll(reserved, s).Some? <==> Once(s, Elems(s)) && Elems(s) <= reserved
    ensures FreeAll(reserved, s).Some? ==> FreeAll(reserved, s).value == reserved - Elems(s)
  {
    if |s| > 0 {
      var p, f := s[..|s| - 1], s[|s| - 1];
      FreeAllIff(reserved, p);
      assert s == p + [f];
      OnceLast(p, f);
    }
  }

  /** Everything in the user half of the directory lies in reserved memory. */
  ghost predicate Owned(m: Phys, dir: nat, reserved: set<nat>) {
    && dir in m && dir in reserved && reserved <= m.Keys
    && forall d :: 0 <= d < FIRST_KERNEL && Present(m[dir][d]) ==> TableOwned(m, FrameOf(m[dir][d]), reserved)
  }

  ghost predicate TableOwned(m: Phys, f: nat, reserved: set<nat>) {
    f in m && f in reserved && forall t :: 0 <= t < ENTRIES && Present(m[f][t]) ==> FrameOf(m[f][t]) in reserved
  }

  // ---- what a copy is ----------------------------------------------------------------------------------------

  /** The first n entries of table g in m' are a copy of those of table f in m: the same pages with the same flags, in
      frames of their own from the set taken that hold the same words. */
  ghost predicate TableCopy(m: Phys, f: nat, m': Phys, g: nat, n: nat, taken: set<nat>) {
    && f in m && g in m' && n <= ENTRIES
    && (forall t :: 0 <= t < n ==> (Present(m'[g][t]) <==> Present(m[f][t])))
    && (forall t :: 0 <= t < n && Present(m[f][t]) ==>
          var w, w' := m[f][t], m'[g][t];
          FlagsOf(w') == FlagsOf(w) && FrameOf(w') in taken && FrameOf(w') in m' && FrameOf(w) in m &&
            m'[FrameOf(w')] == m[FrameOf(w)])
    && (forall t, u :: 0 <= t < u < n && Present(m[f][t]) && Present(m[f][u]) ==>
         FrameOf(m'[g][t]) != FrameOf(m'[g][u]))
  }

  /** Memory of reserved frames is the same in both. */
  ghost predicate SameOn(m: Phys, m': Phys, s: set<nat>) {
    forall f :: f in s && f in m ==> f in m' && m'[f] == m[f]
  }

  class Frames {
    var phys: Phys
    var reserved: set<nat>

    constructor (m: Phys, r: set<nat>)
      ensures phys == m && reserved == r
    {
      phys, reserved := m, r;
    }

    /** pmm_alloc: some frame that is not reserved; halted when there is none. */
    method PmmAlloc() returns (f: nat, halted: bool)
      modifies this`reserved
      ensures halted <==> phys.Keys <= old(reserved)
      ensures if halted then reserved == old(reserved)
        else f in phys && f !in old(reserved) && reserved == old(reserved) + {f}
    {
      var free := phys.Keys - reserved;
      assert forall f :: f in phys.Keys ==> f in reserved || f in free;
      if free == {} { return 0, true; }
      f :| f in free;
      reserved := reserved + {f};
      halted := false;
    }

    /** One round of clone_pagetable. */
    method CloneEntry(dst: nat, src: nat, i: nat, ghost m0: Phys, ghost r0: set<nat>, ghost taken: set<nat>)
      returns (halted: bool, ghost taken': set<nat>)
      requires Cloning(m0, r0, phys, reserved, src, dst, i, taken) && i < ENTRIES
      modifies this
      ensures !halted ==> Cloning(m0, r0, phys, reserved, src, dst, i + 1, taken')
      ensures halted ==> phys.Keys <= reserved
    {
      halted, taken' := false, taken;
      SourceKept(m0, r0, phys, reserved, src, dst, i, taken);
      var w := phys[src][i];
      if Present(w) {
        ghost var m1, r1 := phys, reserved;
        var copy := phys[FrameOf(w)];
        var nf, h := PmmAlloc();
        if h { return true, {}; }
        FlagsPresent(w);
        phys := phys[nf := copy];
        phys := phys[dst := phys[dst][i := Entry(nf, FlagsOf(w))]];
        CloneStep(m0, r0, m1, r1, phys, src, dst, i, taken, nf);
        taken' := taken + {nf};
      } else {
        CopySkip(m0, src, phys, dst, i, taken);
      }
    }

    /** clone_pagetable: table dst becomes a copy of table src. */
    method CloneTable(dst: nat, src: nat) returns (halted: bool, ghost taken: set<nat>)
      requires dst in phys && dst in reserved && dst != src && TableOwned(phys, src, reserved - {dst})
      requires reserved <= phys.Keys
      modifies this
      ensures !halted ==>
        taken !! old(reserved) && taken <= phys.Keys && reserved == old(reserved) + taken && phys.Keys == old(phys).Keys
      ensures !halted ==> SameOn(old(phys), phys, old(reserved) - {dst})
      ensures !halted ==>
        TableCopy(old(phys), src, phys, dst, ENTRIES, taken) && Once(TableList(phys, dst, ENTRIES), taken)
      ensures halted ==> phys.Keys <= reserved
    {
      halted, taken := false, {};
      var z: Frame := seq(ENTRIES, i => 0);
      phys := phys[dst := z];
      for i := 0 to ENTRIES
        invariant Cloning(old(phys), old(reserved), phys, reserved, src, dst, i, taken)
      {
        halted, taken := CloneEntry(dst, src, i, old(phys), old(reserved), taken);
        if halted { return; }
      }
    }

    /** One round of the user half of vmm_clone_pagedir. */
    method CloneDirEntry(old_: nat, new_: nat, d: nat, ghost m0: Phys, ghost r0: set<nat>, ghost taken: set<nat>)
      returns (halted: bool, ghost taken': set<nat>)
      requires Copying(m0, r0, phys, reserved, old_, new_, d, taken) && d < FIRST_KERNEL
      modifies this
      ensures !halted ==> Copying(m0, r0, phys, reserved, old_, new_, d + 1, taken')
      ensures halted ==> phys.Keys <= reserved
    {
      halted, taken' := false, taken;
      var w := phys[old_][d];
      if Present(w) {
        ghost var m1, r1 := phys, reserved;
        var dst, h := PmmAlloc();
        if h { return true, {}; }
        FlagsPresent(w);
        SourceTable(m0, r0, m1, r1, old_, new_, d, taken, dst);
        ghost var more;
        halted, more := CloneTable(dst, FrameOf(w));
        if halted { return; }
        ghost var m2 := phys;
        phys := phys[new_ := phys[new_][d := Entry(dst, FlagsOf(w))]];
        CopyingStep(m0, r0, m1, r1, m2, phys, old_, new_, d, taken, dst, more);
        taken' := taken + {dst} + more;
      } else {
        CopyingSkip(m0, r0, phys, reserved, old_, new_, d, taken);
      }
    }

    /** The user half of the new directory, which starts out empty. */
    method CopyUserHalf(old_: nat, new_: nat) returns (halted: bool, ghost taken: set<nat>)
      requires new_ in phys && new_ in reserved && old_ != new_ && reserved <= phys.Keys
      requires Owned(phys, old_, reserved - {new_})
      modifies this
      ensures !halted ==> Copying(old(phys), old(reserved), phys, reserved, old_, new_, FIRST_KERNEL, taken)
      ensures halted ==> phys.Keys <= reserved
    {
      halted, taken := false, {};
      var z: Frame := seq(ENTRIES, i => 0);
      phys := phys[new_ := z];
      for d := 0 to FIRST_KERNEL
        invariant Copying(old(phys), old(reserved), phys, reserved, old_, new_, d, taken)
      {
        halted, taken := CloneDirEntry(old_, new_, d, old(phys), old(reserved), taken);
        if halted { return; }
      }
    }

    /** vmm_clone_pagedir: the user half is copied, every page and every table into a frame of its own, the kernel
        half is shared, the last entry leads to the new directory itself. */
    method ClonePagedir(old_: nat, new_: nat) returns (halted: bool, ghost taken: set<nat>)
      requires new_ in phys && new_ in reserved && old_ != new_ && reserved <= phys.Keys
      requires Owned(phys, old_, reserved - {new_})
      modifies this
      ensures !halted ==>
        taken !! old(reserved) && reserved == old(reserved) + taken && SameOn(old(phys), phys, old(reserved) - {new_})
      ensures !halted ==>
        DirCopy(old(phys), old_, phys, new_, FIRST_KERNEL, taken) && Once(DirList(phys, new_, FIRST_KERNEL), taken)
      ensures !halted ==> phys[new_][RECURSIVE] == Entry(new_, 3)
      ensures !halted ==> forall d :: FIRST_KERNEL <= d < RECURSIVE ==> phys[new_][d] == old(phys)[old_][d]
      ensures !halted ==> phys.Keys == old(phys).Keys && taken <= phys.Keys
      ensures halted ==> phys.Keys <= reserved
    {
      halted, taken := CopyUserHalf(old_, new_);
      if halted { return; }
      ghost var m1 := phys;
      CopyKernelHalf(old_, new_);
      KernelHalf(old(phys), old(reserved), m1, reserved, phys, old_, new_, taken);
    }

    /** The kernel half of the new directory. */
    method CopyKernelHalf(old_: nat, new_: nat)
      requires new_ in phys && old_ in phys && old_ != new_
      modifies this`phys
      ensures phys.Keys == old(phys).Keys && forall f :: f in old(phys) && f != new_ ==> phys[f] == old(phys)[f]
      ensures forall e :: 0 <= e < FIRST_KERNEL ==> phys[new_][e] == old(phys)[new_][e]
      ensures forall e :: FIRST_KERNEL <= e < RECURSIVE ==> phys[new_][e] == old(phys)[old_][e]
      ensures phys[new_][RECURSIVE] == Entry(new_, 3)
    {
      var dir := phys[new_];
      for d := FIRST_KERNEL to RECURSIVE
        invariant |dir| == ENTRIES && (forall e :: 0 <= e < FIRST_KERNEL ==> dir[e] == phys[new_][e])
        invariant forall e :: FIRST_KERNEL <= e < d ==> dir[e] == phys[old_][e]
      {
        dir := dir[d := phys[old_][d]];
      }
      dir := dir[RECURSIVE := Entry(new_, 3)];
      phys := phys[new_ := dir];
    }

    /** pmm_free: it stops on a frame that is not reserved. */
    method PmmFree(f: nat) returns (halted: bool)
      modifies this`reserved
      ensures halted <==> f !in old(reserved)
      ensures reserved == old(reserved) - {f}
    {
      halted := f !in reserved;
      reserved := reserved - {f};
    }

    /** The frames that a table maps are freed. */
    method FreeTable(table: nat) returns (halted: bool)
      requires table in phys
      modifies this`reserved
      ensures halted <==> FreeAll(old(reserved), TableList(phys, table, ENTRIES)) == None
      ensures !halted ==> FreeAll(old(reserved), TableList(phys, table, ENTRIES)) == Some(reserved)
    {
      for t := 0 to ENTRIES
        invariant FreeAll(old(reserved), TableList(phys, table, t)) == Some(reserved)
      {
        ghost var l := TableList(phys, table, t);
        if Present(phys[table][t]) {
          var f := FrameOf(phys[table][t]);
          assert TableList(phys, table, t + 1) == l + [f];
          FreeAllJoin(old(reserved), l, [f]);
          FreeOne(reserved, f);
          halted := PmmFree(f);
          if halted {
            TableStops(phys, table, t + 1, old(reserved));
            return;
          }
        } else {
          assert TableList(phys, table, t + 1) == l;
        }
      }
      halted := false;
    }

    /** vmm_destroy_pagedir: the frames of the user half are given back, tables included. It stops exactly if one of
        them is not reserved, or is there twice. */
    method DestroyPagedir(dir: nat) returns (halted: bool)
      requires dir in phys
      requires forall d :: 0 <= d < FIRST_KERNEL && Present(phys[dir][d]) ==> FrameOf(phys[dir][d]) in phys
      modifies this`reserved
      ensures var l := DirList(phys, dir, FIRST_KERNEL); !halted <==> Once(l, Elems(l)) && Elems(l) <= old(reserved)
      ensures !halted ==> reserved == old(reserved) - Elems(DirList(phys, dir, FIRST_KERNEL))
    {
      FreeAllIff(reserved, DirList(phys, dir, FIRST_KERNEL));
      for d := 0 to FIRST_KERNEL
        invariant FreeAll(old(reserved), DirList(phys, dir, d)) == Some(reserved)
      {
        ghost var l := DirList(phys, dir, d);
        if Present(phys[dir][d]) {
          var table := FrameOf(phys[dir][d]);
          ghost var r, t := reserved, TableList(phys, table, ENTRIES);
          assert DirList(phys, dir, d + 1) == l + (t + [table]);
          FreeAllJoin(old(reserved), l, t + [table]);
          FreeAllJoin(r, t, [table]);
          halted := FreeTable(table);
          if halted {
            DirStops(phys, dir, d + 1, old(reserved));
            return;
          }
          FreeOne(reserved, table);
          halted := PmmFree(table);
          if halted {
            DirStops(phys, dir, d + 1, old(reserved));
            return;
          }
        } else {
          assert DirList(phys, dir, d + 1) == l;
        }
      }
      halted := false;
    }

    /** Destroying a clone gives back exactly the frames that cloning took, each once: only the cloning may stop. */
    method CloneThenDestroy(old_: nat, new_: nat) returns (halted: bool)
      requires new_ in phys && new_ in reserved && old_ != new_ && reserved <= phys.Keys
      requires Owned(phys, old_, reserved - {new_})
      modifies this
      ensures !halted ==> reserved == old(reserved) && SameOn(old(phys), phys, old(reserved) - {new_})
      ensures halted ==> phys.Keys <= reserved
    {
      ghost var taken;
      halted, taken := ClonePagedir(old_, new_);
      if halted { return; }
      halted := DestroyPagedir(new_);
    }
  }

  lemma FreeOne(reserved: set<nat>, f: nat)
    ensures FreeAll(reserved, [f]) == if f in reserved then Some(reserved - {f}) else None
  {
    assert [f][..0] == [];
  }

  /** A stop among the first entries is a stop. */
  lemma {:induction false} TableStops(m: Phys, f: nat, n: nat, reserved: set<nat>)
    requires f in m && n <= ENTRIES && FreeAll(reserved, TableList(m, f, n)) == None
    ensures FreeAll(reserved, TableList(m, f, ENTRIES)) == None
    decreases ENTRIES - n
  {
    if n < ENTRIES {
      FreeAllJoin(reserved, TableList(m, f, n), if Present(m[f][n]) then [FrameOf(m[f][n])] else []);
      TableStops(m, f, n + 1, reserved);
    }
  }

  lemma {:induction false} DirStops(m: Phys, dir: nat, n: nat, reserved: set<nat>)
    requires dir in m && n <= FIRST_KERNEL && FreeAll(reserved, DirList(m, dir, n)) == None
    ensures FreeAll(reserved, DirList(m, dir, FIRST_KERNEL)) == None
    decreases FIRST_KERNEL - n
  {
    if n < FIRST_KERNEL {
      var l := DirList(m, dir, n);
      FreeAllJoin(reserved, l, DirList(m, dir, n + 1)[|l|..]);
      assert l + DirList(m, dir, n + 1)[|l|..] == DirList(m, dir, n + 1);
      DirStops(m, dir, n + 1, reserved);
    }
  }

  lemma SourceTable(m0: Phys, r0: set<nat>, m: Phys, r: set<nat>, old_: nat, new_: nat, d: nat, taken: set<nat>,
                    dst: nat)
    requires Copying(m0, r0, m, r, old_, new_, d, taken) && d < FIRST_KERNEL && Present(m0[old_][d]) && dst in m
    requires dst !in r
    ensures TableOwned(m, FrameOf(m0[old_][d]), r + {dst} - {dst}) && dst != FrameOf(m0[old_][d]) && m[old_] == m0[old_]
  {
    var f := FrameOf(m0[old_][d]);
    assert TableOwned(m0, f, r0 - {new_});
    assert m[f] == m0[f];
  }

  /** Filling in the kernel half leaves the copied user half as it is. */
  lemma KernelHalf(m0: Phys, r0: set<nat>, m1: Phys, r1: set<nat>, m2: Phys, old_: nat, new_: nat, taken: set<nat>)
    requires Copying(m0, r0, m1, r1, old_, new_, FIRST_KERNEL, taken)
    requires m2.Keys == m1.Keys && (forall f :: f in m1 && f != new_ ==> m2[f] == m1[f])
    requires forall e :: 0 <= e < FIRST_KERNEL ==> m2[new_][e] == m1[new_][e]
    ensures DirCopy(m0, old_, m2, new_, FIRST_KERNEL, taken) && Once(DirList(m2, new_, FIRST_KERNEL), taken)
  {
    forall d | 0 <= d < FIRST_KERNEL && Present(m0[old_][d])
      ensures TableCopy(m0, FrameOf(m0[old_][d]), m2, FrameOf(m2[new_][d]), ENTRIES, taken)
    {
      TableCopyFrame(m0, FrameOf(m0[old_][d]), m1, m2, FrameOf(m1[new_][d]), taken, taken);
    }
    DirListSame(m1, m2, new_, FIRST_KERNEL);
  }

  /** What the copy means for the processor: the same user pages, with the same flags and contents, in the frames
      taken. */
  lemma CloneTranslates(m: Phys, f: nat, m': Phys, g: nat, taken: set<nat>, d: nat, t: nat)
    requires DirCopy(m, f, m', g, FIRST_KERNEL, taken) && d < FIRST_KERNEL && t < ENTRIES && taken <= m'.Keys
    ensures match Translate(m, f, d, t)
      case None => Translate(m', g, d, t).None?
      case Some(w) =>
        && Translate(m', g, d, t).Some? && FlagsOf(Translate(m', g, d, t).value) == FlagsOf(w)
        && FrameOf(Translate(m', g, d, t).value) in taken && FrameOf(w) in m
        && m'[FrameOf(Translate(m', g, d, t).value)] == m[FrameOf(w)]
  {
    if Present(m[f][d]) {
      assert TableCopy(m, FrameOf(m[f][d]), m', FrameOf(m'[g][d]), ENTRIES, taken);
    }
  }

  lemma SameRights(w: nat, w': nat)
    requires FlagsOf(w) == FlagsOf(w')
    ensures (Writable(w) <==> Writable(w')) && (ForUser(w) <==> ForUser(w'))
  {
    FlagBits(w);
    FlagBits(w');
  }

  /** User code has the same rights in the copy. */
  lemma CloneRights(m: Phys, f: nat, m': Phys, g: nat, taken: set<nat>, d: nat, t: nat)
    requires DirCopy(m, f, m', g, FIRST_KERNEL, taken) && d < FIRST_KERNEL && t < ENTRIES && taken <= m'.Keys
    requires Translate(m, f, d, t).Some?
    ensures var a, a' := Walk(m, f, d, t), Walk(m', g, d, t);
      a.Some? && a'.Some? && a'.value == a.value.(frame := a'.value.frame) && a'.value.frame in taken
  {
    CloneTranslates(m, f, m', g, taken, d, t);
    SameRights(m'[g][d], m[f][d]);
    SameRights(Translate(m', g, d, t).value, Translate(m, f, d, t).value);
  }

  // ---- no frame serves twice -----------------------------------------------------------------------------------

  lemma OnceParts(s: seq<nat>, t: seq<nat>)
    requires Once(s + t, Elems(s + t))
    ensures Once(s, Elems(s)) && Once(t, Elems(t)) && Elems(s) !! Elems(t) && Elems(s + t) == Elems(s) + Elems(t)
  {
    var u := s + t;
    forall i | 0 <= i < |s| ensures s[i] == u[i] {}
    forall i | 0 <= i < |t| ensures t[i] == u[|s| + i] {}
  }

  /** The frame that entry t maps is in the list, and no other entry maps it. */
  lemma {:induction false} TableOnce(m: Phys, f: nat, n: nat, t: nat, u: nat)
    requires f in m && n <= ENTRIES && Once(TableList(m, f, n), Elems(TableList(m, f, n))) && t < n && Present(m[f][t])
    ensures FrameOf(m[f][t]) in TableList(m, f, n)
    ensures u < n && u != t && Present(m[f][u]) ==> FrameOf(m[f][u]) != FrameOf(m[f][t])
    decreases n
  {
    var l, w := TableList(m, f, n - 1), m[f][n - 1];
    var x := if Present(w) then [FrameOf(w)] else [];
    OnceParts(l, x);
    assert Present(w) ==> FrameOf(w) in Elems(x);
    if t < n - 1 {
      TableOnce(m, f, n - 1, t, u);
      assert FrameOf(m[f][t]) in Elems(l);
    } else if u < t && Present(m[f][u]) {
      TableOnce(m, f, n - 1, u, u);
      assert FrameOf(m[f][u]) in Elems(l);
    }
  }

  /** The frames that directory entry d stands for: its table and the pages of that. */
  ghost function EntryFrames(m: Phys, dir: nat, d: nat): set<nat>
    requires dir in m && d < ENTRIES && FrameOf(m[dir][d]) in m
  {
    Elems(TableList(m, FrameOf(m[dir][d]), ENTRIES)) + {FrameOf(m[dir][d])}
  }

  lemma {:induction false} DirOnce(m: Phys, dir: nat, n: nat, d: nat)
    requires dir in m && n <= ENTRIES && Once(DirList(m, dir, n), Elems(DirList(m, dir, n)))
    requires d < n && Present(m[dir][d]) && FrameOf(m[dir][d]) in m
    ensures EntryFrames(m, dir, d) <= Elems(DirList(m, dir, n))
    ensures var l := TableList(m, FrameOf(m[dir][d]), ENTRIES); Once(l, Elems(l)) && FrameOf(m[dir][d]) !in Elems(l)
    decreases n
  {
    var w := m[dir][n - 1];
    var e := if Present(w) && FrameOf(w) in m then TableList(m, FrameOf(w), ENTRIES) + [FrameOf(w)] else [];
    OnceParts(DirList(m, dir, n - 1), e);
    if d < n - 1 { DirOnce(m, dir, n - 1, d); } else { OnceParts(TableList(m, FrameOf(w), ENTRIES), [FrameOf(w)]); }
  }

  lemma LastEntry(m: Phys, dir: nat, n: nat)
    requires dir in m && 0 < n <= ENTRIES && Once(DirList(m, dir, n), Elems(DirList(m, dir, n)))
    ensures var l, w := DirList(m, dir, n - 1), m[dir][n - 1];
      Once(l, Elems(l)) && (Present(w) && FrameOf(w) in m ==> Elems(l) !! EntryFrames(m, dir, n - 1))
  {
    var w := m[dir][n - 1];
    var l := if Present(w) && FrameOf(w) in m then TableList(m, FrameOf(w), ENTRIES) + [FrameOf(w)] else [];
    OnceParts(DirList(m, dir, n - 1), l);
  }

  lemma {:induction false} DirApart(m: Phys, dir: nat, n: nat, d: nat, e: nat)
    requires dir in m && n <= ENTRIES && Once(DirList(m, dir, n), Elems(DirList(m, dir, n))) && d < e < n
    requires Present(m[dir][d]) && FrameOf(m[dir][d]) in m && Present(m[dir][e]) && FrameOf(m[dir][e]) in m
    ensures EntryFrames(m, dir, d) !! EntryFrames(m, dir, e)
    decreases n
  {
    LastEntry(m, dir, n);
    if e < n - 1 { DirApart(m, dir, n - 1, d, e); } else { DirOnce(m, dir, n - 1, d); }
  }

  /** What the walk finds: a page is mapped by its table, and belongs to its directory entry. */
  lemma PageEntry(m: Phys, dir: nat, taken: set<nat>, d: nat, t: nat)
    requires dir in m && Once(DirList(m, dir, FIRST_KERNEL), taken) && d < FIRST_KERNEL && t < ENTRIES
    requires Translate(m, dir, d, t).Some?
    ensures var f, g := FrameOf(m[dir][d]), FrameOf(Translate(m, dir, d, t).value);
      g in EntryFrames(m, dir, d) && g != f && Once(TableList(m, f, ENTRIES), Elems(TableList(m, f, ENTRIES)))
  {
    DirOnce(m, dir, FIRST_KERNEL, d);
    TableOnce(m, FrameOf(m[dir][d]), ENTRIES, t, t);
  }

  lemma EntriesApart(m: Phys, dir: nat, taken: set<nat>, d: nat, e: nat)
    requires dir in m && Once(DirList(m, dir, FIRST_KERNEL), taken) && d < FIRST_KERNEL && e < FIRST_KERNEL && d != e
    requires TableOf(m, dir, d).Some? && TableOf(m, dir, e).Some?
    ensures EntryFrames(m, dir, d) !! EntryFrames(m, dir, e)
  {
    if d < e { DirApart(m, dir, FIRST_KERNEL, d, e); } else { DirApart(m, dir, FIRST_KERNEL, e, d); }
  }

  /** No user page of a clone lies in a frame that holds one of its tables. */
  lemma PageNoTable(m: Phys, dir: nat, taken: set<nat>, d: nat, t: nat, e: nat)
    requires dir in m && Once(DirList(m, dir, FIRST_KERNEL), taken)
    requires d < FIRST_KERNEL && t < ENTRIES && Translate(m, dir, d, t).Some? && e < FIRST_KERNEL
    requires TableOf(m, dir, e).Some?
    ensures FrameOf(Translate(m, dir, d, t).value) != TableOf(m, dir, e).value
  {
    PageEntry(m, dir, taken, d, t);
    if e != d { EntriesApart(m, dir, taken, d, e); }
  }

  /** No two user pages of a clone share a frame. */
  lemma PagesApart(m: Phys, dir: nat, taken: set<nat>, d: nat, t: nat, e: nat, u: nat)
    requires dir in m && Once(DirList(m, dir, FIRST_KERNEL), taken) && (d, t) != (e, u)
    requires d < FIRST_KERNEL && t < ENTRIES && Translate(m, dir, d, t).Some?
    requires e < FIRST_KERNEL && u < ENTRIES && Translate(m, dir, e, u).Some?
    ensures FrameOf(Translate(m, dir, d, t).value) != FrameOf(Translate(m, dir, e, u).value)
  {
    PageEntry(m, dir, taken, d, t);
    PageEntry(m, dir, taken, e, u);
    if e != d { EntriesApart(m, dir, taken, d, e); } else { TableOnce(m, FrameOf(m[dir][d]), ENTRIES, t, u); }
  }

  /** What ClonePagedir leaves behind, on top of a directory whose kernel tables lie in reserved frames. */
  ghost predicate Cloned(m: Phys, f: nat, m': Phys, g: nat, taken: set<nat>, reserved: set<nat>) {
    && DirCopy(m, f, m', g, FIRST_KERNEL, taken) && Once(DirList(m', g, FIRST_KERNEL), taken)
    && taken !! reserved && g in reserved && m'.Keys == m.Keys && taken <= m'.Keys
    && m'[g][RECURSIVE] == Entry(g, 3) && (forall d :: FIRST_KERNEL <= d < RECURSIVE ==> m'[g][d] == m[f][d])
    && forall d :: FIRST_KERNEL <= d < RECURSIVE && Present(m[f][d]) ==> FrameOf(m[f][d]) in reserved - {g}
  }

  lemma SelfEntry(g: nat)
    ensures var w := Entry(g, 3); Present(w) && FrameOf(w) == g && Writable(w) && !ForUser(w)
  {
    FlagBits(Entry(g, 3));
  }

  lemma CloneEntryOk(m: Phys, f: nat, m': Phys, g: nat, taken: set<nat>, reserved: set<nat>, d: nat)
    requires DirectoryOk(m, f) && Cloned(m, f, m', g, taken, reserved) && d < RECURSIVE && Present(m'[g][d])
    ensures var w := m'[g][d];
      && PassesRights(w) && FrameOf(w) in m' && FrameOf(w) != g
      && (FrameOf(w) in taken <==> d < FIRST_KERNEL)
  {
    assert PassesRights(m[f][d]);
    if d < FIRST_KERNEL { SameRights(m'[g][d], m[f][d]); }
  }

  lemma CloneEntriesApart(m: Phys, f: nat, m': Phys, g: nat, taken: set<nat>, reserved: set<nat>, d: nat, e: nat)
    requires DirectoryOk(m, f) && Cloned(m, f, m', g, taken, reserved)
    requires d < e < RECURSIVE && Present(m'[g][d]) && Present(m'[g][e])
    ensures FrameOf(m'[g][d]) != FrameOf(m'[g][e])
  {
    CloneEntryOk(m, f, m', g, taken, reserved, d);
    CloneEntryOk(m, f, m', g, taken, reserved, e);
    if e < FIRST_KERNEL { EntriesApart(m', g, taken, d, e); }
  }

  /** The copy of a directory is one in which vmm_map and the others work. */
  lemma CloneDirectory(m: Phys, f: nat, m': Phys, g: nat, taken: set<nat>, reserved: set<nat>)
    requires DirectoryOk(m, f) && Cloned(m, f, m', g, taken, reserved)
    ensures DirectoryOk(m', g)
  {
    SelfEntry(g);
    forall d | 0 <= d < RECURSIVE && Present(m'[g][d])
      ensures PassesRights(m'[g][d]) && FrameOf(m'[g][d]) in m' && FrameOf(m'[g][d]) != g
    {
      CloneEntryOk(m, f, m', g, taken, reserved, d);
    }
    forall d, e | 0 <= d < e < RECURSIVE && Present(m'[g][d]) && Present(m'[g][e])
      ensures FrameOf(m'[g][d]) != FrameOf(m'[g][e])
    {
      CloneEntriesApart(m, f, m', g, taken, reserved, d, e);
    }
  }

  lemma SourceKept(m0: Phys, r0: set<nat>, m: Phys, r: set<nat>, src: nat, dst: nat, i: nat, taken: set<nat>)
    requires Cloning(m0, r0, m, r, src, dst, i, taken) && i < ENTRIES
    ensures src in m && m[src] == m0[src] && (Present(m0[src][i]) ==> FrameOf(m0[src][i]) in m)
  {}

  /** Frames of a table depend on that table alone. */
  lemma {:induction false} TableListSame(m: Phys, m': Phys, f: nat, n: nat)
    requires f in m && f in m' && n <= ENTRIES && forall t :: 0 <= t < n ==> m'[f][t] == m[f][t]
    ensures TableList(m', f, n) == TableList(m, f, n)
  {
    if n > 0 { TableListSame(m, m', f, n - 1); }
  }

  /** The state of clone_pagetable after i entries. */
  ghost predicate Cloning(m0: Phys, r0: set<nat>, m: Phys, r: set<nat>, src: nat, dst: nat, i: nat, taken: set<nat>) {
    && dst in m && taken !! r0 && taken <= m.Keys && r == r0 + taken && m.Keys == m0.Keys && r0 <= m0.Keys
    && SameOn(m0, m, r0 - {dst})
    && dst in r0 && dst != src && TableOwned(m0, src, r0 - {dst})
    && TableCopy(m0, src, m, dst, i, taken) && Once(TableList(m, dst, i), taken)
    && (forall t :: i <= t < ENTRIES ==> m[dst][t] == 0)
  }

  lemma CloneStep(m0: Phys, r0: set<nat>, m1: Phys, r1: set<nat>, m2: Phys, src: nat, dst: nat, i: nat, taken: set<nat>,
                  nf: nat)
    requires Cloning(m0, r0, m1, r1, src, dst, i, taken) && i < ENTRIES && Present(m0[src][i]) && nf in m1 && nf !in r1
    requires FrameOf(m0[src][i]) in m1
    requires m2 == m1[nf := m1[FrameOf(m0[src][i])]][dst := m1[dst][i := Entry(nf, FlagsOf(m0[src][i]))]]
    ensures Cloning(m0, r0, m2, r1 + {nf}, src, dst, i + 1, taken + {nf})
  {
    CopyStep(m0, src, m1, m2, dst, i, taken, nf);
  }

  lemma CopyStep(m: Phys, src: nat, m1: Phys, m2: Phys, dst: nat, i: nat, taken: set<nat>, nf: nat)
    requires TableCopy(m, src, m1, dst, i, taken) && i < ENTRIES && Present(m[src][i]) && nf !in taken && nf != dst
    requires dst !in taken
    requires FrameOf(m[src][i]) in m && FrameOf(m[src][i]) in m1 && m1[FrameOf(m[src][i])] == m[FrameOf(m[src][i])]
    requires Once(TableList(m1, dst, i), taken)
    requires m2 == m1[nf := m1[FrameOf(m[src][i])]][dst := m1[dst][i := Entry(nf, FlagsOf(m[src][i]))]]
    ensures TableCopy(m, src, m2, dst, i + 1, taken + {nf}) && Once(TableList(m2, dst, i + 1), taken + {nf})
  {
    var w, w' := m[src][i], Entry(nf, FlagsOf(m[src][i]));
    assert m2[dst] == m1[dst][i := w'];
    assert Present(w') by { FlagsPresent(w); }
    forall t | 0 <= t < i ensures m2[dst][t] == m1[dst][t] {}
    TableListSame(m1, m2, dst, i);
    OneOnce(nf);
    OnceJoin(TableList(m1, dst, i), taken, [nf], {nf});
  }

  lemma FlagsPresent(w: nat)
    ensures FlagsOf(w) < 4096 && (FlagsOf(w) % 2 == 1 <==> Present(w))
  {}

  lemma CopySkip(m: Phys, src: nat, m1: Phys, dst: nat, i: nat, taken: set<nat>)
    requires TableCopy(m, src, m1, dst, i, taken) && i < ENTRIES && !Present(m[src][i]) && m1[dst][i] == 0
    requires Once(TableList(m1, dst, i), taken)
    ensures TableCopy(m, src, m1, dst, i + 1, taken) && Once(TableList(m1, dst, i + 1), taken)
  {}

  // ---- cloning a directory ----------------------------------------------------------------------------------

  /** The first n entries of directory g in m' copy those of directory f in m, table by table. */
  ghost predicate DirCopy(m: Phys, f: nat, m': Phys, g: nat, n: nat, taken: set<nat>) {
    && f in m && g in m' && n <= FIRST_KERNEL
    && (forall d :: 0 <= d < n ==> (Present(m'[g][d]) <==> Present(m[f][d])))
    && (forall d :: 0 <= d < n && Present(m[f][d]) ==>
          && FlagsOf(m'[g][d]) == FlagsOf(m[f][d]) && FrameOf(m'[g][d]) in taken
          && TableCopy(m, FrameOf(m[f][d]), m', FrameOf(m'[g][d]), ENTRIES, taken))
  }

  lemma TableCopyFrame(m: Phys, f: nat, m1: Phys, m2: Phys, g: nat, taken: set<nat>, taken': set<nat>)
    requires TableCopy(m, f, m1, g, ENTRIES, taken) && taken <= taken' && SameOn(m1, m2, taken + {g})
    ensures TableCopy(m, f, m2, g, ENTRIES, taken')
  {
    assert m2[g] == m1[g];
  }

  lemma TableCopySource(m0: Phys, m: Phys, r: set<nat>, f: nat, m': Phys, g: nat, taken: set<nat>)
    requires TableCopy(m, f, m', g, ENTRIES, taken) && SameOn(m0, m, r) && TableOwned(m0, f, r) && r <= m0.Keys
    ensures TableCopy(m0, f, m', g, ENTRIES, taken)
  {
    assert m[f] == m0[f];
  }

  lemma {:induction false} DirListSame(m: Phys, m': Phys, dir: nat, n: nat)
    requires dir in m && dir in m' && n <= ENTRIES && m.Keys == m'.Keys
    requires forall d :: 0 <= d < n ==> m'[dir][d] == m[dir][d]
    requires forall d :: 0 <= d < n && Present(m[dir][d]) && FrameOf(m[dir][d]) in m ==>
      m'[FrameOf(m[dir][d])] == m[FrameOf(m[dir][d])]
    ensures DirList(m', dir, n) == DirList(m, dir, n)
  {
    if n > 0 {
      DirListSame(m, m', dir, n - 1);
      var w := m[dir][n - 1];
      if Present(w) && FrameOf(w) in m { TableListSame(m, m', FrameOf(w), ENTRIES); }
    }
  }

  /** The state of vmm_clone_pagedir after d user entries. */
  ghost predicate Copying(m0: Phys, r0: set<nat>, m: Phys, r: set<nat>, old_: nat, new_: nat, d: nat, taken: set<nat>) {
    && new_ in m && new_ in r0 && old_ != new_ && r0 <= m0.Keys && m.Keys == m0.Keys
    && taken !! r0 && taken <= m.Keys && r == r0 + taken && SameOn(m0, m, r0 - {new_}) && Owned(m0, old_, r0 - {new_})
    && DirCopy(m0, old_, m, new_, d, taken) && Once(DirList(m, new_, d), taken)
    && (forall e :: d <= e < ENTRIES ==> m[new_][e] == 0)
  }

  /** A table was copied in: dst is the new table, more the frames its entries map. */
  ghost predicate CopiedIn(m0: Phys, r0: set<nat>, m1: Phys, r1: set<nat>, m2: Phys, m3: Phys, old_: nat, new_: nat,
                           d: nat, taken: set<nat>, dst: nat, more: set<nat>) {
    && Copying(m0, r0, m1, r1, old_, new_, d, taken) && d < FIRST_KERNEL && Present(m0[old_][d])
    && dst in m1 && dst !in r1 && more !! r1 + {dst} && more <= m2.Keys && m2.Keys == m1.Keys && SameOn(m1, m2, r1)
    && TableCopy(m1, FrameOf(m0[old_][d]), m2, dst, ENTRIES, more) && Once(TableList(m2, dst, ENTRIES), more)
    && new_ in m2 && m3 == m2[new_ := m2[new_][d := Entry(dst, FlagsOf(m0[old_][d]))]]
  }

  lemma CopiedTables(m0: Phys, r0: set<nat>, m1: Phys, r1: set<nat>, m2: Phys, m3: Phys, old_: nat, new_: nat, d: nat,
                     taken: set<nat>, dst: nat, more: set<nat>)
    requires CopiedIn(m0, r0, m1, r1, m2, m3, old_, new_, d, taken, dst, more)
    ensures DirCopy(m0, old_, m3, new_, d + 1, taken + {dst} + more)
  {
    var w := m0[old_][d];
    FlagsPresent(w);
    var all := taken + {dst} + more;
    assert m3[new_] == m2[new_][d := Entry(dst, FlagsOf(w))] && m2[new_] == m1[new_];
    forall e | 0 <= e < d && Present(m0[old_][e])
      ensures TableCopy(m0, FrameOf(m0[old_][e]), m3, FrameOf(m3[new_][e]), ENTRIES, all)
    {
      TableCopyFrame(m0, FrameOf(m0[old_][e]), m1, m3, FrameOf(m1[new_][e]), taken, all);
    }
    TableCopySource(m0, m1, r0 - {new_}, FrameOf(w), m2, dst, more);
    TableCopyFrame(m0, FrameOf(w), m2, m3, dst, more, all);
  }

  lemma CopiedFrames(m0: Phys, r0: set<nat>, m1: Phys, r1: set<nat>, m2: Phys, m3: Phys, old_: nat, new_: nat, d: nat,
                     taken: set<nat>, dst: nat, more: set<nat>)
    requires CopiedIn(m0, r0, m1, r1, m2, m3, old_, new_, d, taken, dst, more)
    ensures Once(DirList(m3, new_, d + 1), taken + {dst} + more)
  {
    FlagsPresent(m0[old_][d]);
    assert m3[new_] == m2[new_][d := Entry(dst, FlagsOf(m0[old_][d]))] && m2[new_] == m1[new_];
    DirListSame(m1, m3, new_, d);
    TableListSame(m2, m3, dst, ENTRIES);
    var l, t := DirList(m1, new_, d), TableList(m2, dst, ENTRIES);
    OneOnce(dst);
    OnceJoin(t, more, [dst], {dst});
    OnceJoin(l, taken, t + [dst], more + {dst});
    assert taken + (more + {dst}) == taken + {dst} + more;
  }

  lemma CopyingStep(m0: Phys, r0: set<nat>, m1: Phys, r1: set<nat>, m2: Phys, m3: Phys, old_: nat, new_: nat, d: nat,
                    taken: set<nat>, dst: nat, more: set<nat>)
    requires CopiedIn(m0, r0, m1, r1, m2, m3, old_, new_, d, taken, dst, more)
    ensures Copying(m0, r0, m3, r1 + {dst} + more, old_, new_, d + 1, taken + {dst} + more)
  {
    CopiedTables(m0, r0, m1, r1, m2, m3, old_, new_, d, taken, dst, more);
    CopiedFrames(m0, r0, m1, r1, m2, m3, old_, new_, d, taken, dst, more);
  }

  lemma CopyingSkip(m0: Phys, r0: set<nat>, m: Phys, r: set<nat>, old_: nat, new_: nat, d: nat, taken: set<nat>)
    requires Copying(m0, r0, m, r, old_, new_, d, taken) && d < FIRST_KERNEL && !Present(m0[old_][d])
    ensures Copying(m0, r0, m, r, old_, new_, d + 1, taken)
  {}
}
