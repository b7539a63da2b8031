/** Two-level page tables reached through the recursive entry of the directory. */
module Vmm {
  import opened Basics
  import opened Bits

  const ENTRIES := 1024
  const RECURSIVE := 1023
  const FIRST_KERNEL := 768

  /** The contents of a frame: 1024 words. */
  type Frame = s: seq<nat> | |s| == ENTRIES witness seq(ENTRIES, i => 0)

  /** Physical memory by frame number. */
  type Phys = map<nat, Frame>

  // ---- entries ---------------------------------------------------------------------------------------------

  predicate Present(w: nat) { w % 2 == 1 }
  function FrameOf(w: nat): nat { w / 4096 }
  function FlagsOf(w: nat): nat { w % 4096 }

  /** frame | flags */
  function Entry(f: nat, flags: nat): (w: nat)
    requires flags < 4096
    ensures FrameOf(w) == f && FlagsOf(w) == flags && (Present(w) <==> flags % 2 == 1)
  {
    4096 * f + flags
  }

  predicate Writable(w: nat) { w / 2 % 2 == 1 }
  predicate ForUser(w: nat) { w / 4 % 2 == 1 }

  // ---- the processor's walk ----------------------------------------------------------------------------------

  /** The page table of directory entry d. */
  function TableOf(m: Phys, cr3: nat, d: nat): Option<nat>
    requires d < ENTRIES
  {
    if cr3 in m && Present(m[cr3][d]) && FrameOf(m[cr3][d]) in m then Some(FrameOf(m[cr3][d])) else None
  }

  /** The table entry that translates page (d, t), when there is one. */
  function Translate(m: Phys, cr3: nat, d: nat, t: nat): Option<nat>
    requires d < ENTRIES && t < ENTRIES
  {
    match TableOf(m, cr3, d)
    case None => None
    case Some(f) => if Present(m[f][t]) then Some(m[f][t]) else None
  }

  /** What an access to a page reaches, and who may do what there. */
  datatype Access = Access(frame: nat, user: bool, write: bool)

  /** The walk of section 4.6 of the Intel SDM, volume 3A: a right is there only if both entries grant it. The bit WP of
      CR0 is set, so the right to write binds the kernel as well. */
  function Walk(m: Phys, cr3: nat, d: nat, t: nat): Option<Access>
    requires d < ENTRIES && t < ENTRIES
  {
    match Translate(m, cr3, d, t)
    case None => None
    case Some(w) =>
      var pde := m[cr3][d];
      Some(Access(FrameOf(w), ForUser(pde) && ForUser(w), Writable(pde) && Writable(w)))
  }

  /** The rights that flags stand for. */
  function Granted(frame: nat, flags: nat): Access { Access(frame, flags / 4 % 2 == 1, flags / 2 % 2 == 1) }

  /** Entries of a directory that lead to tables leave all rights to the tables. */
  ghost predicate PassesRights(w: nat) { Present(w) ==> Writable(w) && ForUser(w) }

  /** A directory: its last entry leads back to itself, for the kernel alone, the others to tables of their own. */
  ghost predicate DirectoryOk(m: Phys, cr3: nat) {
    && cr3 in m && Present(m[cr3][RECURSIVE]) && FrameOf(m[cr3][RECURSIVE]) == cr3
    && Writable(m[cr3][RECURSIVE]) && !ForUser(m[cr3][RECURSIVE])
    && (forall d :: 0 <= d < RECURSIVE ==> PassesRights(m[cr3][d]))
    && (forall d :: 0 <= d < RECURSIVE && Present(m[cr3][d]) ==> FrameOf(m[cr3][d]) in m && FrameOf(m[cr3][d]) != cr3)
    && (forall d, e :: 0 <= d < e < RECURSIVE && Present(m[cr3][d]) && Present(m[cr3][e]) ==>
         FrameOf(m[cr3][d]) != FrameOf(m[cr3][e]))
  }

  /** va_info: the two indices are the bits 22-31 and 12-21 of the address. */
  lemma AddressBits(va: nat)
    requires va < WORD
    ensures var p := va / 4096;
      And(va / 0x40_0000, 0x3FF) == p / ENTRIES && And(p, 0x3FF) == p % ENTRIES && p / ENTRIES < ENTRIES
  {
    LowTen(va / 0x40_0000);
    LowTen(va / 4096);
    PageDivision(va);
  }

  lemma PageDivision(va: nat)
    requires va < WORD
    ensures va / 0x40_0000 == va / 4096 / 1024 && va / 4096 / 1024 < 1024
  {}

  lemma LowTen(x: nat)
    ensures And(x, 0x3FF) == x % 1024
  {
    Pow2Small();
    assert Pow2(10) == 2 * Pow2(9);
    MaskIsMod(x, 10);
  }

  /** The page at 0xFFFFF000 is the directory, and the page at 0xFFC00000 + 4096 d is table d. The kernel may write to
      them, user code may not reach them. */
  lemma RecursiveMapping(m: Phys, cr3: nat, d: nat)
    requires DirectoryOk(m, cr3) && d < ENTRIES
    ensures var p := 0xFFFF_F000 / 4096; p / ENTRIES == RECURSIVE && p % ENTRIES == RECURSIVE
    ensures var p := (0xFFC0_0000 + d * 4096) / 4096; p / ENTRIES == RECURSIVE && p % ENTRIES == d
    ensures Translate(m, cr3, RECURSIVE, RECURSIVE) == Some(m[cr3][RECURSIVE])
    ensures Translate(m, cr3, RECURSIVE, d) == if Present(m[cr3][d]) then Some(m[cr3][d]) else None
    ensures Walk(m, cr3, RECURSIVE, d) ==
      if Present(m[cr3][d]) then Some(Access(FrameOf(m[cr3][d]), false, true)) else None
  {
    assert (0xFFC0_0000 + d * 4096) / 4096 == 0xF_FC00 + d;
  }

  // ---- writes seen by the walk --------------------------------------------------------------------------------

  /** Writing one entry of a table changes the translation of that page alone. */
  lemma TableWrite(m: Phys, cr3: nat, d: nat, t: nat, w: nat, d': nat, t': nat)
    requires DirectoryOk(m, cr3) && d < RECURSIVE && t < ENTRIES && d' < RECURSIVE && t' < ENTRIES && Present(m[cr3][d])
    ensures var f := FrameOf(m[cr3][d]); var m' := m[f := m[f][t := w]];
      && DirectoryOk(m', cr3)
      && Translate(m', cr3, d', t') ==
           if d' == d && t' == t then (if Present(w) then Some(w) else None) else Translate(m, cr3, d', t')
  {}

  /** Installing a cleared table changes no translation. */
  lemma TableInstall(m: Phys, cr3: nat, d: nat, f: nat, w: nat, d': nat, t': nat)
    requires DirectoryOk(m, cr3) && d < RECURSIVE && d' < RECURSIVE && t' < ENTRIES && !Present(m[cr3][d])
    requires f in m && f != cr3 && Present(w) && FrameOf(w) == f && PassesRights(w)
    requires forall e :: 0 <= e < RECURSIVE && Present(m[cr3][e]) ==> FrameOf(m[cr3][e]) != f
    ensures var m' := m[cr3 := m[cr3][d := w]][f := seq(ENTRIES, i => 0)];
      DirectoryOk(m', cr3) && Translate(m', cr3, d', t') == Translate(m, cr3, d', t')
  {
    var z: Frame := seq(ENTRIES, i => 0);
    var m' := m[cr3 := m[cr3][d := w]][f := z];
    assert m'[cr3] == m[cr3][d := w] && m'[f] == z;
    assert forall e :: 0 <= e < ENTRIES && e != d ==> m'[cr3][e] == m[cr3][e];
  }

  /** The address space m' is m with page (d, t) translated by e instead. */
  ghost predicate Updates(m: Phys, m': Phys, cr3: nat, d: nat, t: nat, e: Option<nat>) {
    forall d', t' :: 0 <= d' < RECURSIVE && 0 <= t' < ENTRIES ==>
      Translate(m', cr3, d', t') == if d' == d && t' == t then e else Translate(m, cr3, d', t')
  }

  /** A page has the rights of its own entry. */
  lemma WalkIs(m: Phys, cr3: nat, d: nat, t: nat)
    requires DirectoryOk(m, cr3) && d < RECURSIVE && t < ENTRIES
    ensures Walk(m, cr3, d, t) == match Translate(m, cr3, d, t)
      case None => None
      case Some(w) => Some(Granted(FrameOf(w), FlagsOf(w)))
  {
    if Translate(m, cr3, d, t).Some? { FlagBits(Translate(m, cr3, d, t).value); }
    assert PassesRights(m[cr3][d]);
  }

  lemma FlagBits(w: nat)
    ensures (Writable(w) <==> FlagsOf(w) / 2 % 2 == 1) && (ForUser(w) <==> FlagsOf(w) / 4 % 2 == 1)
  {
    var f, g := w / 4096, w % 4096;
    assert w == 4096 * f + g;
    assert w / 2 == 2048 * f + g / 2 && w / 4 == 1024 * f + g / 4;
  }

  /** An access to page (d, t) reaches a in m', and all other pages are as they were in m, rights included. */
  ghost predicate Grants(m: Phys, m': Phys, cr3: nat, d: nat, t: nat, a: Option<Access>) {
    forall d', t' :: 0 <= d' < RECURSIVE && 0 <= t' < ENTRIES ==>
      Walk(m', cr3, d', t') == if d' == d && t' == t then a else Walk(m, cr3, d', t')
  }

  lemma UpdateGrants(m: Phys, m': Phys, cr3: nat, d: nat, t: nat, e: Option<nat>)
    requires DirectoryOk(m, cr3) && DirectoryOk(m', cr3) && d < RECURSIVE && t < ENTRIES && Updates(m, m', cr3, d, t, e)
    ensures Grants(m, m', cr3, d, t, if e.Some? then Some(Granted(FrameOf(e.value), FlagsOf(e.value))) else None)
  {
    forall d', t' | 0 <= d' < RECURSIVE && 0 <= t' < ENTRIES
      ensures Walk(m', cr3, d', t') == if d' == d && t' == t
        then (if e.Some? then Some(Granted(FrameOf(e.value), FlagsOf(e.value))) else None) else Walk(m, cr3, d', t')
    {
      WalkIs(m, cr3, d', t');
      WalkIs(m', cr3, d', t');
    }
  }

  /** A frame that no entry of the directory uses as a table. */
  ghost predicate Unclaimed(m: Phys, cr3: nat, f: nat) {
    f in m && f != cr3 && cr3 in m && forall e :: 0 <= e < RECURSIVE && Present(m[cr3][e]) ==> FrameOf(m[cr3][e]) != f
  }

  class AddressSpace {
    var phys: Phys
    const cr3: nat

    ghost predicate Valid()
      reads this
    {
      DirectoryOk(phys, cr3)
    }

    constructor (m: Phys, dir: nat)
      requires DirectoryOk(m, dir)
      ensures Valid() && phys == m && cr3 == dir
    {
      phys, cr3 := m, dir;
    }

    /** A word read through the page tables, at index i of page (d, t). */
    method Load(d: nat, t: nat, i: nat) returns (w: nat)
      requires d < ENTRIES && t < ENTRIES && i < ENTRIES
      requires Translate(phys, cr3, d, t).Some? && FrameOf(Translate(phys, cr3, d, t).value) in phys
      ensures w == phys[FrameOf(Translate(phys, cr3, d, t).value)][i]
    {
      var table := FrameOf(phys[cr3][d]);
      var frame := FrameOf(phys[table][t]);
      w := phys[frame][i];
    }

    /** A word that the kernel writes there: it needs the right to. */
    method Store(d: nat, t: nat, i: nat, w: nat)
      requires d < ENTRIES && t < ENTRIES && i < ENTRIES
      requires Translate(phys, cr3, d, t).Some? && FrameOf(Translate(phys, cr3, d, t).value) in phys
      requires Walk(phys, cr3, d, t).value.write
      modifies this
      ensures var f := FrameOf(old(Translate(phys, cr3, d, t)).value); phys == old(phys)[f := old(phys)[f][i := w]]
    {
      var table := FrameOf(phys[cr3][d]);
      var frame := FrameOf(phys[table][t]);
      phys := phys[frame := phys[frame][i := w]];
    }

    /** bzero on table d. */
    method ClearTable(d: nat)
      requires Valid() && d < RECURSIVE && Present(phys[cr3][d])
      modifies this
      ensures var f := FrameOf(old(phys)[cr3][d]); phys == old(phys)[f := seq(ENTRIES, i => 0)]
    {
      ghost var f := FrameOf(phys[cr3][d]);
      for i := 0 to ENTRIES
        invariant DirectoryOk(phys, cr3) && phys[cr3] == old(phys)[cr3]
        invariant f in phys && f in old(phys) && (forall j :: 0 <= j < i ==> phys[f][j] == 0)
        invariant phys == old(phys)[f := phys[f]]
      {
        RecursiveMapping(phys, cr3, d);
        Store(RECURSIVE, d, i, 0);
      }
      assert phys[f] == seq(ENTRIES, i => 0);
    }

    /** A new table, with nothing in it. */
    method AddTable(d: nat, f: nat)
      requires Valid() && d < RECURSIVE && !Present(phys[cr3][d]) && Unclaimed(phys, cr3, f)
      modifies this
      ensures Valid() && Present(phys[cr3][d])
      ensures forall d', t' :: 0 <= d' < RECURSIVE && 0 <= t' < ENTRIES ==>
        Translate(phys, cr3, d', t') == Translate(old(phys), cr3, d', t')
    {
      RecursiveMapping(phys, cr3, RECURSIVE);
      TableRights(f);
      var pde := Entry(f, 7);
      Store(RECURSIVE, RECURSIVE, d, pde);
      Hooked(old(phys), cr3, d, f, pde);
      ClearTable(d);
      Installed(old(phys), phys, cr3, d, f, pde);
    }

    /** vmm_map; spare is what pmm_alloc gives for a table. halted stands for the abort on a page that is mapped,
        and for the assertion that there is a frame for the table. */
    method VmmMap(d: nat, t: nat, frame: nat, flags: nat, spare: Option<nat>) returns (halted: bool)
      requires Valid() && d < RECURSIVE && t < ENTRIES && flags < 4096 && flags % 2 == 1
      requires !Present(phys[cr3][d]) && spare.Some? ==> Unclaimed(phys, cr3, spare.value)
      modifies this
      ensures halted <==> old(Translate(phys, cr3, d, t)).Some? || (!Present(old(phys)[cr3][d]) && spare.None?)
      ensures !halted ==> Valid() && Updates(old(phys), phys, cr3, d, t, Some(Entry(frame, flags)))
      ensures !halted ==> Grants(old(phys), phys, cr3, d, t, Some(Granted(frame, flags)))
      ensures halted ==> phys == old(phys)
    {
      RecursiveMapping(phys, cr3, d);
      var pde := Load(RECURSIVE, RECURSIVE, d);
      if !Present(pde) {
        if spare.None? { return true; }
        AddTable(d, spare.value);
        ghost var m2 := phys;
        RecursiveMapping(phys, cr3, d);
        Store(RECURSIVE, d, t, Entry(frame, flags));
        Written(m2, phys, cr3, d, t, Entry(frame, flags));
      } else {
        var pte := Load(RECURSIVE, d, t);
        if Present(pte) { return true; }
        Store(RECURSIVE, d, t, Entry(frame, flags));
        Written(old(phys), phys, cr3, d, t, Entry(frame, flags));
      }
      UpdateGrants(old(phys), phys, cr3, d, t, Some(Entry(frame, flags)));
      halted := false;
    }

    /** vmm_remap: the page keeps its frame and gets new flags. */
    method VmmRemap(d: nat, t: nat, flags: nat) returns (halted: bool)
      requires Valid() && d < RECURSIVE && t < ENTRIES && flags < 4096 && flags % 2 == 1
      modifies this
      ensures halted <==> old(Translate(phys, cr3, d, t)).None?
      ensures !halted ==> Valid() && Updates(old(phys), phys, cr3, d, t,
        Some(Entry(FrameOf(old(Translate(phys, cr3, d, t)).value), flags)))
      ensures !halted ==> Grants(old(phys), phys, cr3, d, t,
        Some(Granted(FrameOf(old(Translate(phys, cr3, d, t)).value), flags)))
    {
      RecursiveMapping(phys, cr3, d);
      var pde := Load(RECURSIVE, RECURSIVE, d);
      if !Present(pde) { return true; }
      var pte := Load(RECURSIVE, d, t);
      if !Present(pte) { return true; }
      Store(RECURSIVE, d, t, Entry(FrameOf(pte), flags));
      Written(old(phys), phys, cr3, d, t, Entry(FrameOf(pte), flags));
      UpdateGrants(old(phys), phys, cr3, d, t, Some(Entry(FrameOf(pte), flags)));
      halted := false;
    }

    /** vmm_unmap: the present bit is cleared. */
    method VmmUnmap(d: nat, t: nat) returns (halted: bool)
      requires Valid() && d < RECURSIVE && t < ENTRIES
      modifies this
      ensures halted <==> old(Translate(phys, cr3, d, t)).None?
      ensures !halted ==> Valid() && Updates(old(phys), phys, cr3, d, t, None) && Present(phys[cr3][d])
      ensures !halted ==> Grants(old(phys), phys, cr3, d, t, None)
      ensures !halted ==> phys[cr3] == old(phys)[cr3]
    {
      RecursiveMapping(phys, cr3, d);
      var pde := Load(RECURSIVE, RECURSIVE, d);
      if !Present(pde) { return true; }
      var pte := Load(RECURSIVE, d, t);
      if !Present(pte) { return true; }
      Store(RECURSIVE, d, t, pte - 1);
      Written(old(phys), phys, cr3, d, t, pte - 1);
      UpdateGrants(old(phys), phys, cr3, d, t, None);
      halted := false;
    }

    /** vmm_get_physical and vmm_get_flags. */
    method GetEntry(d: nat, t: nat) returns (frame: nat, flags: nat)
      requires Valid() && d < RECURSIVE && t < ENTRIES
      ensures match Translate(phys, cr3, d, t)
        case None => frame == 0 && flags == 0
        case Some(w) => frame == FrameOf(w) && flags == FlagsOf(w)
    {
      frame, flags := 0, 0;
      RecursiveMapping(phys, cr3, d);
      var pde := Load(RECURSIVE, RECURSIVE, d);
      if Present(pde) {
        var pte := Load(RECURSIVE, d, t);
        if Present(pte) { frame, flags := FrameOf(pte), FlagsOf(pte); }
      }
    }
  }

  lemma Written(m: Phys, m': Phys, cr3: nat, d: nat, t: nat, w: nat)
    requires DirectoryOk(m, cr3) && d < RECURSIVE && t < ENTRIES && Present(m[cr3][d])
    requires var f := FrameOf(m[cr3][d]); m' == m[f := m[f][t := w]]
    ensures DirectoryOk(m', cr3) && Updates(m, m', cr3, d, t, if Present(w) then Some(w) else None) && m'[cr3] == m[cr3]
  {
    TableWrite(m, cr3, d, t, w, 0, 0);
    forall d', t' | 0 <= d' < RECURSIVE && 0 <= t' < ENTRIES
      ensures Translate(m', cr3, d', t') ==
        if d' == d && t' == t then (if Present(w) then Some(w) else None) else Translate(m, cr3, d', t')
    {
      TableWrite(m, cr3, d, t, w, d', t');
    }
  }

  /** The entry of a new table, whose page is cleared next. */
  lemma Installed(m: Phys, m': Phys, cr3: nat, d: nat, f: nat, w: nat)
    requires DirectoryOk(m, cr3) && d < RECURSIVE && !Present(m[cr3][d]) && Unclaimed(m, cr3, f)
    requires Present(w) && FrameOf(w) == f && PassesRights(w)
    requires m' == m[cr3 := m[cr3][d := w]][f := seq(ENTRIES, i => 0)]
    ensures DirectoryOk(m', cr3) && Present(m'[cr3][d])
    ensures forall d', t' :: 0 <= d' < RECURSIVE && 0 <= t' < ENTRIES ==>
      Translate(m', cr3, d', t') == Translate(m, cr3, d', t')
  {
    TableInstall(m, cr3, d, f, w, 0, 0);
    forall d', t' | 0 <= d' < RECURSIVE && 0 <= t' < ENTRIES
      ensures Translate(m', cr3, d', t') == Translate(m, cr3, d', t')
    {
      TableInstall(m, cr3, d, f, w, d', t');
    }
  }

  lemma Hooked(m: Phys, cr3: nat, d: nat, f: nat, w: nat)
    requires DirectoryOk(m, cr3) && d < RECURSIVE && Unclaimed(m, cr3, f)
    requires Present(w) && FrameOf(w) == f && PassesRights(w)
    ensures DirectoryOk(m[cr3 := m[cr3][d := w]], cr3)
  {}

  lemma TableRights(f: nat)
    ensures PassesRights(Entry(f, 7))
  {
    FlagBits(Entry(f, 7));
  }
}
