/** vmm_transient_map and vmm_transient_unmap: a heap page shows another frame for a while. */
module Transients {
  import opened Basics
  import opened Vmm

  /** A transient map: the page, and the frame and flags to put back. */
  datatype Saved = Saved(d: nat, t: nat, frame: nat, flags: nat)

  ghost predicate PageIn(maps: seq<Saved>, d: nat, t: nat) {
    exists i :: 0 <= i < |maps| && maps[i].d == d && maps[i].t == t
  }

  /** orig is the address space as it was: every page that is not transiently mapped is as in orig, and every saved
      entry is the one of orig. */
  ghost predicate Restorable(m: Phys, orig: Phys, cr3: nat, maps: seq<Saved>) {
    && (forall i :: 0 <= i < |maps| ==>
          && maps[i].d < RECURSIVE && maps[i].t < ENTRIES && maps[i].flags < 4096 && maps[i].flags % 2 == 1
          && Translate(orig, cr3, maps[i].d, maps[i].t) == Some(Entry(maps[i].frame, maps[i].flags))
          && Translate(m, cr3, maps[i].d, maps[i].t).Some?)
    && (forall i, j :: 0 <= i < j < |maps| ==> maps[i].d != maps[j].d || maps[i].t != maps[j].t)
    && (forall d, t :: 0 <= d < RECURSIVE && 0 <= t < ENTRIES && !PageIn(maps, d, t) ==>
         Translate(m, cr3, d, t) == Translate(orig, cr3, d, t))
  }

  class TransientMaps {
    const space: AddressSpace
    var maps: seq<Saved>
    ghost var orig: Phys

    ghost predicate Valid()
      reads this, space
    {
      space.Valid() && DirectoryOk(orig, space.cr3) && Restorable(space.phys, orig, space.cr3, maps)
    }

    constructor (s: AddressSpace)
      requires s.Valid()
      ensures Valid() && space == s && maps == [] && orig == s.phys
    {
      space, maps, orig := s, [], s.phys;
    }

    /** The page (d, t) comes from the heap: it is mapped, and not in transient use. */
    method Map(d: nat, t: nat, frame: nat, flags: nat)
      requires Valid() && d < RECURSIVE && t < ENTRIES && flags < 4096 && flags % 2 == 1
      requires !PageIn(maps, d, t) && Translate(space.phys, space.cr3, d, t).Some?
      modifies this`maps, space
      ensures Valid() && |maps| == |old(maps)| + 1 && maps[..|old(maps)|] == old(maps) && maps[|old(maps)|].d == d
      ensures maps[|old(maps)|].t == t
      ensures Translate(space.phys, space.cr3, d, t) == Some(Entry(frame, flags))
      ensures Walk(space.phys, space.cr3, d, t) == Some(Granted(frame, flags))
    {
      var f0, flags0 := space.GetEntry(d, t);
      ghost var w := Translate(space.phys, space.cr3, d, t).value;
      WordParts(w);
      ghost var m0 := space.phys;
      var h := space.VmmUnmap(d, t);
      ghost var m1 := space.phys;
      h := space.VmmMap(d, t, frame, flags, None);
      MapRestorable(m0, m1, space.phys, orig, space.cr3, maps, d, t, Entry(frame, flags), Saved(d, t, f0, flags0));
      maps := maps + [Saved(d, t, f0, flags0)];
    }

    /** The map of this page, wherever it is in the list, is undone; halted stands for the panic when there is none. */
    method Unmap(d: nat, t: nat) returns (halted: bool)
      requires Valid() && d < RECURSIVE && t < ENTRIES
      modifies this`maps, space
      ensures halted <==> !PageIn(old(maps), d, t)
      ensures !halted ==>
        Valid() && !PageIn(maps, d, t) && Translate(space.phys, space.cr3, d, t) == Translate(orig, space.cr3, d, t)
      ensures !halted ==> Walk(space.phys, space.cr3, d, t) == Walk(orig, space.cr3, d, t)
      ensures !halted ==> |maps| == |old(maps)| - 1
    {
      var i := 0;
      while i < |maps| && !(maps[i].d == d && maps[i].t == t)
        invariant i <= |maps| && forall j :: 0 <= j < i ==> !(maps[j].d == d && maps[j].t == t)
      {
        i := i + 1;
      }
      if i == |maps| { return true; }
      var s := maps[i];
      ghost var m0 := space.phys;
      var h := space.VmmUnmap(d, t);
      ghost var m1 := space.phys;
      h := space.VmmMap(d, t, s.frame, s.flags, None);
      UnmapRestorable(m0, m1, space.phys, orig, space.cr3, maps, i);
      maps := maps[..i] + maps[i + 1..];
      WalkIs(space.phys, space.cr3, d, t);
      WalkIs(orig, space.cr3, d, t);
      halted := false;
    }
  }

  lemma WordParts(w: nat)
    requires Present(w)
    ensures FlagsOf(w) < 4096 && FlagsOf(w) % 2 == 1 && Entry(FrameOf(w), FlagsOf(w)) == w
  {}

  lemma MapRestorable(m0: Phys, m1: Phys, m2: Phys, orig: Phys, cr3: nat, maps: seq<Saved>, d: nat, t: nat, e: nat,
                      s: Saved)
    requires Restorable(m0, orig, cr3, maps) && d < RECURSIVE && t < ENTRIES && !PageIn(maps, d, t)
    requires s.d == d && s.t == t && s.flags < 4096 && s.flags % 2 == 1
    requires Translate(m0, cr3, d, t) == Some(Entry(s.frame, s.flags))
    requires Updates(m0, m1, cr3, d, t, None) && Updates(m1, m2, cr3, d, t, Some(e))
    ensures Restorable(m2, orig, cr3, maps + [s])
  {
    var ms := maps + [s];
    assert ms[|maps|] == s;
    forall d', t' | 0 <= d' < RECURSIVE && 0 <= t' < ENTRIES && !PageIn(ms, d', t')
      ensures Translate(m2, cr3, d', t') == Translate(orig, cr3, d', t')
    {
      PageInAppend(maps, s, d', t');
    }
  }

  lemma PageInAppend(maps: seq<Saved>, s: Saved, d: nat, t: nat)
    ensures PageIn(maps + [s], d, t) <==> PageIn(maps, d, t) || (s.d == d && s.t == t)
  {
    var ms := maps + [s];
    assert ms[|maps|] == s;
    if PageIn(maps, d, t) {
      var i :| 0 <= i < |maps| && maps[i].d == d && maps[i].t == t;
      assert ms[i] == maps[i];
    }
  }

  lemma PageInDrop(maps: seq<Saved>, k: nat, d: nat, t: nat)
    requires k < |maps|
    ensures PageIn(maps, d, t) <==> PageIn(maps[..k] + maps[k + 1..], d, t) || (maps[k].d == d && maps[k].t == t)
  {
    var ms := maps[..k] + maps[k + 1..];
    if PageIn(maps, d, t) {
      var i :| 0 <= i < |maps| && maps[i].d == d && maps[i].t == t;
      assert i != k ==> ms[if i < k then i else i - 1] == maps[i];
    }
    if PageIn(ms, d, t) {
      var i :| 0 <= i < |ms| && ms[i].d == d && ms[i].t == t;
      assert ms[i] == maps[if i < k then i else i + 1];
    }
  }

  lemma UnmapRestorable(m0: Phys, m1: Phys, m2: Phys, orig: Phys, cr3: nat, maps: seq<Saved>, k: nat)
    requires Restorable(m0, orig, cr3, maps) && k < |maps|
    requires var s := maps[k];
      Updates(m0, m1, cr3, s.d, s.t, None) && Updates(m1, m2, cr3, s.d, s.t, Some(Entry(s.frame, s.flags)))
    ensures Restorable(m2, orig, cr3, maps[..k] + maps[k + 1..])
    ensures !PageIn(maps[..k] + maps[k + 1..], maps[k].d, maps[k].t)
    ensures Translate(m2, cr3, maps[k].d, maps[k].t) == Translate(orig, cr3, maps[k].d, maps[k].t)
  {
    var ms, s := maps[..k] + maps[k + 1..], maps[k];
    forall i | 0 <= i < |ms| ensures ms[i] == maps[if i < k then i else i + 1] {}
    forall d', t' | 0 <= d' < RECURSIVE && 0 <= t' < ENTRIES && !PageIn(ms, d', t')
      ensures Translate(m2, cr3, d', t') == Translate(orig, cr3, d', t')
    {
      PageInDrop(maps, k, d', t');
    }
  }
}
