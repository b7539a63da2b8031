/** Directory tables: dir_sdi jumps to an entry, dir_next steps to the one after it. */
module FatDir {
  import opened Bits
  import opened Fat
  import opened FatFile

  const SZDIRE := 32
  const MAX_DIR := 0x20_0000

  datatype DirRes = Found | NoFile | DirDiskErr | DirIntErr

  /** Where the table starts: cluster 0 is the root directory, which is an ordinary chain on FAT32. */
  function TableStart(v: Volume, sclust: nat): nat {
    if sclust == 0 && v.kind == Fat32 then v.dirbase else sclust
  }

  /** The table has an entry at offset ofs. */
  predicate HasEntry(d: Disk, v: Volume, sclust: nat, ofs: nat)
    requires v.csize > 0
  {
    && ofs < MAX_DIR && ofs % SZDIRE == 0
    && (if TableStart(v, sclust) == 0 then ofs / SZDIRE < v.nRootdir && v.dirbase != 0
        else InVolume(v, ClusterAt(d, v, TableStart(v, sclust), ofs / SS)))
  }

  /** The cluster of the entry, 0 in a static table. */
  function EntryCluster(d: Disk, v: Volume, sclust: nat, ofs: nat): nat
    requires v.csize > 0
  {
    if TableStart(v, sclust) == 0 then 0 else ClusterAt(d, v, TableStart(v, sclust), ofs / SS)
  }

  /** The sector of the entry. */
  function EntrySector(d: Disk, v: Volume, sclust: nat, ofs: nat): nat
    requires v.csize > 0
  {
    if TableStart(v, sclust) == 0 then v.dirbase + ofs / SS else SectorAddr(d, v, TableStart(v, sclust), ofs / SS)
  }

  class Dir {
    const fs: FatFs
    const sclust: nat
    var dptr: nat
    var clust: nat
    var sect: nat
    /** Where the entry is in the window. */
    var dir: nat

    constructor (fs: FatFs, sclust: nat)
      ensures this.fs == fs && this.sclust == sclust && sect == 0
    {
      this.fs, this.sclust := fs, sclust;
      dptr, clust, sect, dir := 0, 0, 0, 0;
    }

    /** Mounting accepts only a root directory of whole sectors. */
    ghost predicate Mounted()
      reads fs
    {
      fs.Valid() && fs.v.csize > 0
    }

    /** The object is at the entry at ofs. */
    ghost predicate At(ofs: nat)
      reads this
      requires fs.v.csize > 0
    {
      && HasEntry(fs.disk, fs.v, sclust, ofs) && dptr == ofs
      && clust == EntryCluster(fs.disk, fs.v, sclust, ofs) && sect == EntrySector(fs.disk, fs.v, sclust, ofs)
      && dir == ofs % SS
    }

    /** The loop of dir_sdi that follows the chain to the cluster of offset ofs. */
    method FollowTable(start: nat, ofs: nat) returns (res: DirRes, clst: nat, rem: nat)
      requires Mounted()
      modifies fs
      ensures Mounted()
      ensures res != Found ==> !InVolume(fs.v, ClusterAt(fs.disk, fs.v, start, ofs / SS))
      ensures res == Found ==>
        clst == ClusterAt(fs.disk, fs.v, start, ofs / SS) && rem / SS == Rem(ofs / SS, fs.v.csize)
      ensures rem % SS == ofs % SS
    {
      var csz := fs.v.csize * SS;
      res, clst, rem := Found, start, ofs;
      ghost var k := 0;
      while rem >= csz
        invariant Mounted() && clst == Walk(fs.disk, fs.v, start, k) && ofs == SS * Times(fs.v.csize, k) + rem
        decreases rem
      {
        clst := fs.GetFat(clst);
        TimesNext(fs.v.csize, k);
        k := k + 1;
        rem := rem - csz;
        TableOffset(fs.v.csize, k, rem);
        if clst < 2 || clst >= fs.v.nFatent {
          TableBroken(fs.disk, fs.v, start, k, ofs);
          res := if clst == INVALID then DirDiskErr else DirIntErr;
          return;
        }
      }
      TableOffset(fs.v.csize, k, rem);
      RestBelow(rem, fs.v.csize);
      TimesQuot(fs.v.csize, k, rem / SS);
    }

    /** dir_sdi: succeeds exactly on the offsets of entries. */
    method DirSdi(ofs: nat) returns (res: DirRes)
      requires Mounted()
      modifies this, fs
      ensures Mounted() && (res == Found <==> HasEntry(fs.disk, fs.v, sclust, ofs)) && (res == Found ==> At(ofs))
    {
      if ofs >= MAX_DIR || ofs % SZDIRE != 0 { return DirIntErr; }
      dptr := ofs;
      var clst, rem := TableStart(fs.v, sclust), ofs;
      if clst == 0 {
        if ofs / SZDIRE >= fs.v.nRootdir { return DirIntErr; }
        sect := fs.v.dirbase;
      } else {
        res, clst, rem := FollowTable(clst, ofs);
        if res != Found { return; }
        sect := Clst2Sect(fs.v, clst);
      }
      clust := clst;
      if sect == 0 { return DirIntErr; }
      sect, dir := sect + rem / SS, rem % SS;
      res := Found;
    }

    /** From sector t - 1 to sector t of a table that is a cluster chain; sect has been incremented already. */
    method NextTableSector(t: nat, ghost start: nat) returns (res: DirRes)
      requires Mounted() && t > 0 && clust == ClusterAt(fs.disk, fs.v, start, t - 1) && InVolume(fs.v, clust)
      requires sect == SectorAddr(fs.disk, fs.v, start, t - 1) + 1
      modifies this`clust, this`sect, fs
      ensures Mounted() && (res == Found <==> InVolume(fs.v, ClusterAt(fs.disk, fs.v, start, t)))
      ensures res == Found ==>
        clust == ClusterAt(fs.disk, fs.v, start, t) && sect == SectorAddr(fs.disk, fs.v, start, t)
      ensures res == NoFile ==> fs.v.nFatent <= ClusterAt(fs.disk, fs.v, start, t) != INVALID
    {
      MaskSector(t, fs.v.csize);
      StepDiv(t, fs.v.csize);
      if And(t, fs.v.csize - 1) == 0 {
        var clst := fs.GetFat(clust);
        if clst <= 1 { return DirIntErr; }
        if clst == INVALID { return DirDiskErr; }
        if clst >= fs.v.nFatent {
          sect := 0;
          return NoFile;
        }
        clust := clst;
        sect := Clst2Sect(fs.v, clst);
      }
      res := Found;
    }

    /** dir_next: from an entry to the one 32 bytes on, exactly where dir_sdi would go, and end of table or an error
        exactly where dir_sdi would fail. */
    method DirNext() returns (res: DirRes)
      requires Mounted() && (sect == 0 || At(dptr))
      modifies this, fs
      ensures Mounted() && (old(sect) == 0 ==> res == NoFile)
      ensures old(sect) != 0 ==> (res == Found <==> HasEntry(fs.disk, fs.v, sclust, old(dptr) + SZDIRE))
      ensures res == Found ==> At(old(dptr) + SZDIRE)
      ensures res == NoFile && old(sect) != 0 ==> EndOfTable(fs.disk, fs.v, sclust, old(dptr) + SZDIRE)
    {
      var ofs := dptr + SZDIRE;
      if sect == 0 || ofs >= MAX_DIR { return NoFile; }
      NextOffset(dptr, fs.v.nRootdir);
      if ofs % SS == 0 {
        sect := sect + 1;
        if clust == 0 {
          if ofs / SZDIRE >= fs.v.nRootdir {
            sect := 0;
            return NoFile;
          }
        } else {
          res := NextTableSector(ofs / SS, TableStart(fs.v, sclust));
          if res != Found { return; }
        }
      }
      dptr, dir := ofs, ofs % SS;
      res := Found;
    }

    /** Reading a directory from its start: dir_next visits the entries 0 .. n - 1 in their places, without a gap,
        up to the first offset that has no entry. */
    method Scan() returns (places: seq<(nat, nat)>)
      requires Mounted()
      modifies this, fs
      ensures Mounted() && !HasEntry(fs.disk, fs.v, sclust, SZDIRE * |places|)
      ensures forall i :: 0 <= i < |places| ==>
        HasEntry(fs.disk, fs.v, sclust, SZDIRE * i) && places[i] == Place(SZDIRE * i)
    {
      places := [];
      var res := DirSdi(0);
      while res == Found
        invariant Mounted() && (res == Found <==> HasEntry(fs.disk, fs.v, sclust, SZDIRE * |places|))
        invariant res == Found ==> At(SZDIRE * |places|)
        invariant forall i :: 0 <= i < |places| ==>
          HasEntry(fs.disk, fs.v, sclust, SZDIRE * i) && places[i] == Place(SZDIRE * i)
        decreases MAX_DIR - SZDIRE * |places|
      {
        PositiveSector(fs.disk, fs.v, sclust, dptr);
        places := places + [(sect, dir)];
        res := DirNext();
      }
    }

    /** The sector of the entry at ofs, and where in it the entry is. */
    ghost function Place(ofs: nat): (nat, nat)
      requires fs.v.csize > 0
    {
      (EntrySector(fs.disk, fs.v, sclust, ofs), ofs % SS)
    }

    /** k steps of dir_next from the start: all succeed exactly if the table has an entry at 32 * k, and lead there. */
    method StepTo(k: nat) returns (res: DirRes)
      requires Mounted()
      modifies this, fs
      ensures Mounted() && (res == Found <==> HasEntry(fs.disk, fs.v, sclust, SZDIRE * k))
      ensures res == Found ==> At(SZDIRE * k)
    {
      res := DirSdi(0);
      var i := 0;
      while i < k && res == Found
        invariant i <= k && Mounted() && (res == Found <==> HasEntry(fs.disk, fs.v, sclust, SZDIRE * i))
        invariant res == Found ==> At(SZDIRE * i)
      {
        PositiveSector(fs.disk, fs.v, sclust, dptr);
        res := DirNext();
        i := i + 1;
      }
      if res != Found { NoEntryAfter(fs.disk, fs.v, sclust, SZDIRE * i, SZDIRE * k); }
    }
  }

  /** Stepping k entries on from the first and jumping to the k-th succeed or fail together, and end at the same
      place. */
  method StepIsJump(stepping: Dir, jumping: Dir, k: nat) returns (r: DirRes, s: DirRes)
    requires stepping != jumping && stepping.fs == jumping.fs && stepping.sclust == jumping.sclust && stepping.Mounted()
    modifies stepping, jumping, stepping.fs
    ensures r == Found <==> s == Found
    ensures r == Found ==> stepping.dptr == jumping.dptr == SZDIRE * k && stepping.clust == jumping.clust
    ensures r == Found ==> stepping.sect == jumping.sect && stepping.dir == jumping.dir
  {
    r := stepping.StepTo(k);
    s := jumping.DirSdi(SZDIRE * k);
  }

  /** Behind an offset without an entry there are none. */
  lemma NoEntryAfter(d: Disk, v: Volume, sclust: nat, ofs: nat, later: nat)
    requires v.csize > 0 && !HasEntry(d, v, sclust, ofs) && ofs <= later && ofs % SZDIRE == 0 && later % SZDIRE == 0
    ensures !HasEntry(d, v, sclust, later)
  {
    var c := TableStart(v, sclust);
    if ofs < MAX_DIR && c != 0 {
      var k := Quot(ofs / SS, v.csize);
      QuotTimes(ofs / SS, v.csize, k);
      QuotAtLeast(v.csize, k, later / SS);
      WalkBroken(d, v, c, k, Quot(later / SS, v.csize));
    }
  }

  lemma PositiveSector(d: Disk, v: Volume, sclust: nat, ofs: nat)
    requires v.csize > 0 && v.database > 0 && HasEntry(d, v, sclust, ofs)
    ensures EntrySector(d, v, sclust, ofs) > 0
  {}

  /** The table ends before offset ofs: the size limit, the last root entry, or an end mark in the chain. */
  ghost predicate EndOfTable(d: Disk, v: Volume, sclust: nat, ofs: nat)
    requires v.csize > 0
  {
    || ofs >= MAX_DIR
    || (TableStart(v, sclust) == 0 && ofs / SZDIRE >= v.nRootdir)
    || (TableStart(v, sclust) != 0 && v.nFatent <= ClusterAt(d, v, TableStart(v, sclust), ofs / SS) != INVALID)
  }

  /** One entry on: the same sector, or the first byte of the next one; whole sectors of root entries end at a
      sector's end. */
  lemma NextOffset(x: nat, n: nat)
    requires x % SZDIRE == 0 && n % (SS / SZDIRE) == 0
    ensures (x + SZDIRE) % SZDIRE == 0
    ensures (x + SZDIRE) % SS != 0 ==> (x + SZDIRE) / SS == x / SS
    ensures (x + SZDIRE) % SS != 0 && x / SZDIRE < n ==> (x + SZDIRE) / SZDIRE < n
    ensures (x + SZDIRE) % SS == 0 ==> (x + SZDIRE) / SS == x / SS + 1
  {
    var i, m := x / SZDIRE, n / 16;
    assert x == 32 * i && n == 16 * m;
    var q, r := i / 16, i % 16;
    assert x == SS * q + 32 * r && 32 * r < SS;
    if r == 15 {
      assert x + 32 == SS * (q + 1);
    } else {
      assert x + 32 == SS * q + 32 * (r + 1) && 32 * (r + 1) < SS;
    }
  }

  lemma TimesNext(c: nat, k: nat)
    ensures SS * Times(c, k + 1) == SS * Times(c, k) + c * SS
  {}

  /** An offset k whole clusters and rem bytes into a table. */
  lemma TableOffset(c: nat, k: nat, rem: nat)
    ensures (SS * Times(c, k) + rem) / SS == Times(c, k) + rem / SS && (SS * Times(c, k) + rem) % SS == rem % SS
  {
    OffsetSplit(SS * Times(c, k), rem);
  }

  lemma RestBelow(rem: nat, c: nat)
    requires rem < c * SS
    ensures rem / SS < c
  {}

  lemma TableBroken(d: Disk, v: Volume, c: nat, k: nat, ofs: nat)
    requires v.csize > 0 && ofs >= SS * Times(v.csize, k) && !InVolume(v, Walk(d, v, c, k))
    ensures !InVolume(v, ClusterAt(d, v, c, ofs / SS))
  {
    QuotAtLeast(v.csize, k, ofs / SS);
    WalkBroken(d, v, c, k, Quot(ofs / SS, v.csize));
  }
}
