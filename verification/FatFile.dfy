/** Reading a file: f_read and f_lseek against the bytes that the cluster chain holds. */
module FatFile {
  import opened Basics
  import opened Bits
  import opened Fat

  datatype Res = Ok | DiskErr | IntErr

  // ---- what a file holds ------------------------------------------------------------------------------

  /** The cluster reached from c over k links of the table. */
  function Walk(d: Disk, v: Volume, c: nat, k: nat): nat {
    if k == 0 then c else Link(d, v, Walk(d, v, c, k - 1))
  }

  predicate InVolume(v: Volume, c: nat) { 2 <= c < v.nFatent }

  /** The first sector of cluster c: clusters follow each other from the data area's start on. */
  function FirstSector(v: Volume, c: nat): (r: nat)
    ensures r >= v.database
  {
    if c <= 2 then v.database else FirstSector(v, c - 1) + v.csize
  }

  /** How many whole clusters of n sectors come before sector t of the file. */
  function Quot(t: nat, n: nat): nat
    requires n > 0
  {
    if t < n then 0 else 1 + Quot(t - n, n)
  }

  /** The place of sector t in its cluster. */
  function Rem(t: nat, n: nat): (r: nat)
    requires n > 0
    ensures r < n
  {
    if t < n then t else Rem(t - n, n)
  }

  /** The cluster of sector t of the file that starts at cluster c. */
  function ClusterAt(d: Disk, v: Volume, c: nat, t: nat): nat
    requires v.csize > 0
  {
    Walk(d, v, c, Quot(t, v.csize))
  }

  /** Where sector t of the file lies. */
  function SectorAddr(d: Disk, v: Volume, c: nat, t: nat): nat
    requires v.csize > 0
  {
    FirstSector(v, ClusterAt(d, v, c, t)) + Rem(t, v.csize)
  }

  /** The file is its clusters one after another; sector t of it can be read. */
  predicate HasSector(d: Disk, v: Volume, c: nat, t: nat)
    requires v.csize > 0
  {
    InVolume(v, ClusterAt(d, v, c, t)) && SectorAddr(d, v, c, t) in d
  }

  predicate HasFileByte(d: Disk, v: Volume, c: nat, x: nat)
    requires v.csize > 0
  {
    HasSector(d, v, c, x / SS)
  }

  function FileByte(d: Disk, v: Volume, c: nat, x: nat): Byte
    requires v.csize > 0 && HasFileByte(d, v, c, x)
  {
    d[SectorAddr(d, v, c, x / SS)][x % SS]
  }

  /** The bytes of the file from x on. */
  ghost predicate Holds(d: Disk, v: Volume, c: nat, x: nat, data: seq<Byte>)
    requires v.csize > 0
  {
    forall k :: x <= k < x + |data| ==> HasFileByte(d, v, c, k) && data[k - x] == FileByte(d, v, c, k)
  }

  // ---- arithmetic of sectors and clusters -------------------------------------------------------------

  lemma Pow2Positive(c: nat)
    requires IsPow2(c)
    ensures c > 0
  {
    var k: nat :| c == Pow2(k);
  }

  lemma {:induction false} QuotRem(t: nat, n: nat)
    requires n > 0
    ensures t == n * Quot(t, n) + Rem(t, n) && Quot(t, n) == t / n && Rem(t, n) == t % n
  {
    if t >= n {
      QuotRem(t - n, n);
      assert n * Quot(t, n) == n + n * Quot(t - n, n);
    } else {
      assert n * Quot(t, n) == 0;
    }
    ModUnique(t, n, Quot(t, n), Rem(t, n));
  }

  /** fptr / SS & (csize - 1) is the sector's place in its cluster. */
  lemma MaskSector(t: nat, c: nat)
    requires IsPow2(c)
    ensures c > 0 && And(t, c - 1) == Rem(t, c)
  {
    var k: nat :| c == Pow2(k);
    MaskIsMod(t, k);
    QuotRem(t, c);
  }

  lemma {:induction false} StepDiv(t: nat, n: nat)
    requires n > 0 && t > 0
    ensures Rem(t, n) == 0 ==> Quot(t, n) > 0 && Quot(t - 1, n) == Quot(t, n) - 1
    ensures Rem(t, n) != 0 ==> Quot(t - 1, n) == Quot(t, n) && Rem(t - 1, n) + 1 == Rem(t, n)
  {
    assert Rem(0, n) == 0 && Quot(0, n) == 0;
    if t > n {
      StepDiv(t - n, n);
      assert Quot(t - 1, n) == 1 + Quot(t - 1 - n, n);
    }
  }

  lemma {:induction false} RunDiv(t: nat, n: nat, i: nat)
    requires n > 0 && Rem(t, n) + i < n
    ensures Quot(t + i, n) == Quot(t, n) && Rem(t + i, n) == Rem(t, n) + i
  {
    if t >= n { RunDiv(t - n, n, i); }
  }

  lemma {:induction false} FirstSectorIs(v: Volume, c: nat)
    requires c >= 2
    ensures FirstSector(v, c) == v.database + v.csize * (c - 2)
  {
    if c > 2 {
      FirstSectorIs(v, c - 1);
      assert v.csize * (c - 2) == v.csize * (c - 3) + v.csize;
    }
  }

  /** The first sector of the k-th cluster of a file, in sectors of the file. */
  function Times(n: nat, k: nat): nat { if k == 0 then 0 else Times(n, k - 1) + n }

  lemma {:induction false} TimesQuot(n: nat, k: nat, r: nat)
    requires r < n
    ensures Quot(Times(n, k) + r, n) == k && Rem(Times(n, k) + r, n) == r
  {
    if k > 0 {
      TimesQuot(n, k - 1, r);
      assert Times(n, k) + r - n == Times(n, k - 1) + r;
    }
  }

  lemma {:induction false} TimesIs(n: nat, k: nat)
    ensures Times(n, k) == n * k
  {
    if k > 0 {
      TimesIs(n, k - 1);
      assert n * k == n * (k - 1) + n;
    }
  }

  /** Division by the cluster size in bytes, by way of sectors. */
  lemma NestedDiv(x: nat, n: nat)
    requires n > 0
    ensures n * SS > 0 && x / (n * SS) == Quot(x / SS, n)
    ensures x - x % (n * SS) == SS * Times(n, Quot(x / SS, n))
  {
    var t := x / SS;
    var k := Quot(t, n);
    QuotRem(t, n);
    TimesIs(n, k);
    var r: nat := SS * Rem(t, n) + x % SS;
    assert x == (n * SS) * k + r by {
      assert x == SS * t + x % SS;
      assert SS * t == SS * (n * k) + SS * Rem(t, n);
      assert SS * (n * k) == (n * SS) * k;
    }
    ModUnique(x, n * SS, k, r);
  }

  /** `x & ~(bcs - 1)` is the start of the cluster that byte x of the file is in. */
  lemma MaskCluster(x: nat, n: nat)
    requires IsPow2(n) && n <= 128 && x < WORD
    ensures 0 < n * SS <= 0x1_0000 && And(x, Not32(n * SS - 1)) == SS * Times(n, Quot(x / SS, n))
  {
    var k: nat :| n == Pow2(k);
    Pow2Add(k, 9);
    Pow2Small();
    if k >= 8 { Pow2Monotone(8, k); }
    Pow2Monotone(k + 9, 16);
    AndNotSplit(x, n * SS - 1, 32);
    MaskIsMod(x, k + 9);
    NestedDiv(x, n);
  }

  /** `~x` */
  function Not32(x: nat): nat
    requires x < WORD
  {
    WORD - 1 - x
  }

  // ---- disk_read ----------------------------------------------------------------------------------------

  predicate Readable(d: Disk, s: nat, n: nat) { forall i :: s <= i < s + n ==> i in d }

  /** n sectors from s on. */
  function Sectors(d: Disk, s: nat, n: nat): (r: seq<Byte>)
    requires Readable(d, s, n)
    ensures |r| == SS * n
  {
    if n == 0 then [] else Sectors(d, s, n - 1) + d[s + n - 1]
  }

  lemma {:induction false} SectorsAt(d: Disk, s: nat, n: nat, i: nat)
    requires Readable(d, s, n) && i < SS * n
    ensures i / SS < n && Sectors(d, s, n)[i] == d[s + i / SS][i % SS]
  {
    if i < SS * (n - 1) {
      SectorsAt(d, s, n - 1, i);
    } else {
      assert i / SS == n - 1 && i % SS == i - SS * (n - 1);
    }
  }

  method DiskRead(d: Disk, s: nat, n: nat) returns (ok: bool, data: seq<Byte>)
    ensures ok <==> Readable(d, s, n)
    ensures ok ==> data == Sectors(d, s, n)
  {
    data := [];
    for k := 0 to n
      invariant Readable(d, s, k) && data == Sectors(d, s, k)
    {
      if s + k !in d { return false, []; }
      data := data + d[s + k];
    }
    ok := true;
  }

  lemma OffsetSplit(x: nat, i: nat)
    requires x % SS == 0
    ensures (x + i) / SS == x / SS + i / SS && (x + i) % SS == i % SS
  {}

  /** Byte i of a run of sectors in one cluster. */
  lemma WholeByte(d: Disk, v: Volume, c: nat, x: nat, cc: nat, i: nat)
    requires v.csize > 0 && x % SS == 0 && Rem(x / SS, v.csize) + cc <= v.csize && i < SS * cc
    requires InVolume(v, ClusterAt(d, v, c, x / SS)) && Readable(d, SectorAddr(d, v, c, x / SS), cc)
    ensures HasFileByte(d, v, c, x + i) && Sectors(d, SectorAddr(d, v, c, x / SS), cc)[i] == FileByte(d, v, c, x + i)
  {
    SectorsAt(d, SectorAddr(d, v, c, x / SS), cc, i);
    RunDiv(x / SS, v.csize, i / SS);
    OffsetSplit(x, i);
  }

  /** A sector missing from the run is missing from the file. */
  lemma WholeGap(d: Disk, v: Volume, c: nat, x: nat, cc: nat, k: nat)
    requires v.csize > 0 && x % SS == 0 && Rem(x / SS, v.csize) + cc <= v.csize && k < cc
    requires SectorAddr(d, v, c, x / SS) + k !in d
    ensures !HasFileByte(d, v, c, x + SS * k)
  {
    RunDiv(x / SS, v.csize, k);
    OffsetSplit(x, SS * k);
  }

  /** Bytes x .. y - 1 of the file can all be read. */
  ghost predicate Complete(d: Disk, v: Volume, c: nat, x: nat, y: nat)
    requires v.csize > 0
  {
    forall i :: x <= i < y ==> HasFileByte(d, v, c, i)
  }

  /** cc whole sectors of one cluster are the file's next bytes. */
  lemma WholeSectors(d: Disk, v: Volume, c: nat, x: nat, cc: nat)
    requires v.csize > 0 && x % SS == 0 && cc > 0 && Rem(x / SS, v.csize) + cc <= v.csize
    requires InVolume(v, ClusterAt(d, v, c, x / SS))
    ensures var s := SectorAddr(d, v, c, x / SS);
      && (Readable(d, s, cc) ==> Holds(d, v, c, x, Sectors(d, s, cc)))
      && (!Readable(d, s, cc) ==> !Complete(d, v, c, x, x + SS * cc))
    ensures ClusterAt(d, v, c, (x + SS * cc - 1) / SS) == ClusterAt(d, v, c, x / SS) && (x + SS * cc) % SS == 0
  {
    var s := SectorAddr(d, v, c, x / SS);
    WholeEnd(d, v, c, x, cc);
    if Readable(d, s, cc) {
      var data := Sectors(d, s, cc);
      forall k | x <= k < x + SS * cc ensures HasFileByte(d, v, c, k) && data[k - x] == FileByte(d, v, c, k) {
        WholeByte(d, v, c, x, cc, k - x);
      }
    } else {
      WholeMissing(d, v, c, x, cc);
    }
  }

  lemma WholeEnd(d: Disk, v: Volume, c: nat, x: nat, cc: nat)
    requires v.csize > 0 && x % SS == 0 && cc > 0 && Rem(x / SS, v.csize) + cc <= v.csize
    requires InVolume(v, ClusterAt(d, v, c, x / SS))
    ensures ClusterAt(d, v, c, (x + SS * cc - 1) / SS) == ClusterAt(d, v, c, x / SS) && (x + SS * cc) % SS == 0
  {
    OffsetSplit(x, SS * cc);
    OffsetSplit(x, SS * cc - 1);
    RunDiv(x / SS, v.csize, cc - 1);
  }

  lemma WholeMissing(d: Disk, v: Volume, c: nat, x: nat, cc: nat)
    requires v.csize > 0 && x % SS == 0 && Rem(x / SS, v.csize) + cc <= v.csize
    requires !Readable(d, SectorAddr(d, v, c, x / SS), cc)
    ensures !Complete(d, v, c, x, x + SS * cc)
  {
    var s := SectorAddr(d, v, c, x / SS);
    var n :| s <= n < s + cc && n !in d;
    WholeGap(d, v, c, x, cc, n - s);
  }

  /** Part of one sector is the file's next bytes. */
  lemma PartSector(d: Disk, v: Volume, c: nat, x: nat, n: nat)
    requires v.csize > 0 && 0 < n <= SS - x % SS && HasSector(d, v, c, x / SS)
    ensures Holds(d, v, c, x, d[SectorAddr(d, v, c, x / SS)][x % SS..x % SS + n])
    ensures (x + n - 1) / SS == x / SS && ((x + n) % SS != 0 ==> (x + n) / SS == x / SS)
  {
    var data := d[SectorAddr(d, v, c, x / SS)][x % SS..x % SS + n];
    forall k | x <= k < x + n
      ensures HasFileByte(d, v, c, k) && data[k - x] == FileByte(d, v, c, k)
    {
      WithinSector(x, k - x);
    }
    EndOfPart(x, n);
  }

  lemma EndOfPart(x: nat, n: nat)
    requires 0 < n <= SS - x % SS
    ensures (x + n - 1) / SS == x / SS && ((x + n) % SS != 0 ==> (x + n) / SS == x / SS)
  {
    var q, r := x / SS, x % SS;
    assert x + n - 1 == SS * q + (r + n - 1);
    assert x + n == SS * q + (r + n);
  }

  lemma InsideSector(x: nat)
    requires x % SS != 0
    ensures x > 0 && (x - 1) / SS == x / SS
  {}

  lemma WithinSector(x: nat, i: nat)
    requires x % SS + i < SS
    ensures (x + i) / SS == x / SS && (x + i) % SS == x % SS + i
  {}

  /** clust holds the byte before the position x, and buf shows the sector that x is inside of. */
  ghost predicate PlacedAt(d: Disk, v: Volume, c: nat, x: nat, clust: nat, sect: nat, buf: Sector)
    requires v.csize > 0
  {
    && (x > 0 ==> clust == ClusterAt(d, v, c, (x - 1) / SS) && clust != 0 && c != 0)
    && (x > 0 && Quot((x - 1) / SS, v.csize) > 0 ==> InVolume(v, clust))
    && (sect != 0 ==> sect in d && buf == d[sect])
    && (x % SS != 0 ==> HasSector(d, v, c, x / SS) && sect == SectorAddr(d, v, c, x / SS))
  }

  /** The cluster of the sector that starts at x: the first one, or the same as that of the byte before, or the next. */
  lemma NextCluster(d: Disk, v: Volume, c: nat, x: nat)
    requires v.csize > 0 && x % SS == 0
    ensures x == 0 ==> ClusterAt(d, v, c, x / SS) == c && Rem(x / SS, v.csize) == 0
    ensures x > 0 ==> var t, before := x / SS, ClusterAt(d, v, c, (x - 1) / SS);
      ClusterAt(d, v, c, t) == if Rem(t, v.csize) == 0 then Link(d, v, before) else before
  {
    if x > 0 {
      assert (x - 1) / SS == x / SS - 1;
      StepDiv(x / SS, v.csize);
    }
  }

  /** clst2sect */
  method Clst2Sect(v: Volume, clst: nat) returns (r: nat)
    ensures r == if InVolume(v, clst) then FirstSector(v, clst) else 0
  {
    if clst < 2 || clst - 2 >= v.nFatent - 2 { return 0; }
    FirstSectorIs(v, clst);
    r := v.database + v.csize * (clst - 2);
  }

  // ---- the file object ------------------------------------------------------------------------------------

  class File {
    const fs: FatFs
    const sclust: nat
    const objsize: nat
    var fptr: nat
    var clust: nat
    var sect: nat
    var buf: Sector
    var err: Res

    constructor (fs: FatFs, sclust: nat, objsize: nat)
      requires fs.Valid() && objsize < WORD
      ensures Valid() && this.fs == fs && this.sclust == sclust && this.objsize == objsize && fptr == 0 && err == Ok
    {
      this.fs, this.sclust, this.objsize := fs, sclust, objsize;
      fptr, clust, sect, err := 0, 0, 0, Ok;
      buf := seq(SS, i => 0);
      new;
      Pow2Positive(fs.v.csize);
    }

    ghost predicate Placed()
      reads this
    {
      fs.v.csize > 0 && PlacedAt(fs.disk, fs.v, sclust, fptr, clust, sect, buf)
    }

    ghost predicate Valid()
      reads this, fs
    {
      fs.Valid() && fs.v.csize > 0 && fptr <= objsize < WORD && (err == Ok ==> Placed())
    }

    /** The read position is at a byte of the cluster clust; the cache is right. */
    ghost predicate AtCluster()
      reads this, fs
    {
      && fs.Valid() && fs.v.csize > 0 && fptr <= objsize < WORD
      && clust == ClusterAt(fs.disk, fs.v, sclust, fptr / SS) && InVolume(fs.v, clust)
      && (sect != 0 ==> sect in fs.disk && buf == fs.disk[sect])
    }

    /** The sector at the read position, which is on a sector boundary; the cluster moves on at a cluster boundary. */
    method NextSector() returns (res: Res, s: nat, csect: nat)
      requires Valid() && err == Ok && fptr % SS == 0
      modifies this`clust, fs
      ensures fs.Valid()
      ensures res == Ok <==> InVolume(fs.v, ClusterAt(fs.disk, fs.v, sclust, fptr / SS))
      ensures res == Ok ==> clust == ClusterAt(fs.disk, fs.v, sclust, fptr / SS) && csect == Rem(fptr / SS, fs.v.csize)
      ensures res == Ok ==> s == SectorAddr(fs.disk, fs.v, sclust, fptr / SS) && s > 0
    {
      var t := fptr / SS;
      MaskSector(t, fs.v.csize);
      s, csect := 0, And(t, fs.v.csize - 1);
      NextCluster(fs.disk, fs.v, sclust, fptr);
      if csect == 0 {
        var clst := sclust;
        if fptr != 0 {
          clst := fs.GetFat(clust);
        }
        if clst < 2 { return IntErr, 0, 0; }
        if clst == INVALID { return DiskErr, 0, 0; }
        clust := clst;
      }
      s := Clst2Sect(fs.v, clust);
      if s == 0 { return IntErr, 0, csect; }
      s := s + csect;
      res := Ok;
    }

    /** Whole sectors of the current cluster, straight from the disk. */
    method ReadWhole(s: nat, csect: nat, btr: nat) returns (res: Res, piece: seq<Byte>)
      requires AtCluster() && err == Ok && fptr % SS == 0 && SS <= btr <= objsize - fptr
      requires csect == Rem(fptr / SS, fs.v.csize)
      requires s == SectorAddr(fs.disk, fs.v, sclust, fptr / SS)
      modifies this`fptr, this`err
      ensures Valid() && err == res && res != IntErr
      ensures res == Ok ==>
        0 < |piece| <= btr && fptr == old(fptr) + |piece| && Holds(fs.disk, fs.v, sclust, old(fptr), piece)
      ensures res != Ok ==> fptr == old(fptr) && piece == [] && !Complete(fs.disk, fs.v, sclust, fptr, fptr + btr)
    {
      var cc := btr / SS;
      if csect + cc > fs.v.csize { cc := fs.v.csize - csect; }
      WholeSectors(fs.disk, fs.v, sclust, fptr, cc);
      HasStart(fs.disk, fs.v, sclust, fptr / SS);
      var ok;
      ok, piece := DiskRead(fs.disk, s, cc);
      if !ok {
        err := DiskErr;
        return DiskErr, [];
      }
      assert PlacedAt(fs.disk, fs.v, sclust, fptr + SS * cc, clust, sect, buf);
      fptr := fptr + SS * cc;
      res := Ok;
    }

    /** Part of the sector that buf shows. */
    method ReadPart(btr: nat) returns (piece: seq<Byte>)
      requires AtCluster() && err == Ok && 0 < btr <= objsize - fptr
      requires sect == SectorAddr(fs.disk, fs.v, sclust, fptr / SS) && sect in fs.disk && buf == fs.disk[sect]
      modifies this`fptr
      ensures Valid() && 0 < |piece| <= btr && fptr == old(fptr) + |piece|
      ensures Holds(fs.disk, fs.v, sclust, old(fptr), piece)
    {
      var rcnt := SS - fptr % SS;
      if rcnt > btr { rcnt := btr; }
      PartSector(fs.disk, fs.v, sclust, fptr, rcnt);
      HasStart(fs.disk, fs.v, sclust, fptr / SS);
      piece := buf[fptr % SS..fptr % SS + rcnt];
      assert PlacedAt(fs.disk, fs.v, sclust, fptr + rcnt, clust, sect, buf);
      fptr := fptr + rcnt;
    }

    /** One round of the loop of f_read: at most btr bytes, or a failure because one of them cannot be read. */
    method ReadPiece(btr: nat) returns (res: Res, piece: seq<Byte>)
      requires Valid() && err == Ok && 0 < btr <= objsize - fptr
      modifies this, fs
      ensures Valid() && err == res
      ensures res == Ok ==>
        0 < |piece| <= btr && fptr == old(fptr) + |piece| && Holds(fs.disk, fs.v, sclust, old(fptr), piece)
      ensures res != Ok ==> fptr == old(fptr) && piece == [] && !Complete(fs.disk, fs.v, sclust, fptr, fptr + btr)
    {
      if fptr % SS == 0 {
        var s, csect;
        res, s, csect := NextSector();
        if res != Ok {
          assert !HasFileByte(fs.disk, fs.v, sclust, fptr);
          err := res;
          return res, [];
        }
        if btr / SS > 0 {
          res, piece := ReadWhole(s, csect, btr);
          return;
        }
        if sect != s {
          if s !in fs.disk {
            assert !HasFileByte(fs.disk, fs.v, sclust, fptr);
            err := DiskErr;
            return DiskErr, [];
          }
          buf := fs.disk[s];
        }
        sect := s;
      }
      if fptr % SS != 0 { InsideSector(fptr); }
      piece := ReadPart(btr);
      res := Ok;
    }

    /** f_read: the bytes of the file from the read position on, as many as asked for and as the file has. It fails
        exactly when one of them cannot be read, and has then delivered the bytes before the failing run. */
    method FRead(btr: nat) returns (res: Res, data: seq<Byte>)
      requires Valid()
      modifies this, fs
      ensures Valid() && err == res && fptr == old(fptr) + |data|
      ensures old(err) != Ok ==> res == old(err) && data == []
      ensures old(err) == Ok ==> Holds(fs.disk, fs.v, sclust, old(fptr), data)
      ensures var n := if btr > objsize - old(fptr) then objsize - old(fptr) else btr;
        && (res == Ok ==> |data| == n)
        && (old(err) == Ok ==> (res == Ok <==> Complete(fs.disk, fs.v, sclust, old(fptr), old(fptr) + n)))
    {
      data := [];
      if err != Ok { return err, []; }
      var n := if btr > objsize - fptr then objsize - fptr else btr;
      while |data| < n
        invariant Valid() && err == Ok && fptr == old(fptr) + |data| && |data| <= n
        invariant Holds(fs.disk, fs.v, sclust, old(fptr), data)
        decreases n - |data|
      {
        var piece;
        ghost var x := fptr;
        res, piece := ReadPiece(n - |data|);
        if res != Ok {
          CompletePart(fs.disk, fs.v, sclust, old(fptr), fptr, old(fptr) + n);
          return;
        }
        HoldsJoin(fs.disk, fs.v, sclust, old(fptr), data, piece);
        data := data + piece;
      }
      HoldsComplete(fs.disk, fs.v, sclust, old(fptr), data);
      res := Ok;
    }

    /** The cluster following loop of f_lseek: from the k-th cluster to the one that holds byte target - 1. */
    method Follow(ghost k0: nat, target: nat) returns (res: Res, rem: nat, ghost k: nat)
      requires fs.Valid() && fs.v.csize > 0 && err == Ok && clust == Walk(fs.disk, fs.v, sclust, k0) && clust != 0
      requires fptr == SS * Times(fs.v.csize, k0) && fptr < target && (k0 > 0 ==> InVolume(fs.v, clust))
      modifies this`fptr, this`clust, fs
      ensures fs.Valid() && k >= k0
      ensures res == Ok ==> fptr == SS * Times(fs.v.csize, k) && fptr + rem == target && 0 < rem <= SS * fs.v.csize
      ensures res == Ok ==> clust == Walk(fs.disk, fs.v, sclust, k) && clust != 0 && (k > 0 ==> InVolume(fs.v, clust))
      ensures res != Ok ==> !Reachable(fs.disk, fs.v, sclust, target) && fptr < target
    {
      var bcs := fs.v.csize * SS;
      rem, k, res := target - fptr, k0, Ok;
      while rem > bcs
        invariant fs.Valid() && k >= k0 && fptr == SS * Times(fs.v.csize, k) && fptr + rem == target && 0 < rem
        invariant clust == Walk(fs.disk, fs.v, sclust, k) && clust != 0 && (k > 0 ==> InVolume(fs.v, clust))
        decreases rem
      {
        rem, fptr := rem - bcs, fptr + bcs;
        var clst := fs.GetFat(clust);
        k := k + 1;
        if clst <= 1 || clst >= fs.v.nFatent {
          BrokenChain(fs.disk, fs.v, sclust, k, target);
          res := if clst == INVALID then DiskErr else IntErr;
          return;
        }
        clust := clst;
      }
    }

    /** Where f_lseek starts: the current cluster when the target is not before it, else the first cluster. */
    method SeekStart(target: nat) returns (ghost k: nat)
      requires Valid() && err == Ok && 0 < target <= objsize
      modifies this`fptr, this`clust
      ensures clust == Walk(fs.disk, fs.v, sclust, k) && fptr == SS * Times(fs.v.csize, k) && fptr < target
      ensures (clust == 0 <==> sclust == 0) && (clust == 0 ==> fptr == 0) && (k > 0 ==> InVolume(fs.v, clust))
    {
      var bcs := fs.v.csize * SS;
      if fptr > 0 && (target - 1) / bcs >= (fptr - 1) / bcs {
        k := Quot((fptr - 1) / SS, fs.v.csize);
        SameStart(fptr - 1, target - 1, fs.v.csize);
        fptr := And(fptr - 1, Not32(bcs - 1));
      } else {
        k := 0;
        clust, fptr := sclust, 0;
      }
    }

    /** The end of f_lseek: rem bytes into the k-th cluster; a position inside a sector needs that sector in buf. */
    method LoadAt(rem: nat, ghost k: nat) returns (res: Res)
      requires fs.Valid() && fs.v.csize > 0 && err == Ok && fptr <= objsize < WORD
      requires sect != 0 ==> sect in fs.disk && buf == fs.disk[sect]
      requires clust == Walk(fs.disk, fs.v, sclust, k) && clust != 0 && sclust != 0
      requires fptr == SS * Times(fs.v.csize, k) + rem && 0 < rem <= SS * fs.v.csize
      requires k > 0 ==> InVolume(fs.v, clust)
      modifies this`sect, this`buf, this`err
      ensures Valid() && err == res && (res == Ok <==> Reachable(fs.disk, fs.v, sclust, fptr))
    {
      SeekEnd(fs.v.csize, k, rem);
      res := Ok;
      if rem % SS != 0 {
        var nsect := Clst2Sect(fs.v, clust);
        if nsect == 0 {
          err := IntErr;
          return IntErr;
        }
        nsect := nsect + rem / SS;
        if nsect != sect {
          if nsect !in fs.disk {
            err := DiskErr;
            return DiskErr;
          }
          buf, sect := fs.disk[nsect], nsect;
        }
      }
    }

    /** f_lseek for a target inside the file, not its start. */
    method SeekTo(target: nat) returns (res: Res)
      requires Valid() && err == Ok && 0 < target <= objsize
      modifies this, fs
      ensures Valid() && err == res && (res == Ok ==> fptr == if sclust == 0 then 0 else target)
      ensures res == Ok <==> sclust == 0 || Reachable(fs.disk, fs.v, sclust, target)
    {
      ghost var k := SeekStart(target);
      if clust == 0 { return Ok; }
      var rem;
      res, rem, k := Follow(k, target);
      if res != Ok {
        err := res;
        return;
      }
      fptr := fptr + rem;
      res := LoadAt(rem, k);
    }

    /** f_lseek: the read position goes to ofs, or to the end of the file when ofs is beyond it. It fails exactly
        when the chain does not lead there, or the sector there cannot be read. A file without clusters keeps its
        position at 0. */
    method FLseek(ofs: nat) returns (res: Res)
      requires Valid()
      modifies this, fs
      ensures Valid() && err == res
      ensures old(err) != Ok ==> res == old(err) && fptr == old(fptr)
      ensures var target := if ofs > objsize then objsize else ofs;
        && (res == Ok ==> fptr == if sclust == 0 then 0 else target)
        && (old(err) == Ok ==> (res == Ok <==> sclust == 0 || Reachable(fs.disk, fs.v, sclust, target)))
    {
      if err != Ok { return err; }
      var target := if ofs > objsize then objsize else ofs;
      if target == 0 {
        fptr := 0;
        return Ok;
      }
      res := SeekTo(target);
    }
  }

  /** The start of the cluster that byte x is in, when byte y is in the same or a later one. */
  lemma SameStart(x: nat, y: nat, n: nat)
    requires IsPow2(n) && n <= 128 && x < WORD && n > 0 && y / (n * SS) >= x / (n * SS)
    ensures n * SS > 0 && And(x, Not32(n * SS - 1)) == SS * Times(n, Quot(x / SS, n)) <= y
  {
    NestedDiv(x, n);
    NestedDiv(y, n);
    MaskCluster(x, n);
    StartBelow(y, n, Quot(x / SS, n));
  }

  lemma StartBelow(x: nat, n: nat, k: nat)
    requires n > 0 && Quot(x / SS, n) >= k
    ensures SS * Times(n, k) <= x
  {
    QuotTimes(x / SS, n, k);
  }

  lemma {:induction false} QuotTimes(t: nat, n: nat, k: nat)
    requires n > 0 && Quot(t, n) >= k
    ensures Times(n, k) <= t
  {
    if k > 0 { QuotTimes(t - n, n, k - 1); }
  }

  /** The target SS * Times(n, k) + rem in sectors and clusters. */
  lemma SeekEnd(n: nat, k: nat, rem: nat)
    requires 0 < rem <= SS * n
    ensures var x := SS * Times(n, k) + rem;
      && x % SS == rem % SS && Quot((x - 1) / SS, n) == k
      && (rem % SS != 0 ==> Quot(x / SS, n) == k && Rem(x / SS, n) == rem / SS)
  {
    OffsetSplit(SS * Times(n, k), rem);
    OffsetSplit(SS * Times(n, k), rem - 1);
    TimesQuot(n, k, (rem - 1) / SS);
    if rem % SS != 0 { TimesQuot(n, k, rem / SS); }
  }

  /** The chain leads to the cluster of byte x - 1, when that is not the first, and the sector that x is inside of
      can be read. */
  ghost predicate Reachable(d: Disk, v: Volume, c: nat, x: nat)
    requires v.csize > 0
  {
    && (x > 0 && Quot((x - 1) / SS, v.csize) > 0 ==> InVolume(v, ClusterAt(d, v, c, (x - 1) / SS)))
    && (x % SS != 0 ==> HasSector(d, v, c, x / SS))
  }

  /** A broken link stays broken. */
  lemma {:induction false} WalkBroken(d: Disk, v: Volume, c: nat, k: nat, m: nat)
    requires k <= m && !InVolume(v, Walk(d, v, c, k))
    ensures !InVolume(v, Walk(d, v, c, m))
  {
    if k < m { WalkBroken(d, v, c, k, m - 1); }
  }

  /** A file with a cluster in the volume does not start at cluster 0. */
  lemma HasStart(d: Disk, v: Volume, c: nat, t: nat)
    requires v.csize > 0 && InVolume(v, ClusterAt(d, v, c, t))
    ensures c != 0
  {
    if !InVolume(v, Walk(d, v, c, 0)) { WalkBroken(d, v, c, 0, Quot(t, v.csize)); }
  }

  lemma BrokenChain(d: Disk, v: Volume, c: nat, k: nat, x: nat)
    requires v.csize > 0 && k > 0 && x > SS * Times(v.csize, k) && !InVolume(v, Walk(d, v, c, k))
    ensures !Reachable(d, v, c, x)
  {
    QuotAtLeast(v.csize, k, (x - 1) / SS);
    WalkBroken(d, v, c, k, Quot((x - 1) / SS, v.csize));
  }

  lemma {:induction false} QuotAtLeast(n: nat, k: nat, t: nat)
    requires n > 0 && t >= Times(n, k)
    ensures Quot(t, n) >= k
  {
    if k > 0 { QuotAtLeast(n, k - 1, t - n); }
  }

  lemma HoldsJoin(d: Disk, v: Volume, c: nat, x: nat, a: seq<Byte>, b: seq<Byte>)
    requires v.csize > 0 && Holds(d, v, c, x, a) && Holds(d, v, c, x + |a|, b)
    ensures Holds(d, v, c, x, a + b)
  {
    var s := a + b;
    forall k | x <= k < x + |s| ensures HasFileByte(d, v, c, k) && s[k - x] == FileByte(d, v, c, k) {
      if k < x + |a| {
        assert s[k - x] == a[k - x];
      } else {
        assert s[k - x] == b[k - (x + |a|)];
      }
    }
  }

  lemma HoldsComplete(d: Disk, v: Volume, c: nat, x: nat, data: seq<Byte>)
    requires v.csize > 0 && Holds(d, v, c, x, data)
    ensures Complete(d, v, c, x, x + |data|)
  {}

  lemma CompletePart(d: Disk, v: Volume, c: nat, x: nat, y: nat, z: nat)
    requires v.csize > 0 && x <= y
    ensures Complete(d, v, c, x, z) ==> Complete(d, v, c, y, z)
  {}
}
