/** A FAT volume: sectors, the one-sector window over them, and the entries of the allocation table. */
module Fat {
  import opened Basics
  import opened Bits

  const SS := 512

  type Sector = s: seq<Byte> | |s| == SS witness seq(SS, i => 0)

  /** The sectors that can be read. */
  type Disk = map<nat, Sector>

  datatype Kind = Fat12 | Fat16 | Fat32

  /** The geometry that mounting found. */
  datatype Volume = Volume(kind: Kind, csize: nat, nFatent: nat, fatbase: nat, database: nat, dirbase: nat,
                           nRootdir: nat)

  const INVALID := 0xFFFF_FFFF

  /** The sector behind the last cluster. */
  function DataEnd(v: Volume): nat
    requires v.nFatent >= 2
  {
    v.database + v.csize * (v.nFatent - 2)
  }

  /** What a mounted volume on a disk that is large enough satisfies: see Mounting.MountOk. */
  ghost predicate VolumeOk(v: Volume) {
    && IsPow2(v.csize) && v.csize <= 128 && 2 <= v.nFatent && v.nFatent <= 0x0FFF_FFF7 && 0 < v.database
    && v.fatbase + 4 * v.nFatent / SS < INVALID && DataEnd(v) < INVALID
    && v.nRootdir % 16 == 0
  }

  // ---- the table as one little-endian number --------------------------------------------------------

  /** Can byte i of the table be read? */
  predicate HasByte(d: Disk, v: Volume, i: nat) { v.fatbase + i / SS in d }

  function FatByte(d: Disk, v: Volume, i: nat): Byte
    requires HasByte(d, v, i)
  {
    d[v.fatbase + i / SS][i % SS]
  }

  /** Hexadecimal digit j of the table, least significant first. */
  function Digit(d: Disk, v: Volume, j: nat): nat
    requires HasByte(d, v, j / 2)
  {
    if j % 2 == 0 then FatByte(d, v, j / 2) % 16 else FatByte(d, v, j / 2) / 16
  }

  /** Digits per entry. */
  function Width(k: Kind): nat { match k case Fat12 => 3 case Fat16 => 4 case Fat32 => 8 }

  /** Can digits j .. j + n - 1 be read? */
  predicate HasDigits(d: Disk, v: Volume, j: nat, n: nat) {
    n == 0 || forall i :: j / 2 <= i <= (j + n - 1) / 2 ==> HasByte(d, v, i)
  }

  /** The number that digits j .. j + n - 1 write. */
  function Number(d: Disk, v: Volume, j: nat, n: nat): nat
    requires HasDigits(d, v, j, n)
    decreases n
  {
    if n == 0 then 0 else Digit(d, v, j) + 16 * Number(d, v, j + 1, n - 1)
  }

  /** Entry c: Width digits of the table from digit Width * c on, of which FAT32 drops the top one. */
  function Entry(d: Disk, v: Volume, c: nat): nat
    requires HasDigits(d, v, Width(v.kind) * c, Width(v.kind))
  {
    Number(d, v, Width(v.kind) * c, if v.kind == Fat32 then 7 else Width(v.kind))
  }

  /** What get_fat returns: 1 for a cluster number out of range, INVALID for an unreadable table. */
  function Link(d: Disk, v: Volume, c: nat): nat {
    if c < 2 || c >= v.nFatent then 1
    else if HasDigits(d, v, Width(v.kind) * c, Width(v.kind)) then Entry(d, v, c)
    else INVALID
  }

  // ---- get_fat ----------------------------------------------------------------------------------------

  class FatFs {
    const disk: Disk
    const v: Volume
    var win: Sector
    var winsect: nat

    /** The window shows its sector, or is marked invalid. */
    ghost predicate Valid()
      reads this
    {
      VolumeOk(v) && (winsect == INVALID || (winsect in disk && win == disk[winsect]))
    }

    constructor (disk: Disk, v: Volume)
      requires VolumeOk(v)
      ensures Valid() && this.disk == disk && this.v == v
    {
      this.disk, this.v, winsect := disk, v, INVALID;
      win := seq(SS, i => 0);
    }

    method MoveWindow(sector: nat) returns (ok: bool)
      requires Valid() && sector < INVALID
      modifies this
      ensures Valid() && (ok <==> sector in disk) && (ok ==> winsect == sector && win == disk[sector])
    {
      ok := true;
      if sector != winsect {
        if sector in disk {
          win, winsect := disk[sector], sector;
        } else {
          winsect, ok := INVALID, false;
        }
      }
    }

    /** get_fat for each kind of table. */
    method GetFat12(clst: nat) returns (val: nat)
      requires Valid() && v.kind == Fat12 && 2 <= clst < v.nFatent
      modifies this
      ensures Valid() && val == Link(disk, v, clst)
    {
      var bc := clst + clst / 2;
      Entry12(disk, v, clst);
      SectorBelow(v, bc);
      SectorBelow(v, bc + 1);
      val := INVALID;
      var ok := MoveWindow(v.fatbase + bc / SS);
      if !ok { return; }
      var wc: nat := win[bc % SS];
      bc := bc + 1;
      ok := MoveWindow(v.fatbase + bc / SS);
      if !ok { return; }
      wc := wc + 256 * (win[bc % SS] as int);
      val := if clst % 2 == 1 then wc / 16 else wc % 4096;
    }

    method GetFat16(clst: nat) returns (val: nat)
      requires Valid() && v.kind == Fat16 && 2 <= clst < v.nFatent
      modifies this
      ensures Valid() && val == Link(disk, v, clst)
    {
      Entry16(disk, v, clst);
      HalfSectors(v, clst);
      var sec, i := v.fatbase + clst / (SS / 2), clst * 2 % SS;
      val := INVALID;
      var ok := MoveWindow(sec);
      if !ok { return; }
      val := LdWord(win, i);
    }

    method GetFat32(clst: nat) returns (val: nat)
      requires Valid() && v.kind == Fat32 && 2 <= clst < v.nFatent
      modifies this
      ensures Valid() && val == Link(disk, v, clst)
    {
      Entry32(disk, v, clst);
      QuarterSectors(v, clst);
      var sec, i := v.fatbase + clst / (SS / 4), clst * 4 % SS;
      val := INVALID;
      var ok := MoveWindow(sec);
      if !ok { return; }
      val := LdDword(win, i) % 0x1000_0000;
    }

    method GetFat(clst: nat) returns (val: nat)
      requires Valid()
      modifies this
      ensures Valid() && val == Link(disk, v, clst)
    {
      if clst < 2 || clst >= v.nFatent { return 1; }
      match v.kind
      case Fat12 => val := GetFat12(clst);
      case Fat16 => val := GetFat16(clst);
      case Fat32 => val := GetFat32(clst);
    }
  }

  /** The sector of byte i of the table has a number below the last. */
  lemma SectorBelow(v: Volume, i: nat)
    requires v.fatbase + 4 * v.nFatent / SS < INVALID && i <= 4 * v.nFatent
    ensures v.fatbase + i / SS < INVALID
  {}

  lemma HalfSectors(v: Volume, c: nat)
    requires v.fatbase + 4 * v.nFatent / SS < INVALID && c <= v.nFatent
    ensures v.fatbase + c / (SS / 2) < INVALID
  {}

  lemma QuarterSectors(v: Volume, c: nat)
    requires v.fatbase + 4 * v.nFatent / SS < INVALID && c <= v.nFatent
    ensures v.fatbase + c / (SS / 4) < INVALID
  {}

  function LdWord(s: Sector, i: nat): nat
    requires i + 1 < SS
  {
    s[i] as int + 256 * (s[i + 1] as int)
  }

  function LdDword(s: Sector, i: nat): nat
    requires i + 3 < SS
  {
    s[i] as int + 256 * (s[i + 1] as int) + 0x1_0000 * (s[i + 2] as int) + 0x100_0000 * (s[i + 3] as int)
  }

  // ---- where the digits of an entry lie ------------------------------------------------------------------

  lemma ThreeDigits(d: Disk, v: Volume, j: nat)
    requires HasDigits(d, v, j, 3)
    ensures Number(d, v, j, 3) == Digit(d, v, j) + 16 * Digit(d, v, j + 1) + 256 * Digit(d, v, j + 2)
  {
    assert Number(d, v, j + 2, 1) == Digit(d, v, j + 2) + 16 * Number(d, v, j + 3, 0);
    assert Number(d, v, j + 1, 2) == Digit(d, v, j + 1) + 16 * Number(d, v, j + 2, 1);
  }

  lemma TwelveBits(lo: nat, hi: nat)
    requires lo < 256 && hi < 256
    ensures (lo + 256 * hi) / 16 == lo / 16 + 16 * (hi % 16) + 256 * (hi / 16)
    ensures (lo + 256 * hi) % 4096 == lo % 16 + 16 * (lo / 16) + 256 * (hi % 16)
  {}

  /** Entry c of a FAT12 is 12 bits of two bytes, which may lie in two sectors. */
  lemma Entry12(d: Disk, v: Volume, c: nat)
    requires v.kind == Fat12
    ensures var b := c + c / 2;
      && (HasDigits(d, v, 3 * c, 3) <==> HasByte(d, v, b) && HasByte(d, v, b + 1))
      && (HasDigits(d, v, 3 * c, 3) ==>
            var w := FatByte(d, v, b) as int + 256 * (FatByte(d, v, b + 1) as int);
            Entry(d, v, c) == if c % 2 == 1 then w / 16 else w % 4096)
  {
    var b := c + c / 2;
    assert (3 * c) / 2 == b && (3 * c + 2) / 2 == b + 1 && (3 * c + 1) / 2 == b + c % 2 && (3 * c) % 2 == c % 2;
    if HasByte(d, v, b) && HasByte(d, v, b + 1) {
      ThreeDigits(d, v, 3 * c);
      TwelveBits(FatByte(d, v, b), FatByte(d, v, b + 1));
    }
  }

  /** Two digits are a byte. */
  lemma BytePair(d: Disk, v: Volume, i: nat, n: nat)
    requires HasDigits(d, v, 2 * i, n) && n >= 2
    ensures HasByte(d, v, i) && HasDigits(d, v, 2 * (i + 1), n - 2)
    ensures Number(d, v, 2 * i, n) == FatByte(d, v, i) as int + 256 * Number(d, v, 2 * (i + 1), n - 2)
  {
    assert (2 * i) / 2 == i && (2 * i + 1) / 2 == i;
    assert Number(d, v, 2 * i, n) == Digit(d, v, 2 * i) + 16 * Number(d, v, 2 * i + 1, n - 1);
    assert Number(d, v, 2 * i + 1, n - 1) == Digit(d, v, 2 * i + 1) + 16 * Number(d, v, 2 * i + 2, n - 2);
  }

  /** Byte i + k of the table, in the sector of byte i. */
  lemma InSector(d: Disk, v: Volume, i: nat, k: nat)
    requires i % SS + k < SS
    ensures (i + k) / SS == i / SS && (i + k) % SS == i % SS + k
    ensures HasByte(d, v, i + k) <==> v.fatbase + i / SS in d
    ensures HasByte(d, v, i + k) ==> FatByte(d, v, i + k) == d[v.fatbase + i / SS][i % SS + k]
  {}

  lemma PairAligned(c: nat)
    ensures c / (SS / 2) == (2 * c) / SS && (2 * c) % SS + 1 < SS && (4 * c) / 2 == 2 * c
    ensures (4 * c + 3) / 2 == 2 * c + 1
  {
    var q, r := c / 256, c % 256;
    assert 2 * c == SS * q + 2 * r && 2 * r + 1 < SS;
  }

  lemma FourDigits(d: Disk, v: Volume, i: nat)
    requires HasDigits(d, v, 2 * i, 4)
    ensures HasByte(d, v, i) && HasByte(d, v, i + 1)
    ensures Number(d, v, 2 * i, 4) == FatByte(d, v, i) as int + 256 * (FatByte(d, v, i + 1) as int)
  {
    BytePair(d, v, i, 4);
    BytePair(d, v, i + 1, 2);
  }

  lemma PairEntry(d: Disk, v: Volume, i: nat, sec: nat, off: nat)
    requires off == i % SS && off + 1 < SS && sec == v.fatbase + i / SS
    ensures HasDigits(d, v, 2 * i, 4) <==> sec in d
    ensures sec in d ==> HasDigits(d, v, 2 * i, 4) && Number(d, v, 2 * i, 4) == LdWord(d[sec], off)
  {
    assert (2 * i) / 2 == i && (2 * i + 3) / 2 == i + 1;
    InSector(d, v, i, 0);
    InSector(d, v, i, 1);
    if sec in d { FourDigits(d, v, i); }
  }

  lemma Entry16(d: Disk, v: Volume, c: nat)
    requires v.kind == Fat16
    ensures var sec, i := v.fatbase + c / (SS / 2), c * 2 % SS;
      && i + 1 < SS && (HasDigits(d, v, 4 * c, 4) <==> sec in d)
      && (sec in d ==> Entry(d, v, c) == LdWord(d[sec], i))
  {
    PairAligned(c);
    PairEntry(d, v, 2 * c, v.fatbase + c / (SS / 2), c * 2 % SS);
  }

  lemma SevenDigits(d: Disk, v: Volume, i: nat)
    requires HasDigits(d, v, 2 * i, 7)
    ensures HasByte(d, v, i) && HasByte(d, v, i + 1) && HasByte(d, v, i + 2) && HasByte(d, v, i + 3)
    ensures Number(d, v, 2 * i, 7) == FatByte(d, v, i) as int
      + 256 * (FatByte(d, v, i + 1) as int + 256 * (FatByte(d, v, i + 2) as int +
        256 * ((FatByte(d, v, i + 3) as int) % 16)))
  {
    BytePair(d, v, i, 7);
    BytePair(d, v, i + 1, 5);
    BytePair(d, v, i + 2, 3);
    assert (2 * (i + 3)) / 2 == i + 3;
    OneDigit(d, v, i + 3);
  }

  lemma Mask28(b0: nat, b1: nat, b2: nat, b3: nat)
    requires b0 < 256 && b1 < 256 && b2 < 256 && b3 < 256
    ensures (b0 + 256 * b1 + 0x1_0000 * b2 + 0x100_0000 * b3) % 0x1000_0000 ==
      b0 + 256 * (b1 + 256 * (b2 + 256 * (b3 % 16)))
  {
    assert b3 == 16 * (b3 / 16) + b3 % 16;
  }

  lemma QuadAligned(c: nat)
    ensures c / (SS / 4) == (4 * c) / SS && (4 * c) % SS + 3 < SS && (8 * c) / 2 == 4 * c
    ensures (8 * c + 7) / 2 == 4 * c + 3
  {
    var q, r := c / 128, c % 128;
    assert 4 * c == SS * q + 4 * r && 4 * r + 3 < SS;
  }

  /** The four bytes from i on share a sector. */
  lemma QuadReadable(d: Disk, v: Volume, i: nat)
    requires i % SS + 3 < SS
    ensures HasDigits(d, v, 2 * i, 8) <==> v.fatbase + i / SS in d
    ensures HasDigits(d, v, 2 * i, 8) ==> HasDigits(d, v, 2 * i, 7)
  {
    assert (2 * i) / 2 == i && (2 * i + 7) / 2 == i + 3 && (2 * i + 6) / 2 == i + 3;
    InSector(d, v, i, 0);
    InSector(d, v, i, 1);
    InSector(d, v, i, 2);
    InSector(d, v, i, 3);
  }

  lemma QuadEntry(d: Disk, v: Volume, i: nat, sec: nat, off: nat)
    requires off == i % SS && off + 3 < SS && sec == v.fatbase + i / SS
    ensures HasDigits(d, v, 2 * i, 8) <==> sec in d
    ensures sec in d ==> HasDigits(d, v, 2 * i, 7) && Number(d, v, 2 * i, 7) == LdDword(d[sec], off) % 0x1000_0000
  {
    QuadReadable(d, v, i);
    if sec in d {
      SevenDigits(d, v, i);
      InSector(d, v, i, 0);
      InSector(d, v, i, 1);
      InSector(d, v, i, 2);
      InSector(d, v, i, 3);
      Mask28(d[sec][off], d[sec][off + 1], d[sec][off + 2], d[sec][off + 3]);
    }
  }

  lemma Entry32(d: Disk, v: Volume, c: nat)
    requires v.kind == Fat32
    ensures var sec, i := v.fatbase + c / (SS / 4), c * 4 % SS;
      && i + 3 < SS && (HasDigits(d, v, 8 * c, 8) <==> sec in d)
      && (sec in d ==> Entry(d, v, c) == LdDword(d[sec], i) % 0x1000_0000)
  {
    QuadAligned(c);
    QuadEntry(d, v, 4 * c, v.fatbase + c / (SS / 4), c * 4 % SS);
  }

  lemma OneDigit(d: Disk, v: Volume, i: nat)
    requires HasByte(d, v, i)
    ensures HasDigits(d, v, 2 * i, 1) && Number(d, v, 2 * i, 1) == (FatByte(d, v, i) as int) % 16
  {
    assert (2 * i) / 2 == i;
    assert Number(d, v, 2 * i, 1) == Digit(d, v, 2 * i) + 16 * Number(d, v, 2 * i + 1, 0);
  }
}
