/** find_volume: what the boot sector of a FAT volume must say, and the geometry computed from it. */
module Mounting {
  import opened Bits
  import opened Fat

  predicate ClusterSizeOk(c: nat) { c != 0 && And(c, c - 1) == 0 }

  /** find_volume accepts a cluster size, which is a byte, exactly if it is a power of two. */
  lemma ClusterSizeTest(c: nat)
    requires c < 256
    ensures ClusterSizeOk(c) <==> IsPow2(c)
    ensures IsPow2(c) ==> c <= 128
  {
    if c > 0 { PowerOfTwoTest(c); }
    if IsPow2(c) {
      var k: nat :| c == Pow2(k);
      Pow2Small();
      if k >= 8 { Pow2Monotone(8, k); } else { Pow2Monotone(k, 7); }
    }
  }

  /** The fields of the boot sector that find_volume reads. */
  datatype BootSector = BootSector(bytesPerSector: nat, clusterSectors: nat, reserved: nat, fats: nat, rootEntries: nat,
                                   sectors16: nat, sectors32: nat, fatSectors16: nat, fatSectors32: nat,
                                   version32: nat, rootCluster: nat)

  const MAX_FAT12 := 0xFF5
  const MAX_FAT16 := 0xFFF5
  const MAX_FAT32 := 0x0FFF_FFF5

  function Sectors(b: BootSector): nat { if b.sectors16 != 0 then b.sectors16 else b.sectors32 }

  function FatSectors(b: BootSector): nat { if b.fatSectors16 != 0 then b.fatSectors16 else b.fatSectors32 }

  /** The sectors of one or two tables. */
  function TableSectors(b: BootSector): nat { if b.fats == 1 then FatSectors(b) else 2 * FatSectors(b) }

  /** Reserved sectors, tables and root directory; find_volume adds them up on words. */
  function SystemSectors(b: BootSector): nat { b.reserved + TableSectors(b) + b.rootEntries / 16 }

  function Clusters(sectors: nat, c: nat): nat
    requires c > 0
  {
    sectors / c
  }

  /** The bytes that a table of n entries needs. */
  function TableBytes(kind: Kind, n: nat): nat {
    match kind
    case Fat12 => n * 3 / 2 + n % 2
    case Fat16 => n * 2
    case Fat32 => n * 4
  }

  datatype MountResult = NoFilesystem | Mounted(volume: Volume)

  /** The tests of find_volume on a FAT volume whose boot sector is at start, and the geometry it computes. */
  function Mount(b: BootSector, start: nat): MountResult {
    var system := SystemSectors(b) % WORD;
    if b.bytesPerSector != SS || (b.fats != 1 && b.fats != 2) then NoFilesystem
    else if !ClusterSizeOk(b.clusterSectors) then NoFilesystem
    else if b.rootEntries % 16 != 0 || b.reserved == 0 || Sectors(b) < system then NoFilesystem
    else Sized(b, start, Clusters(Sectors(b) - system, b.clusterSectors))
  }

  /** The tests that depend on the number of clusters, and with it on the kind of the table. */
  function Sized(b: BootSector, start: nat, clusters: nat): MountResult {
    if clusters == 0 || clusters > MAX_FAT32 then NoFilesystem
    else
      var kind := if clusters <= MAX_FAT12 then Fat12 else if clusters <= MAX_FAT16 then Fat16 else Fat32;
      if kind == Fat32 && (b.version32 != 0 || b.rootEntries != 0) then NoFilesystem
      else if kind != Fat32 && b.rootEntries == 0 then NoFilesystem
      else if FatSectors(b) < (TableBytes(kind, clusters + 2) + SS - 1) / SS then NoFilesystem
      else Mounted(Geometry(b, start, kind, clusters + 2))
  }

  lemma SizedIs(b: BootSector, start: nat, clusters: nat)
    requires Sized(b, start, clusters).Mounted?
    ensures var v := Sized(b, start, clusters).volume;
      0 < clusters <= MAX_FAT32 && v == Geometry(b, start, v.kind, clusters + 2)
  {}

  /** Table, data and root directory, on words. */
  function Geometry(b: BootSector, start: nat, kind: Kind, n: nat): Volume {
    var fatbase := (start + b.reserved) % WORD;
    var dirbase := if kind == Fat32 then b.rootCluster else (fatbase + TableSectors(b)) % WORD;
    Volume(kind, b.clusterSectors, n, fatbase, (start + SystemSectors(b) % WORD) % WORD, dirbase, b.rootEntries)
  }

  /** What passing the tests means for the numbers. */
  lemma Accepted(b: BootSector, start: nat)
    requires Mount(b, start).Mounted? && SystemSectors(b) < WORD
    ensures ClusterSizeOk(b.clusterSectors)
    ensures b.rootEntries % 16 == 0 && 0 < b.reserved <= SystemSectors(b) <= Sectors(b)
    ensures var v, n := Mount(b, start).volume, Clusters(Sectors(b) - SystemSectors(b), b.clusterSectors) + 2;
      3 <= n <= MAX_FAT32 + 2 && v == Geometry(b, start, v.kind, n)
  {
    SmallWord(SystemSectors(b));
    SizedIs(b, start, Clusters(Sectors(b) - SystemSectors(b), b.clusterSectors));
  }

  lemma SmallWord(n: nat)
    requires n < WORD
    ensures n % WORD == n
  {}

  lemma Placed(b: BootSector, start: nat, kind: Kind, n: nat)
    requires b.reserved <= SystemSectors(b) && start + SystemSectors(b) < WORD
    ensures var v := Geometry(b, start, kind, n);
      v.fatbase == start + b.reserved && v.database == start + SystemSectors(b)
  {
    assert SystemSectors(b) % WORD == SystemSectors(b);
  }

  lemma TableShare(n: nat)
    requires n >= 3
    ensures 4 * n / SS <= n - 2
  {}

  lemma Ends(v: Volume, c: nat, start: nat, system: nat, left: nat)
    requires c > 0 && v.csize == c && v.nFatent == Clusters(left, c) + 2 && v.database == start + system
    ensures DataEnd(v) <= start + system + left && v.nFatent - 2 <= left
  {
    Quotient(left, c);
  }

  lemma Quotient(a: nat, c: nat)
    requires c > 0
    ensures c * (a / c) <= a && a / c <= a
  {
    assert a == c * (a / c) + a % c;
    MulOne(a / c, c);
  }

  lemma MulOne(a: nat, c: nat)
    requires c >= 1
    ensures c * a >= a
  {}

  lemma MountIs(b: BootSector, start: nat)
    requires Mount(b, start).Mounted?
    ensures var v := Mount(b, start).volume; v == Geometry(b, start, v.kind, v.nFatent)
  {
    SizedIs(b, start, Clusters(Sectors(b) - SystemSectors(b) % WORD, b.clusterSectors));
  }

  // ---- what is accepted, and where it lies, in the fields of the boot sector -------------------------------------

  /** The volume has total sectors and tables of per sectors each: the wide fields count only if the others are zero. */
  ghost predicate Says(b: BootSector, total: nat, per: nat) {
    && (b.sectors16 > 0 ==> total == b.sectors16) && (b.sectors16 == 0 ==> total == b.sectors32)
    && (b.fatSectors16 > 0 ==> per == b.fatSectors16) && (b.fatSectors16 == 0 ==> per == b.fatSectors32)
  }

  /** The width of a table entry on a volume of n clusters. */
  function EntryBits(n: nat): nat { if n <= 4085 then 12 else if n <= 65525 then 16 else 32 }

  /** Behind the system sectors there is room for n clusters and no more. */
  ghost predicate WholeClusters(b: BootSector, total: nat, system: nat, n: nat) {
    system + n * b.clusterSectors <= total < system + (n + 1) * b.clusterSectors
  }

  /** A volume of n clusters whose tables have an entry for each of them and for the two that are reserved. */
  ghost predicate Holds(b: BootSector, total: nat, per: nat, system: nat, n: nat) {
    && WholeClusters(b, total, system, n) && 0 < n <= MAX_FAT32
    && (n > 65525 <==> b.rootEntries == 0) && (n > 65525 ==> b.version32 == 0)
    && EntryBits(n) * (n + 2) <= 8 * 512 * per
  }

  /** The tests before the clusters are counted. */
  ghost predicate Plain(b: BootSector) {
    && b.bytesPerSector == 512 && 1 <= b.fats <= 2 && IsPow2(b.clusterSectors) && b.reserved > 0
    && b.rootEntries % 16 == 0
  }

  ghost predicate Formatted(b: BootSector, total: nat, per: nat, system: nat) {
    Plain(b) && exists n: nat :: Holds(b, total, per, system, n)
  }

  lemma Tables(b: BootSector, total: nat, per: nat)
    requires Says(b, total, per) && 1 <= b.fats <= 2
    ensures Sectors(b) == total && FatSectors(b) == per && TableSectors(b) == b.fats * per
  {}

  lemma RoundUp(bytes: nat, per: nat)
    ensures per >= (bytes + SS - 1) / SS <==> bytes <= 512 * per
  {}

  lemma BytesFit(kind: Kind, n: nat, room: nat)
    ensures TableBytes(kind, n) <= room <==> 4 * Width(kind) * n <= 8 * room
  {
    if kind == Fat12 {
      var h := n / 2;
      assert n == 2 * h || n == 2 * h + 1;
      assert TableBytes(Fat12, n) == if n == 2 * h then 3 * h else 3 * h + 2;
    }
  }

  /** A table has enough sectors exactly if its entries fit. */
  lemma EntriesFit(kind: Kind, n: nat, per: nat)
    requires kind == if n <= MAX_FAT12 then Fat12 else if n <= MAX_FAT16 then Fat16 else Fat32
    ensures per >= (TableBytes(kind, n + 2) + SS - 1) / SS <==> EntryBits(n) * (n + 2) <= 8 * 512 * per
  {
    RoundUp(TableBytes(kind, n + 2), per);
    BytesFit(kind, n + 2, 512 * per);
  }

  lemma ClustersAre(b: BootSector, total: nat, system: nat, n: nat)
    requires system <= total && b.clusterSectors > 0
    ensures Clusters(total - system, b.clusterSectors) == n <==> WholeClusters(b, total, system, n)
  {
    var c, left := b.clusterSectors, total - system;
    if left / c == n {
      Distribute(n, c);
      assert left == c * (left / c) + left % c;
    } else if WholeClusters(b, total, system, n) {
      Distribute(n, c);
      QuotientIs(left, c, n);
    }
  }

  lemma Distribute(n: nat, c: nat)
    ensures (n + 1) * c == n * c + c && n * c == c * n
  {}

  lemma QuotientIs(a: nat, c: nat, n: nat)
    requires c > 0 && n * c <= a < n * c + c
    ensures a / c == n
  {
    var q := a / c;
    assert a == q * c + a % c;
    if q < n { Larger(q, n, c); } else if q > n { Larger(n, q, c); }
  }

  lemma Larger(q: nat, n: nat, c: nat)
    requires q < n
    ensures q * c + c <= n * c
  {
    assert n * c == q * c + (n - q) * c;
    MulOne(c, n - q);
  }

  lemma SizedIff(b: BootSector, start: nat, total: nat, per: nat, system: nat, n: nat)
    requires Says(b, total, per) && WholeClusters(b, total, system, n)
    ensures Sized(b, start, n).Mounted? <==> Holds(b, total, per, system, n)
  {
    EntriesFit(if n <= MAX_FAT12 then Fat12 else if n <= MAX_FAT16 then Fat16 else Fat32, n, per);
  }

  /** The tests from then on. */
  ghost predicate CountsWell(b: BootSector, start: nat, total: nat, system: nat) {
    && system <= total && b.clusterSectors > 0
    && Sized(b, start, Clusters(total - system, b.clusterSectors)).Mounted?
  }

  lemma PlainTests(b: BootSector, start: nat, total: nat, per: nat, system: nat)
    requires Says(b, total, per) && b.clusterSectors < 256
    requires 1 <= b.fats <= 2 ==> system == SystemSectors(b) % WORD
    ensures Mount(b, start).Mounted? <==> Plain(b) && CountsWell(b, start, total, system)
  {
    ClusterSizeTest(b.clusterSectors);
    if 1 <= b.fats <= 2 {
      Tables(b, total, per);
      MountStep(b, start);
    }
  }

  lemma MountStep(b: BootSector, start: nat)
    requires 1 <= b.fats <= 2
    ensures Mount(b, start).Mounted? <==>
      && b.bytesPerSector == SS && ClusterSizeOk(b.clusterSectors) && b.rootEntries % 16 == 0 && b.reserved > 0
      && CountsWell(b, start, Sectors(b), SystemSectors(b) % WORD)
  {}

  lemma ClusterTests(b: BootSector, start: nat, total: nat, per: nat, system: nat)
    requires Says(b, total, per) && system <= total && b.clusterSectors > 0
    ensures Sized(b, start, Clusters(total - system, b.clusterSectors)).Mounted? <==>
      exists n: nat :: Holds(b, total, per, system, n)
  {
    var n := Clusters(total - system, b.clusterSectors);
    ClustersAre(b, total, system, n);
    SizedIff(b, start, total, per, system, n);
    if m: nat :| Holds(b, total, per, system, m) { ClustersAre(b, total, system, m); }
  }

  /** find_volume mounts exactly the volumes that are formatted as the FAT layout demands, where the reserved sectors,
      all tables and the root directory are added up on words. */
  lemma MountIff(b: BootSector, start: nat, total: nat, per: nat)
    requires Says(b, total, per) && b.clusterSectors < 256
    ensures Mount(b, start).Mounted? <==>
      Formatted(b, total, per, (b.reserved + b.fats * per + b.rootEntries / 16) % WORD)
  {
    var tables := b.fats * per;
    var system := (b.reserved + tables + b.rootEntries / 16) % WORD;
    if 1 <= b.fats <= 2 { Tables(b, total, per); }
    PlainTests(b, start, total, per, system);
    FormattedIs(b, start, total, per, system);
  }

  lemma FormattedIs(b: BootSector, start: nat, total: nat, per: nat, system: nat)
    requires Says(b, total, per)
    ensures Formatted(b, total, per, system) <==> Plain(b) && CountsWell(b, start, total, system)
  {
    if system > total {
      NoRoom(b, total, per, system);
    } else if b.clusterSectors > 0 {
      ClusterTests(b, start, total, per, system);
    } else {
      ClusterSizeZero();
    }
  }

  lemma ClusterSizeZero()
    ensures !IsPow2(0)
  {
    ClusterSizeTest(0);
  }

  lemma NoRoom(b: BootSector, total: nat, per: nat, system: nat)
    requires system > total
    ensures forall n: nat :: !Holds(b, total, per, system, n)
  {}

  /** The sums on words are the true ones if and only if those are words. */
  lemma Based(b: BootSector, start: nat, kind: Kind, n: nat, total: nat, per: nat)
    requires Says(b, total, per) && 1 <= b.fats <= 2
    ensures var v, tables := Geometry(b, start, kind, n), start + b.reserved;
      && (v.fatbase == tables <==> tables < WORD)
      && (kind != Fat32 ==> (v.dirbase == tables + b.fats * per <==> tables + b.fats * per < WORD))
      && (v.database == tables + b.fats * per + b.rootEntries / 16 <==>
          tables + b.fats * per + b.rootEntries / 16 < WORD)
  {
    Tables(b, total, per);
    WordSum(start, SystemSectors(b));
    WordSum(TableSectors(b), start + b.reserved);
  }

  /** Where the areas of a mounted volume are: first the tables, then the root directory of a FAT12 or FAT16 volume,
      then the clusters. Each sector number is right if and only if it is a word. */
  lemma MountExact(b: BootSector, start: nat, total: nat, per: nat)
    requires Mount(b, start).Mounted? && Says(b, total, per)
    ensures var v, tables := Mount(b, start).volume, start + b.reserved;
      && (v.fatbase == tables <==> tables < WORD)
      && (v.kind != Fat32 ==> (v.dirbase == tables + b.fats * per <==> tables + b.fats * per < WORD))
      && (v.kind == Fat32 ==> v.dirbase == b.rootCluster)
      && (v.database == tables + b.fats * per + b.rootEntries / 16 <==>
          tables + b.fats * per + b.rootEntries / 16 < WORD)
      && v.csize == b.clusterSectors && v.nRootdir == b.rootEntries
  {
    MountIs(b, start);
    Based(b, start, Mount(b, start).volume.kind, Mount(b, start).volume.nFatent, total, per);
  }

  /** The kind follows from the number of clusters, which is all that fit. */
  lemma MountKind(b: BootSector, start: nat, total: nat, per: nat)
    requires Mount(b, start).Mounted? && Says(b, total, per)
    ensures var v := Mount(b, start).volume;
      && v.nFatent > 2
      && WholeClusters(b, total, (b.reserved + b.fats * per + b.rootEntries / 16) % WORD, v.nFatent - 2)
      && (v.kind == Fat12 <==> v.nFatent - 2 <= 4085) && (v.kind == Fat32 <==> v.nFatent - 2 > 65525)
  {
    Tables(b, total, per);
    var system := SystemSectors(b) % WORD;
    SizedIs(b, start, Clusters(total - system, b.clusterSectors));
    ClustersAre(b, total, system, Clusters(total - system, b.clusterSectors));
  }

  lemma AreasEnd(b: BootSector, v: Volume, start: nat, total: nat, system: nat)
    requires v.nFatent > 2 && WholeClusters(b, total, system, v.nFatent - 2) && b.clusterSectors > 0
    ensures var data := b.clusterSectors * (v.nFatent - 2);
      system < system + data <= total < system + data + b.clusterSectors
  {
    Distribute(v.nFatent - 2, b.clusterSectors);
    MulOne(b.clusterSectors, v.nFatent - 2);
  }

  /** On a volume that ends below 2^32 and whose system sectors are words, the areas follow each other without
      overlap, and less than a cluster is left at the end. */
  lemma MountAreas(b: BootSector, start: nat, total: nat, per: nat)
    requires Mount(b, start).Mounted? && Says(b, total, per)
    requires b.reserved + b.fats * per + b.rootEntries / 16 < WORD && start + total < WORD
    ensures var v := Mount(b, start).volume;
      && start < v.fatbase == start + b.reserved && v.nFatent > 2
      && v.fatbase + b.fats * per + v.nRootdir / 16 == v.database
      && (v.kind != Fat32 ==> v.fatbase + b.fats * per == v.dirbase && v.dirbase + v.nRootdir / 16 == v.database)
      && v.database < DataEnd(v) <= start + total < DataEnd(v) + v.csize
  {
    var v, tables := Mount(b, start).volume, b.fats * per;
    MountKind(b, start, total, per);
    SmallWord(b.reserved + tables + b.rootEntries / 16);
    AreasEnd(b, v, start, total, b.reserved + tables + b.rootEntries / 16);
    MountExact(b, start, total, per);
  }

  /** A mounted volume has the geometry that reading relies on, if the sum of its system sectors does not wrap and
      it ends below the last sector number. */
  lemma MountOk(b: BootSector, start: nat, total: nat, per: nat)
    requires b.clusterSectors < 256 && Mount(b, start).Mounted? && Says(b, total, per)
    requires b.reserved + b.fats * per + b.rootEntries / 16 < WORD && start + total < INVALID
    ensures VolumeOk(Mount(b, start).volume)
  {
    Tables(b, total, per);
    Accepted(b, start);
    ClusterSizeTest(b.clusterSectors);
    var v, left := Mount(b, start).volume, Sectors(b) - SystemSectors(b);
    Placed(b, start, v.kind, v.nFatent);
    Quotient(left, b.clusterSectors);
    TableShare(v.nFatent);
    Ends(v, b.clusterSectors, start, SystemSectors(b), left);
  }

  lemma WordSum(a: nat, b: nat)
    ensures (a + b % WORD) % WORD == (a + b) % WORD
  {
    var k := b / WORD;
    assert a + b == a + b % WORD + k * WORD;
    SameRest(a + b % WORD, k);
  }

  /** A floppy disk of 1.44 MB: 1 sector reserved, two tables of 9, 224 root entries in 14 sectors, 2847 clusters. */
  lemma Floppy()
    ensures Mount(BootSector(512, 1, 1, 2, 224, 2880, 0, 9, 0, 0, 0), 0) ==
      Mounted(Volume(Fat12, 1, 2849, 1, 33, 19, 224))
  {
    ClusterSizeTest(1);
    Pow2Small();
    assert IsPow2(1);
  }

  /** A disk of 1 GB in clusters of 8 sectors, counted in the wide fields: FAT32, with the root directory at cluster
      2. */
  lemma LargeDisk()
    ensures Mount(BootSector(512, 8, 32, 2, 0, 0, 0x20_0000, 0, 2048, 0, 2), 63) ==
      Mounted(Volume(Fat32, 8, 261630, 95, 4191, 2, 0))
  {
    ClusterSizeTest(8);
    Pow2Small();
    assert IsPow2(8);
  }

  /** One reserved sector, a table of 0xFFFFFFFE sectors and 16 root entries: a sum of 2^32. */
  const OVERLONG := BootSector(512, 1, 1, 1, 16, 0, 100, 0, 0xFFFF_FFFE, 0, 0)

  /** This boot sector is accepted, and the data area starts on the boot sector itself. */
  lemma MountWraps()
    ensures Mount(OVERLONG, 0) == Mounted(Geometry(OVERLONG, 0, Fat12, 102))
    ensures Geometry(OVERLONG, 0, Fat12, 102).database == 0
  {
    assert SystemSectors(OVERLONG) == WORD && SystemSectors(OVERLONG) % WORD == 0;
    ClusterSizeTest(1);
    Pow2Small();
    assert IsPow2(1) && And(1, 0) == 0;
    assert Clusters(100, 1) == 100;
    assert Sized(OVERLONG, 0, 100) == Mounted(Geometry(OVERLONG, 0, Fat12, 102));
  }
}
