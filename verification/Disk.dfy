/** The FAT16 volume as the kernel reaches it: 512-byte sectors behind ata_read and ata_write.
    `Image` is what those sectors say once the layout arithmetic is out of the way: one FAT, and a
    list of regions. Region 0 is the root directory, region c >= 2 is data cluster c. */
module Disk {
  import opened Bytes
  import opened Folding

  type Sector = s: seq<byte> | |s| == 512 witness seq(512, _ => 0)

  /** The static variables set by fs_init, and beside them how many FAT slots have data sectors behind them on this disk. */
  datatype Geometry = Geometry(fatStart: nat, numFats: nat, sectorsPerFat: nat, rootSectors: nat, secPerClus: nat, backed: nat)
  {
    function RootStart(): nat { fatStart + numFats * sectorsPerFat }

    function DataStart(): nat { RootStart() + rootSectors }

    /** `sectors_per_fat * 512 / 2`. */
    function Slots(): nat { sectorsPerFat * 256 }

    function ClusterBytes(): nat { secPerClus * 512 }

    /** Cluster numbers stay below the end-of-chain marks (0xFFF8), and the cluster size is legal. */
    predicate Ok() {
      1 <= numFats && 1 <= sectorsPerFat <= 255 && 1 <= secPerClus <= 128 && 2 <= backed <= Slots()
    }

    /** The sectors of the disk that belong to the volume. */
    function DiskSectors(): int { DataStart() + (backed - 2) * secPerClus }

    /** The slots without data sectors: fat_find_free does not know about them. */
    function Missing(): int { Slots() - backed }

    function RegionSize(r: nat): nat {
      if r == 0 then rootSectors else if r == 1 then 0 else secPerClus
    }

    function Lba(r: nat, k: nat): int {
      if r == 0 then RootStart() + k else DataStart() + (r - 2) * secPerClus + k
    }

    function FatLba(copy: nat, c: nat): int {
      fatStart + copy * sectorsPerFat + c / 256
    }
  }

  /** The number of slots with data sectors on a disk of this size. */
  function Behind(slots: nat, dataStart: nat, secPerClus: nat, sectors: nat): nat {
    if secPerClus == 0 || sectors < dataStart then 2 else Min(slots, 2 + (sectors - dataStart) / secPerClus)
  }

  /** fs_init: the geometry written in the boot sector. */
  function GeometryOf(boot: Sector, sectors: nat): Geometry
    requires U16At(boot, 0x0B) > 0
  {
    var bytesPerSector := U16At(boot, 0x0B);
    var g := Geometry(U16At(boot, 0x0E), boot[0x10], U16At(boot, 0x16),
                      (U16At(boot, 0x11) * 32 + bytesPerSector - 1) / bytesPerSector, boot[0x0D], 2);
    g.(backed := Behind(g.Slots(), g.DataStart(), g.secPerClus, sectors))
  }

  /** All sectors of cluster c are on a disk of this size. */
  ghost predicate OnDisk(g: Geometry, sectors: nat, c: nat) {
    forall k :: 0 <= k < g.secPerClus ==> 0 <= g.Lba(c, k) < sectors
  }

  /** Of the clusters fat_find_free may return, exactly those below that number are on the disk. */
  lemma BackedIff(g: Geometry, sectors: nat, c: nat)
    requires g.Ok() && g.DataStart() <= sectors && 2 <= c < g.Slots()
    ensures OnDisk(g, sectors, c) <==> c < Behind(g.Slots(), g.DataStart(), g.secPerClus, sectors)
  {
    BlocksIn(sectors - g.DataStart(), g.secPerClus, c - 2);
    if !OnDisk(g, sectors, c) {
      var k :| 0 <= k < g.secPerClus && !(0 <= g.Lba(c, k) < sectors);
      MulLe(0, c - 2, g.secPerClus);
    } else {
      assert 0 <= g.Lba(c, g.secPerClus - 1) < sectors;
    }
  }

  /** Block i of n sectors ends within `room` sectors exactly when it is one of the whole blocks there. */
  lemma BlocksIn(room: nat, n: nat, i: nat)
    requires n > 0
    ensures i * n + n <= room <==> i < room / n
  {
    MulSucc(i, n);
    MulSucc(room / n, n);
    if i < room / n {
      MulLe(i + 1, room / n, n);
    } else {
      MulLe(room / n + 1, i + 1, n);
    }
  }

  /** The volume is laid out without a gap: the FAT copies, 256 slots to a sector, the root directory, the clusters from number
      2 on, sector after sector. */
  lemma LaidOut(g: Geometry, copy: nat, c: nat, r: nat, k: nat)
    requires g.Ok()
    ensures g.FatLba(0, 0) == g.fatStart && g.FatLba(copy, c + 256) == g.FatLba(copy, c) + 1 && g.FatLba(copy + 1, 0) == g.FatLba(copy, g.Slots())
    ensures g.Lba(0, 0) == g.FatLba(g.numFats, 0) && g.Lba(2, 0) == g.Lba(0, g.rootSectors)
    ensures g.Lba(r, k + 1) == g.Lba(r, k) + 1 && (r >= 2 ==> g.Lba(r + 1, 0) == g.Lba(r, g.secPerClus))
  {
    MulSucc(copy, g.sectorsPerFat);
    MulSucc(r - 2, g.secPerClus);
  }

  /** The disk the Makefile builds: the formatting tool writes a FAT of 2048 slots, and there are sectors for 999 clusters. */
  lemma ShippedDisk(g: Geometry)
    requires g == Geometry(1, 2, 8, 32, 2, Behind(2048, 49, 2, 2048))
    ensures g.Ok() && g.Slots() == 2048 && g.DataStart() == 49 && g.backed == 1001 && g.Missing() == 1047 && g.DiskSectors() <= 2048
    ensures !OnDisk(g, 2048, 1001)
  {
    BackedIff(g, 2048, 1001);
  }

  function SetSector(region: seq<seq<Sector>>, r: nat, k: nat, s: Sector): seq<seq<Sector>>
    requires r < |region| && k < |region[r]|
  {
    var t: seq<Sector> := region[r][k := s];
    region[r := t]
  }

  datatype Image = Image(g: Geometry, fat: seq<u16>, region: seq<seq<Sector>>)
  {
    predicate Shape() {
      && g.Ok()
      && |fat| == g.Slots() && |region| == g.backed
      && forall r :: 0 <= r < |region| ==> |region[r]| == g.RegionSize(r)
    }

    function WithFat(c: nat, v: u16): Image
      requires c < |fat|
    {
      this.(fat := fat[c := v])
    }

    function WithSector(r: nat, k: nat, s: Sector): Image
      requires r < |region| && k < |region[r]|
    {
      this.(region := SetSector(region, r, k, s))
    }
  }

  function FatSlot(g: Geometry, disk: seq<Sector>, copy: nat, c: nat): u16
    requires g.Ok() && g.DiskSectors() <= |disk| && copy < g.numFats && c < g.Slots()
  {
    FatLbaInFat(g, copy, c);
    U16At(disk[g.FatLba(copy, c)], 2 * (c % 256))
  }

  function RegionSector(g: Geometry, disk: seq<Sector>, r: nat, k: nat): Sector
    requires g.Ok() && g.DiskSectors() <= |disk| && r < g.backed && k < g.RegionSize(r)
  {
    LbaInArea(g, r, k);
    disk[g.Lba(r, k)]
  }

  ghost predicate RegionsMatch(disk: seq<Sector>, img: Image)
    requires img.Shape() && img.g.DiskSectors() <= |disk|
  {
    forall r, k :: 0 <= r < img.g.backed && 0 <= k < img.g.RegionSize(r) ==>
      RegionSector(img.g, disk, r, k) == img.region[r][k]
  }

  /** What can be read: the first FAT copy and every region sector are what the image says. */
  ghost predicate Shows(disk: seq<Sector>, img: Image) {
    && img.Shape()
    && img.g.DiskSectors() <= |disk|
    && (forall c :: 0 <= c < img.g.Slots() ==> FatSlot(img.g, disk, 0, c) == img.fat[c])
    && RegionsMatch(disk, img)
  }

  /** And the other FAT copies say the same. */
  ghost predicate Represents(disk: seq<Sector>, img: Image) {
    && Shows(disk, img)
    && forall copy, c :: 0 <= copy < img.g.numFats && 0 <= c < img.g.Slots() ==> FatSlot(img.g, disk, copy, c) == img.fat[c]
  }

  /** Both folded, for methods that do not look at the disk themselves. */
  ghost predicate FoldedShows(disk: seq<Sector>, img: Image) {
    forall k :: Looked(k) ==> Shows(disk, img)
  }

  ghost predicate FoldedDisk(disk: seq<Sector>, img: Image) {
    forall k :: Looked(k) ==> Represents(disk, img)
  }

  lemma UnfoldShows(disk: seq<Sector>, img: Image)
    requires FoldedShows(disk, img)
    ensures Shows(disk, img)
  {
    assert Looked(0);
  }

  lemma UnfoldDisk(disk: seq<Sector>, img: Image)
    requires FoldedDisk(disk, img)
    ensures Represents(disk, img)
  {
    assert Looked(0);
  }

  /** Sectors before the FATs, the boot sector among them, and behind the last cluster are as they were. */
  ghost predicate Kept(g: Geometry, start: seq<Sector>, disk: seq<Sector>) {
    |disk| == |start| && forall i :: 0 <= i < |disk| && (i < g.fatStart || g.DiskSectors() <= i) ==> disk[i] == start[i]
  }

  ghost predicate FoldedKept(g: Geometry, start: seq<Sector>, disk: seq<Sector>) {
    forall k :: Looked(k) ==> Kept(g, start, disk)
  }

  lemma KeptWrite(g: Geometry, start: seq<Sector>, disk: seq<Sector>, lba: nat, s: Sector)
    requires FoldedKept(g, start, disk) && g.fatStart <= lba < g.DiskSectors() && lba < |disk|
    ensures FoldedKept(g, start, disk[lba := s])
  {
    assert Looked(0);
  }

  /** lba is where sector k of region r lies. */
  ghost predicate AtLba(g: Geometry, lba: int, r: nat, k: nat) {
    forall q :: Placed(q) ==> lba == g.Lba(r, k)
  }

  /** The sectors of a region follow each other. */
  lemma AtLbaPlus(g: Geometry, lba: int, r: nat, k: nat)
    requires AtLba(g, lba, r, 0)
    ensures AtLba(g, lba + k, r, k)
  {
    assert Placed(0);
  }

  lemma FatLbaInFat(g: Geometry, copy: nat, c: nat)
    requires g.Ok() && copy < g.numFats && c < g.Slots()
    ensures g.fatStart <= g.FatLba(copy, c) < g.RootStart() <= g.DiskSectors()
  {
    MulLe(copy + 1, g.numFats, g.sectorsPerFat);
    MulLe(0, g.backed - 2, g.secPerClus);
  }

  lemma LbaInArea(g: Geometry, r: nat, k: nat)
    requires g.Ok() && r < g.backed && k < g.RegionSize(r)
    ensures g.RootStart() <= g.Lba(r, k) < g.DiskSectors()
  {
    if r > 0 {
      MulLe(r - 1, g.backed - 2, g.secPerClus);
      MulLe(0, r - 2, g.secPerClus);
    } else {
      MulLe(0, g.backed - 2, g.secPerClus);
    }
  }

  lemma DivModUnique(a: nat, x: nat, b: nat, y: nat, n: nat)
    requires x < n && y < n && a * n + x == b * n + y
    ensures a == b && x == y
  {
    MulCancel(a, b + 1, n);
    MulCancel(b, a + 1, n);
  }

  /** Two region sectors share a disk sector only if they are the same sector. */
  lemma LbaInjective(g: Geometry, r: nat, k: nat, r': nat, k': nat)
    requires g.Ok() && r < g.backed && k < g.RegionSize(r) && r' < g.backed && k' < g.RegionSize(r')
    requires g.Lba(r, k) == g.Lba(r', k')
    ensures r == r' && k == k'
  {
    if r > 0 && r' > 0 {
      DivModUnique(r - 2, k, r' - 2, k', g.secPerClus);
    } else if r > 0 {
      MulLe(0, r - 2, g.secPerClus);
    } else if r' > 0 {
      MulLe(0, r' - 2, g.secPerClus);
    }
  }

  lemma WriteKeepsFat(disk: seq<Sector>, g: Geometry, lba: nat, s: Sector, copy: nat, c: nat)
    requires g.Ok() && g.RootStart() <= lba < |disk| && g.DiskSectors() <= |disk| && copy < g.numFats && c < g.Slots()
    ensures FatSlot(g, disk[lba := s], copy, c) == FatSlot(g, disk, copy, c)
  {
    FatLbaInFat(g, copy, c);
  }

  lemma WriteOneRegion(disk: seq<Sector>, g: Geometry, r: nat, k: nat, s: Sector, r': nat, k': nat)
    requires g.Ok() && g.DiskSectors() <= |disk|
    requires r < g.backed && k < g.RegionSize(r) && r' < g.backed && k' < g.RegionSize(r')
    ensures 0 <= g.Lba(r, k) < |disk|
    ensures RegionSector(g, disk[g.Lba(r, k) := s], r', k') == if r == r' && k == k' then s else RegionSector(g, disk, r', k')
  {
    LbaInArea(g, r, k);
    LbaInArea(g, r', k');
    if g.Lba(r, k) == g.Lba(r', k') {
      LbaInjective(g, r, k, r', k');
    }
  }

  lemma WriteSectorImage(disk: seq<Sector>, img: Image, r: nat, k: nat, s: Sector)
    requires Represents(disk, img) && r < img.g.backed && k < img.g.RegionSize(r)
    ensures img.g.RootStart() <= img.g.Lba(r, k) < img.g.DiskSectors() <= |disk|
    ensures Represents(disk[img.g.Lba(r, k) := s], img.WithSector(r, k, s))
  {
    var g := img.g;
    LbaInArea(g, r, k);
    var disk' := disk[g.Lba(r, k) := s];
    forall copy, c | 0 <= copy < g.numFats && 0 <= c < g.Slots()
      ensures FatSlot(g, disk', copy, c) == img.fat[c]
    {
      WriteKeepsFat(disk, g, g.Lba(r, k), s, copy, c);
    }
    var img' := img.WithSector(r, k, s);
    forall r', k' | 0 <= r' < g.backed && 0 <= k' < g.RegionSize(r')
      ensures RegionSector(g, disk', r', k') == img'.region[r'][k']
    {
      WriteOneRegion(disk, g, r, k, s, r', k');
    }
  }

  /** Entry j of directory d. */
  datatype Slot = Slot(d: nat, j: nat)

  /** A cluster is link i of the chain of entry s. */
  datatype Owner = Owner(s: Slot, i: nat)

  /** The account of who owns what: the directories with their depth in the tree, the cluster chain of every
      entry, and the entry that owns each cluster. */
  datatype Layout = Layout(rank: map<nat, nat>, chain: map<Slot, seq<nat>>, owner: map<nat, Owner>)

  class Volume {
    const g: Geometry
    var disk: seq<Sector>
    ghost var img: Image
    ghost var layout: Layout
    /** The disk fs_init found. */
    ghost const start: seq<Sector>
    /** The disk after each ata_write so far. */
    ghost var trace: seq<seq<Sector>>

    ghost predicate Readable()
      reads this`disk, this`img
    {
      img.g == g && img.Shape() && FoldedShows(disk, img)
    }

    ghost predicate Mounted()
      reads this`disk, this`img
    {
      Readable() && FoldedDisk(disk, img) && FoldedKept(g, start, disk)
    }

    constructor (g: Geometry, disk: seq<Sector>, ghost img: Image, ghost layout: Layout)
      ensures this.g == g && this.disk == start == disk && this.img == img && this.layout == layout && trace == []
    {
      this.g, this.disk, start := g, disk, disk;
      this.img, this.layout, trace := img, layout, [];
    }

    method AtaRead(lba: nat) returns (s: Sector)
      requires lba < |disk|
      ensures s == disk[lba]
    {
      s := disk[lba];
    }

    method AtaWrite(lba: nat, s: Sector)
      requires lba < |disk|
      modifies this`disk, this`trace
      ensures disk == old(disk)[lba := s] && trace == old(trace) + [disk]
    {
      disk := disk[lba := s];
      trace := trace + [disk];
    }
  }

  /** ata_read of sector k of a region. */
  method ReadSector(v: Volume, lba: int, ghost r: nat, ghost k: nat) returns (s: Sector)
    requires v.Readable() && r < v.g.backed && k < v.g.RegionSize(r) && AtLba(v.g, lba, r, k)
    ensures s == v.img.region[r][k]
  {
    assert Placed(0);
    UnfoldShows(v.disk, v.img);
    LbaInArea(v.g, r, k);
    s := v.AtaRead(lba);
    assert RegionSector(v.g, v.disk, r, k) == v.img.region[r][k];
  }

  /** ata_write of sector k of a region: that sector and nothing else changes. */
  method WriteSector(v: Volume, lba: int, s: Sector, ghost r: nat, ghost k: nat)
    requires v.Mounted() && r < v.g.backed && k < v.g.RegionSize(r) && AtLba(v.g, lba, r, k)
    modifies v`disk, v`img, v`trace
    ensures v.Mounted() && v.img == old(v.img).WithSector(r, k, s) && v.trace == old(v.trace) + [v.disk]
  {
    assert Placed(0);
    UnfoldDisk(v.disk, v.img);
    WriteSectorImage(v.disk, v.img, r, k, s);
    KeptWrite(v.g, v.start, v.disk, lba, s);
    v.AtaWrite(lba, s);
    v.img := v.img.WithSector(r, k, s);
  }

  /** fat_entry reads the first FAT copy. */
  method FatEntry(v: Volume, cluster: nat) returns (value: u16)
    requires v.Readable() && cluster < v.g.Slots()
    ensures value == v.img.fat[cluster]
  {
    var off := cluster * 2;
    UnfoldShows(v.disk, v.img);
    FatLbaInFat(v.g, 0, cluster);
    var buff := v.AtaRead(v.g.fatStart + off / 512);
    value := U16At(buff, off % 512);
    assert FatSlot(v.g, v.disk, 0, cluster) == v.img.fat[cluster];
  }

  /** The copies below `done` hold `img'`, the others still hold `img`. */
  ghost predicate HalfMirrored(disk: seq<Sector>, img: Image, img': Image, done: nat) {
    && img.Shape() && img'.Shape() && img'.g == img.g
    && img.g.DiskSectors() <= |disk|
    && (forall copy, c :: 0 <= copy < img.g.numFats && 0 <= c < img.g.Slots() ==>
          FatSlot(img.g, disk, copy, c) == if copy < done then img'.fat[c] else img.fat[c])
    && RegionsMatch(disk, img)
  }

  lemma MirrorOneMore(disk: seq<Sector>, img: Image, copy: nat, cluster: nat, value: u16)
    requires img.Shape() && cluster < img.g.Slots() && copy < img.g.numFats
    requires HalfMirrored(disk, img, img.WithFat(cluster, value), copy)
    ensures 0 <= img.g.FatLba(copy, cluster) < |disk|
    ensures
      var lba := img.g.FatLba(copy, cluster);
      HalfMirrored(disk[lba := PutU16(disk[lba], 2 * (cluster % 256), value)], img, img.WithFat(cluster, value), copy + 1)
  {
    var g := img.g;
    FatLbaInFat(g, copy, cluster);
    var lba := g.FatLba(copy, cluster);
    var disk' := disk[lba := PutU16(disk[lba], 2 * (cluster % 256), value)];
    var img' := img.WithFat(cluster, value);
    forall k, c | 0 <= k < g.numFats && 0 <= c < g.Slots()
      ensures FatSlot(g, disk', k, c) == if k < copy + 1 then img'.fat[c] else img.fat[c]
    {
      FatLbaInFat(g, k, c);
      assert FatSlot(g, disk, k, c) == if k < copy then img'.fat[c] else img.fat[c];
      if g.FatLba(k, c) == lba {
        DivModUnique(k, c / 256, copy, cluster / 256, g.sectorsPerFat);
      }
    }
    forall r, k | 0 <= r < g.backed && 0 <= k < g.RegionSize(r)
      ensures RegionSector(g, disk', r, k) == img.region[r][k]
    {
      LbaInArea(g, r, k);
      assert RegionSector(g, disk, r, k) == img.region[r][k];
    }
  }

  /** What has been read since position |base| of the trace on is `img`. */
  ghost predicate Showed(base: seq<seq<Sector>>, trace: seq<seq<Sector>>, img: Image) {
    base <= trace && forall k :: |base| <= k < |trace| ==> Shows(trace[k], img)
  }

  lemma HalfShows(disk: seq<Sector>, img: Image, img': Image, done: nat)
    requires HalfMirrored(disk, img, img', done) && 0 < done && img'.region == img.region
    ensures Shows(disk, img')
  {
    forall r, k | 0 <= r < img.g.backed && 0 <= k < img.g.RegionSize(r)
      ensures RegionSector(img.g, disk, r, k) == img'.region[r][k]
    {
      assert RegionSector(img.g, disk, r, k) == img.region[r][k];
    }
  }

  /** fat_set_entry rewrites the slot in every FAT copy, the first one first. */
  method FatSetEntry(v: Volume, cluster: nat, value: u16)
    requires v.Mounted() && cluster < v.g.Slots()
    modifies v`disk, v`img, v`trace
    ensures v.Mounted() && v.img == old(v.img).WithFat(cluster, value)
    ensures Showed(old(v.trace), v.trace, v.img) && |v.trace| == |old(v.trace)| + v.g.numFats
  {
    var off := cluster * 2;
    UnfoldDisk(v.disk, v.img);
    ghost var img' := v.img.WithFat(cluster, value);
    var k := 0;
    while k < v.g.numFats
      invariant 0 <= k <= v.g.numFats
      invariant v.img == old(v.img) && v.img.g == v.g
      invariant Showed(old(v.trace), v.trace, img') && |v.trace| == |old(v.trace)| + k
      invariant HalfMirrored(v.disk, v.img, img', k) && FoldedKept(v.g, v.start, v.disk)
    {
      FatLbaInFat(v.g, k, cluster);
      var lba := v.g.fatStart + k * v.g.sectorsPerFat + off / 512;
      assert lba == v.g.FatLba(k, cluster);
      var buff := v.AtaRead(lba);
      MirrorOneMore(v.disk, v.img, k, cluster, value);
      KeptWrite(v.g, v.start, v.disk, lba, PutU16(buff, off % 512, value));
      v.AtaWrite(lba, PutU16(buff, off % 512, value));
      k := k + 1;
      HalfShows(v.disk, v.img, img', k);
    }
    HalfShows(v.disk, v.img, img', k);
    v.img := img';
  }

  // ---- what a crash can leave behind ----

  /** Between a and b, only slots that are free in `fat` and their clusters differ. */
  ghost predicate Spares(fat: seq<u16>, a: Image, b: Image) {
    && b.g == a.g && |b.fat| == |a.fat| && |b.region| == |a.region| && a.Shape() && b.Shape()
    && (forall c :: 0 <= c < |fat| && c < |a.fat| && (c < 2 || fat[c] != 0) ==> b.fat[c] == a.fat[c])
    && (forall c :: 0 <= c < |fat| && c < |a.region| && (c < 2 || fat[c] != 0) ==> b.region[c] == a.region[c])
  }

  /** The disk shows an image that differs from `a` only in slots free in `fat` and their clusters. */
  ghost predicate DiskSpares(fat: seq<u16>, a: Image, disk: seq<Sector>) {
    exists b :: Shows(disk, b) && Spares(fat, a, b)
  }

  /** So does every disk written since position |base| of the trace. */
  ghost predicate TraceSpares(fat: seq<u16>, a: Image, base: seq<seq<Sector>>, trace: seq<seq<Sector>>) {
    base <= trace && forall k :: |base| <= k < |trace| ==> DiskSpares(fat, a, trace[k])
  }
}
