/** The disk as tools/fat16_mkfs.py writes it, byte by byte: fs_init finds an empty volume on it. */
module Formatted {
  import opened Bytes
  import opened Disk
  import opened Fat
  import opened Directory
  import opened Names
  import opened WellFormed
  import opened Tree
  import opened FileSystem
  import opened Namespace
  import opened Subdirs
  import opened Runs

  /** The bytes of the boot sector fs_init looks at: 512 to a sector, 2 sectors to a cluster, 1 sector reserved, 2 FATs, 512
      root entries, 8 sectors to a FAT. */
  predicate BootBytes(b: Sector) {
    && b[0x0B] == 0x00 && b[0x0C] == 0x02 && b[0x0D] == 0x02 && b[0x0E] == 0x01 && b[0x0F] == 0x00 && b[0x10] == 0x02
    && b[0x11] == 0x00 && b[0x12] == 0x02 && b[0x16] == 0x08 && b[0x17] == 0x00
  }

  predicate Zero(s: Sector) {
    forall k :: 0 <= k < 512 ==> s[k] == 0
  }

  /** The first sector of a FAT without files. */
  predicate EmptyFat(s: Sector) {
    s[0] == 0xF8 && s[1] == 0xFF && s[2] == 0xFF && s[3] == 0xFF && forall k :: 4 <= k < 512 ==> s[k] == 0
  }

  /** A disk of any size the tool takes. */
  ghost predicate Made(disk: seq<Sector>) {
    && 49 < |disk| <= 0xFFFF && BootBytes(disk[0]) && EmptyFat(disk[1]) && EmptyFat(disk[9])
    && forall i :: 1 < i < |disk| && i != 9 ==> Zero(disk[i])
  }

  lemma BootGeometry(b: Sector, sectors: nat)
    requires BootBytes(b)
    ensures U16At(b, 0x0B) == 512 && GeometryOf(b, sectors) == Geometry(1, 2, 8, 32, 2, Behind(2048, 49, 2, sectors))
  {
    assert (512 * 32 + 512 - 1) / 512 == 32;
  }

  ghost function MadeGeometry(sectors: nat): (g: Geometry)
    ensures g.Ok()
  {
    Geometry(1, 2, 8, 32, 2, Behind(2048, 49, 2, sectors))
  }

  ghost function EmptyRegions(g: Geometry): (r: seq<seq<Sector>>)
    ensures |r| == g.backed
  {
    seq(g.backed, i requires 0 <= i < g.backed => seq(g.RegionSize(i), _ => ZERO_SECTOR))
  }

  ghost function MadeImage(sectors: nat): Image {
    Image(MadeGeometry(sectors), [0xFFF8, 0xFFFF] + seq(2046, _ => 0), EmptyRegions(MadeGeometry(sectors)))
  }

  lemma MadeShape(sectors: nat)
    requires sectors > 49
    ensures MadeImage(sectors).Shape() && MadeGeometry(sectors).DiskSectors() <= sectors
  {
    var g := MadeGeometry(sectors);
    assert g.Slots() == 2048 && g.DataStart() == 49;
    assert g.DiskSectors() == 49 + 2 * (g.backed - 2);
  }

  lemma ZeroIs(s: Sector)
    requires Zero(s)
    ensures s == ZERO_SECTOR
  {
  }

  /** The words of a FAT without files. */
  function EmptySlot(c: nat): u16 {
    if c == 0 then 0xFFF8 else if c == 1 then 0xFFFF else 0
  }

  lemma FirstSectorSlot(s: Sector, i: nat)
    requires EmptyFat(s) && i < 256
    ensures U16At(s, 2 * i) == EmptySlot(i)
  {
    if i >= 2 {
      assert s[2 * i] == 0 && s[2 * i + 1] == 0;
    }
  }

  lemma ZeroSlot(s: Sector, i: nat)
    requires Zero(s) && i < 256
    ensures U16At(s, 2 * i) == 0
  {
    assert s[2 * i] == 0 && s[2 * i + 1] == 0;
  }

  lemma MadeWord(sectors: nat, c: nat)
    requires c < 2048
    ensures |MadeImage(sectors).fat| == 2048 && MadeImage(sectors).fat[c] == EmptySlot(c)
  {
  }

  lemma SlotSector(disk: seq<Sector>, copy: nat, c: nat)
    requires Made(disk) && copy < 2 && c < 2048
    ensures
      var lba := 1 + copy * 8 + c / 256;
      lba < 17 && if c < 256 then EmptyFat(disk[lba]) && c % 256 == c else Zero(disk[lba])
  {
    assert c < 256 ==> c / 256 == 0;
    assert c >= 256 ==> 1 <= c / 256 <= 7;
  }

  lemma MadeSlot(disk: seq<Sector>, copy: nat, c: nat)
    requires Made(disk) && copy < 2 && c < 2048 && MadeImage(|disk|).Shape() && MadeGeometry(|disk|).DiskSectors() <= |disk|
    ensures FatSlot(MadeGeometry(|disk|), disk, copy, c) == MadeImage(|disk|).fat[c]
  {
    var lba := 1 + copy * 8 + c / 256;
    SlotSector(disk, copy, c);
    MadeWord(|disk|, c);
    if c >= 256 {
      ZeroSlot(disk[lba], c % 256);
    } else {
      FirstSectorSlot(disk[lba], c);
    }
  }

  lemma MadeRegion(disk: seq<Sector>, r: nat, k: nat)
    requires Made(disk) && MadeImage(|disk|).Shape() && MadeGeometry(|disk|).DiskSectors() <= |disk|
    requires r < MadeGeometry(|disk|).backed && k < MadeGeometry(|disk|).RegionSize(r)
    ensures RegionSector(MadeGeometry(|disk|), disk, r, k) == MadeImage(|disk|).region[r][k]
  {
    var g := MadeGeometry(|disk|);
    LbaInArea(g, r, k);
    assert g.RootStart() == 17;
    ZeroIs(disk[g.Lba(r, k)]);
  }

  /** The disk stands for the image without files. */
  lemma MadeDisk(disk: seq<Sector>)
    requires Made(disk)
    ensures Boots(disk, MadeGeometry(|disk|)) && Represents(disk, MadeImage(|disk|))
  {
    MadeShape(|disk|);
    BootGeometry(disk[0], |disk|);
    forall copy, c | 0 <= copy < 2 && 0 <= c < 2048 ensures FatSlot(MadeGeometry(|disk|), disk, copy, c) == MadeImage(|disk|).fat[c] {
      MadeSlot(disk, copy, c);
    }
    var g := MadeGeometry(|disk|);
    forall r, k | 0 <= r < g.backed && 0 <= k < g.RegionSize(r) ensures RegionSector(g, disk, r, k) == MadeImage(|disk|).region[r][k] {
      MadeRegion(disk, r, k);
    }
  }

  lemma ZeroEntry(i: nat)
    requires i < 16
    ensures EntryAt(ZERO_SECTOR, i).IsEnd()
  {
  }

  lemma MadeBlank(sectors: nat)
    requires MadeImage(sectors).Shape()
    ensures Blank(MadeImage(sectors))
  {
    var root := MadeImage(sectors).region[0];
    forall j | 0 <= j < |DirOf(root)| ensures DirOf(root)[j].IsEnd() {
      ZeroEntry(j % 16);
    }
  }

  /** The operations ask for no more clusters in all than have sectors. */
  ghost predicate Affordable(sectors: nat, ops: seq<Op>) {
    Demands(MadeGeometry(sectors), ops, |ops|) + 2 <= MadeGeometry(sectors).backed
  }

  lemma MadeServed(sectors: nat, ops: seq<Op>)
    requires MadeImage(sectors).Shape() && Affordable(sectors, ops)
    ensures BlankView(MadeImage(sectors)) == View(map[0 := map[]], 2046, map[0 := 512])
    ensures AllServed(MadeGeometry(sectors), ops, BlankView(MadeImage(sectors)))
  {
    EnoughServed(MadeGeometry(sectors), ops, BlankView(MadeImage(sectors)));
  }

  /** On a disk the tool has made: every sequence of operations that asks for no more clusters than the disk has is a run from
      the empty tree, with 2046 free slots in the table and 512 in the root directory, and is found again after fs_init. */
  method RunMade(disk: seq<Sector>, ops: seq<Op>) returns (w: Volume, codes: seq<int>, ghost views: seq<View>)
    requires Made(disk) && (forall i :: 0 <= i < |ops| ==> Callable(ops[i])) && Affordable(|disk|, ops)
    ensures Valid(w) && w.g.Ok() && w.g == MadeGeometry(|disk|) && Ran(w.g, ops, codes, views, |ops|)
    ensures views[0] == View(map[0 := map[]], 2046, map[0 := 512]) && views[|ops|] == ViewOf(w.img, w.layout)
  {
    ghost var img := MadeImage(|disk|);
    MadeDisk(disk);
    MadeBlank(|disk|);
    MadeServed(|disk|, ops);
    w, codes, views := RunFormatted(disk, ops, img);
  }
}
