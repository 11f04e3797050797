/** The bytes of a file: sector writes through a chain, seen on the flat byte string of the chain. */
module FileData {
  import opened Sequences
  import opened Bytes
  import opened Disk
  import opened Fat
  import opened Directory
  import opened WellFormed
  import opened Tree

  /** Every cluster of the chain is a region of n sectors. */
  ghost predicate Backed(region: seq<seq<Sector>>, ch: seq<nat>, n: nat) {
    forall i :: 0 <= i < |ch| ==> ch[i] < |region| && |region[ch[i]]| == n
  }

  lemma {:induction false} SectorsLength(region: seq<seq<Sector>>, ch: seq<nat>, n: nat)
    requires Backed(region, ch, n)
    ensures |Sectors(region, ch)| == |ch| * n
    decreases |ch|
  {
    if ch != [] {
      SectorsLength(region, ch[1..], n);
      assert |ch| * n == n + (|ch| - 1) * n;
    }
  }

  /** Sector k of link i is sector i * n + k of the chain. */
  lemma {:induction false} SectorsAt(region: seq<seq<Sector>>, ch: seq<nat>, n: nat, i: nat, k: nat)
    requires Backed(region, ch, n) && i < |ch| && k < n
    ensures i * n + k < |Sectors(region, ch)| == |ch| * n
    ensures Sectors(region, ch)[i * n + k] == region[ch[i]][k]
    decreases i
  {
    SectorsLength(region, ch, n);
    MulLe(i + 1, |ch|, n);
    if i > 0 {
      var rest := Sectors(region, ch[1..]);
      SectorsAt(region, ch[1..], n, i - 1, k);
      var x := (i - 1) * n + k;
      assert i * n + k == n + x;
      assert (region[ch[0]] + rest)[n + x] == rest[x];
    }
  }

  lemma SectorsUpdateFirst(region: seq<seq<Sector>>, ch: seq<nat>, n: nat, k: nat, s: Sector)
    requires Backed(region, ch, n) && NoDup(ch) && ch != [] && k < n
    ensures k < |Sectors(region, ch)| && Sectors(SetSector(region, ch[0], k, s), ch) == Sectors(region, ch)[k := s]
  {
    SectorsSame(region, SetSector(region, ch[0], k, s), ch[1..]);
    UpdateFront(region[ch[0]], Sectors(region, ch[1..]), k, s);
  }

  lemma UpdateFront(a: seq<Sector>, b: seq<Sector>, x: nat, s: Sector)
    requires x < |a|
    ensures (a + b)[x := s] == a[x := s] + b
  {
  }

  lemma UpdateBehind(a: seq<Sector>, b: seq<Sector>, x: nat, s: Sector)
    requires |a| <= x < |a| + |b|
    ensures (a + b)[x := s] == a + b[x - |a| := s]
  {
  }

  lemma SectorsUpdateRest(region: seq<seq<Sector>>, region': seq<seq<Sector>>, ch: seq<nat>, x: nat, s: Sector)
    requires ch != [] && ch[0] < |region| == |region'| && region'[ch[0]] == region[ch[0]]
    requires |region[ch[0]]| <= x < |Sectors(region, ch)|
    requires
      var y := x - |region[ch[0]]|;
      y < |Sectors(region, ch[1..])| && Sectors(region', ch[1..]) == Sectors(region, ch[1..])[y := s]
    ensures Sectors(region', ch) == Sectors(region, ch)[x := s]
  {
    UpdateBehind(region[ch[0]], Sectors(region, ch[1..]), x, s);
  }

  lemma {:induction false} SectorsUpdate(region: seq<seq<Sector>>, ch: seq<nat>, n: nat, i: nat, k: nat, s: Sector)
    requires Backed(region, ch, n) && NoDup(ch) && i < |ch| && k < n
    ensures i * n + k < |Sectors(region, ch)|
    ensures Sectors(SetSector(region, ch[i], k, s), ch) == Sectors(region, ch)[i * n + k := s]
    decreases i
  {
    SectorsAt(region, ch, n, i, k);
    if i == 0 {
      SectorsUpdateFirst(region, ch, n, k, s);
    } else {
      SectorsUpdate(region, ch[1..], n, i - 1, k, s);
      assert ch[1..][i - 1] == ch[i];
      assert (i - 1) * n + k == i * n + k - n;
      SectorsUpdateRest(region, SetSector(region, ch[i], k, s), ch, i * n + k, s);
    }
  }

  lemma {:induction false} SectorsAppend(region: seq<seq<Sector>>, a: seq<nat>, b: seq<nat>)
    ensures Sectors(region, a + b) == Sectors(region, a) + Sectors(region, b)
    decreases |a|
  {
    if a == [] {
      assert a + b == b;
    } else {
      assert (a + b)[1..] == a[1..] + b;
      SectorsAppend(region, a[1..], b);
    }
  }

  lemma {:induction false} FlatAt(secs: seq<Sector>, q: nat)
    requires q < |secs|
    ensures Flat(secs)[512 * q..512 * q + 512] == secs[q]
  {
    if q > 0 {
      FlatAt(secs[1..], q - 1);
      assert Flat(secs)[512 * q..512 * q + 512] == Flat(secs[1..])[512 * (q - 1)..512 * (q - 1) + 512];
    }
  }

  /** Overwriting part of one sector overwrites those bytes of the file. */
  lemma {:induction false} FlatPatch(secs: seq<Sector>, q: nat, b: nat, d: seq<byte>)
    requires q < |secs| && b + |d| <= 512
    ensures Flat(secs[q := Patch(secs[q], b, d)]) == Patch(Flat(secs), 512 * q + b, d)
    decreases q
  {
    var t: Sector := Patch(secs[q], b, d);
    if q == 0 {
      assert secs[q := t][1..] == secs[1..];
    } else {
      FlatPatch(secs[1..], q - 1, b, d);
      assert secs[q := t][1..] == secs[1..][q - 1 := t];
    }
  }

  lemma ClusterBacked(img: Image, L: Layout, s: Slot, i: nat)
    requires img.Shape() && VolumeOk(MetaOf(img), L) && s in L.chain && i < |L.chain[s]|
    ensures L.chain[s][i] < |img.region| && |img.region[L.chain[s][i]]| == img.g.secPerClus
  {
    OwnedInUse(MetaOf(img), L, s, i);
  }

  /** The clusters of an entry are whole regions. */
  lemma ChainBacked(img: Image, L: Layout, s: Slot)
    requires img.Shape() && VolumeOk(MetaOf(img), L) && s in L.chain
    ensures Backed(img.region, L.chain[s], img.g.secPerClus)
  {
    forall i | 0 <= i < |L.chain[s]|
      ensures L.chain[s][i] < |img.region| && |img.region[L.chain[s][i]]| == img.g.secPerClus
    {
      ClusterBacked(img, L, s, i);
    }
  }

  lemma FlatLength(region: seq<seq<Sector>>, ch: seq<nat>, g: Geometry)
    requires Backed(region, ch, g.secPerClus)
    ensures |Flat(Sectors(region, ch))| == |ch| * g.ClusterBytes()
  {
    SectorsLength(region, ch, g.secPerClus);
    assert 512 * (|ch| * g.secPerClus) == |ch| * (g.secPerClus * 512);
  }

  lemma EnoughFlat(region: seq<seq<Sector>>, ch: seq<nat>, g: Geometry, size: nat)
    requires Backed(region, ch, g.secPerClus) && 0 < g.secPerClus && |ch| == CeilDiv(size, g.ClusterBytes())
    ensures size <= |Flat(Sectors(region, ch))|
  {
    FlatLength(region, ch, g);
    CeilDivBounds(size, g.ClusterBytes());
  }

  /** The content of a file is as long as its entry says. */
  lemma ContentLength(img: Image, L: Layout, s: Slot)
    requires img.Shape() && VolumeOk(MetaOf(img), L) && s in L.chain && !MetaOf(img).At(s).IsDir()
    ensures |Content(img.region, L.chain[s], MetaOf(img).At(s).size)| == MetaOf(img).At(s).size
    ensures |L.chain[s]| == CeilDiv(MetaOf(img).At(s).size, img.g.ClusterBytes())
  {
    ChainBacked(img, L, s);
    assert EntryOk(MetaOf(img), L, s);
    EnoughFlat(img.region, L.chain[s], img.g, MetaOf(img).At(s).size);
  }

  // ---- where the bytes are ----

  lemma ByteOfSectors(secs: seq<Sector>, i: nat, o: nat)
    requires i < |secs| && o < 512
    ensures Flat(secs)[512 * i + o] == secs[i][o]
  {
    FlatAt(secs, i);
    assert Flat(secs)[512 * i + o] == Flat(secs)[512 * i..512 * i + 512][o];
  }

  /** Byte b of sector k of link i of a file's chain is byte 512 * (i * n + k) + b of the file, for clusters of n sectors. */
  lemma ContentByte(region: seq<seq<Sector>>, ch: seq<nat>, n: nat, size: nat, i: nat, k: nat, b: nat)
    requires Backed(region, ch, n) && i < |ch| && k < n && b < 512
    requires 512 * (i * n + k) + b < size
    ensures
      var at := 512 * (i * n + k) + b;
      at < |Content(region, ch, size)| && Content(region, ch, size)[at] == region[ch[i]][k][b]
  {
    SectorsAt(region, ch, n, i, k);
    ByteOfSectors(Sectors(region, ch), i * n + k, b);
  }

  /** Slot c of a FAT copy is the word at byte 2 * c of the copy's sectors. */
  lemma SlotBytes(g: Geometry, disk: seq<Sector>, copy: nat, c: nat)
    requires g.Ok() && g.DiskSectors() <= |disk| && copy < g.numFats && c < g.Slots()
    ensures
      var start := g.fatStart + copy * g.sectorsPerFat;
      && start + g.sectorsPerFat <= |disk|
      && var bytes := Flat(disk[start..start + g.sectorsPerFat]);
      FatSlot(g, disk, copy, c) == bytes[2 * c] as int + 0x100 * bytes[2 * c + 1] as int
  {
    var start := g.fatStart + copy * g.sectorsPerFat;
    FatLbaInFat(g, copy, g.Slots() - 1);
    var secs := disk[start..start + g.sectorsPerFat];
    FatLbaInFat(g, copy, c);
    assert secs[c / 256] == disk[g.FatLba(copy, c)];
    ByteOfSectors(secs, c / 256, 2 * (c % 256));
    ByteOfSectors(secs, c / 256, 2 * (c % 256) + 1);
    assert 512 * (c / 256) + 2 * (c % 256) == 2 * c;
  }

  /** Entry j of a directory has the 32 bytes from byte 32 * j on. */
  lemma EntryBytesAt(region: seq<Sector>, j: nat, o: nat)
    requires j < 16 * |region| && o < 32
    ensures DirOf(region)[j] == EntryAt(region[j / 16], j % 16) && Flat(region)[32 * j + o] == region[j / 16][32 * (j % 16) + o]
  {
    ByteOfSectors(region, j / 16, 32 * (j % 16) + o);
    assert 512 * (j / 16) + (32 * (j % 16) + o) == 32 * j + o;
  }
}
