/** fat_write_file_at. */
module Growing {
  import opened Bytes
  import opened Folding
  import opened Disk
  import opened Fat
  import opened Directory
  import opened Names
  import opened WellFormed
  import opened Tree
  import opened FileSystem
  import opened FileData
  import opened Allocation
  import opened ChainIO
  import opened Namespace
  import opened Files

  /** c with src written over it from offset on. */
  function Splice(c: seq<byte>, offset: nat, src: seq<byte>): (r: seq<byte>)
    requires offset <= |c|
    ensures |r| == Max(|c|, offset + |src|)
  {
    c[..offset] + src + if offset + |src| < |c| then c[offset + |src|..] else []
  }

  /** On the flat bytes of a chain that is long enough, a patch is a splice of the file. */
  lemma SpliceOfPrefix(f: seq<byte>, size: nat, offset: nat, src: seq<byte>)
    requires offset <= size <= |f| && offset + |src| <= |f|
    ensures Patch(f, offset, src)[..Max(size, offset + |src|)] == Splice(f[..size], offset, src)
  {
  }

  lemma {:induction false} FlatAppend(a: seq<Sector>, b: seq<Sector>)
    ensures Flat(a + b) == Flat(a) + Flat(b)
    decreases |a|
  {
    if a == [] {
      assert a + b == b;
    } else {
      assert (a + b)[1..] == a[1..] + b;
      FlatAppend(a[1..], b);
    }
  }

  /** A longer chain starts with the bytes of the shorter one. */
  lemma ChainBytesPrefix(region: seq<seq<Sector>>, ch: seq<nat>, more: seq<nat>)
    ensures Flat(Sectors(region, ch)) <= Flat(Sectors(region, ch + more))
  {
    SectorsAppend(region, ch, more);
    FlatAppend(Sectors(region, ch), Sectors(region, more));
  }

  // ---- committing a grown file ----

  lemma DirOkResize(es: seq<Entry>, j: nat, size: u32)
    requires DirOk(es) && j < |es| && es[j].Owns()
    ensures DirOk(es[j := es[j].(size := size)]) && es[j].(size := size).Owns()
  {
    DirOkReplace(es, j, es[j].(size := size));
  }

  /** The chain of s was grown by spare clusters (more), regions of the longer chain were written, and the size in
      the entry was set. */
  ghost predicate Grown(img: Image, L: Layout, img': Image, s: Slot, more: seq<nat>, size: u32) {
    var ch := ChainOf(L, s);
    var linked := ch != [] && Spare(img.fat, more) && BackedChain(img.g, more) && ch[|ch| - 1] < |img.fat| <= EOC
                  && img'.fat == Extended(img.fat, ch[|ch| - 1], more);
    var shaped := img'.Shape() && img'.g == img.g && |img'.region| == |img.region| && MetaOf(img).Has(s);
    var elsewhere := shaped ==> RegionStep(img.region, img'.region, s.d, ch, ch + more);
    var entered := shaped ==> DirOf(img'.region[s.d]) == DirOf(img.region[s.d])[s.j := MetaOf(img).At(s).(size := size)];
    linked && shaped && elsewhere && entered
  }

  lemma GrownFat(fat: seq<u16>, first: nat, ch: seq<nat>, more: seq<nat>)
    requires |fat| <= EOC && Chain(fat, first, ch) && ch != [] && Spare(fat, more)
    ensures ch[|ch| - 1] < |fat|
    ensures FatStep(fat, Extended(fat, ch[|ch| - 1], more), ch, ch + more)
    ensures Chain(Extended(fat, ch[|ch| - 1], more), first, ch + more)
  {
    ExtendedChain(fat, first, ch, more);
  }

  lemma GrownBacked(img: Image, L: Layout, s: Slot, more: seq<nat>)
    requires VolumeOk(MetaOf(img), L) && s in L.chain && BackedChain(img.g, more)
    ensures BackedChain(img.g, L.chain[s] + more)
  {
    assert EntryOk(MetaOf(img), L, s);
  }

  lemma GrowChanged(img: Image, L: Layout, img': Image, s: Slot, more: seq<nat>, size: u32)
    requires img.Shape() && VolumeOk(MetaOf(img), L) && s in L.chain && !MetaOf(img).At(s).IsDir()
    requires Grown(img, L, img', s, more, size)
    requires |L.chain[s] + more| == CeilDiv(size, img.g.ClusterBytes())
    ensures Changed(img, L, img', s, MetaOf(img).At(s).(size := size), L.chain[s] + more)
    ensures MetaOf(img).At(s).(size := size).Owns()
  {
    var m, ch := MetaOf(img), L.chain[s];
    DirRegion(img, L, s.d);
    FileChain(img, L, s);
    GrownFat(img.fat, m.At(s).first, ch, more);
    GrownBacked(img, L, s, more);
    DirOkResize(DirOf(img.region[s.d]), s.j, size);
    assert (ch + more)[0] == ch[0];
  }

  /** A grown file keeps the volume well formed and becomes, in the tree, the bytes its chain now holds. */
  lemma GrowDone(img: Image, L: Layout, img': Image, s: Slot, more: seq<nat>, size: u32)
    requires img.Shape() && VolumeOk(MetaOf(img), L) && s in L.chain && !MetaOf(img).At(s).IsDir()
    requires Grown(img, L, img', s, more, size)
    requires |L.chain[s] + more| == CeilDiv(size, img.g.ClusterBytes())
    ensures
      var e := MetaOf(img).At(s).(size := size);
      var L' := NextLayout(MetaOf(img), L, s, e, L.chain[s] + more);
      && VolumeOk(MetaOf(img'), L') && s.d in TreeAt(img, L)
      && TreeAt(img', L') == Put(TreeAt(img, L), s.d, e.name, File(Content(img'.region, L.chain[s] + more, size)))
      && FreeCount(img'.fat) + |more| == FreeCount(img.fat)
      && Rooms(img', L') == Rooms(img, L)
  {
    GrowChanged(img, L, img', s, more, size);
    CommitFile(img, L, img', s, MetaOf(img).At(s).(size := size), L.chain[s] + more);
    RoomKept(img, L, img', s, MetaOf(img).At(s).(size := size), L.chain[s] + more);
  }

  // ---- the steps of a positioned write ----

  /** Where a byte offset lies: link, sector in the cluster, byte in the sector. */
  lemma OffsetParts(offset: nat, n: nat, length: nat)
    requires n > 0 && offset < length * (n * 512)
    ensures
      var cb := n * 512;
      var index, inCluster := offset / cb, offset % cb;
      && index < length && inCluster / 512 < n && 0 <= index * n
      && offset == 512 * (index * n + inCluster / 512) + inCluster % 512
  {
    var cb := n * 512;
    var index, inCluster := offset / cb, offset % cb;
    assert offset == index * cb + inCluster;
    MulCancel(index, length, cb);
    MulSwap(index, n, 512);
    MulLe(0, index, n);
  }

  /** The growth part of fat_write_file_at. */
  method MakeRoom(v: Volume, first: u16, extra: nat, ghost ch: seq<nat>) returns (ok: bool)
    requires v.Mounted() && Chain(v.img.fat, first, ch) && ch != []
    modifies v`disk, v`img, v`trace
    ensures v.Mounted() && (ok <==> extra <= old(FreeCount(v.img.fat)))
    ensures !ok ==> v.img == old(v.img) && v.disk == old(v.disk)
    ensures ok ==>
      var more := FirstFrees(old(v.img.fat), extra);
      && Spare(old(v.img.fat), more) && 2 <= ch[|ch| - 1] < v.g.Slots()
      && v.img == old(v.img).(fat := Extended(old(v.img.fat), ch[|ch| - 1], more))
  {
    ChainInUse(v.img.fat, first, ch, ch[|ch| - 1]);
    var free := CountFreeClusters(v);
    if extra > free {
      ok := false;
    } else {
      var last := LastCluster(v, first, ch);
      GrowChain(v, last, extra);
      ok := true;
    }
  }

  /** The data part of fat_write_file_at: find the place, then overwrite. */
  method OverwriteAt(v: Volume, first: u16, offset: nat, src: seq<byte>, ghost ch: seq<nat>)
    requires v.Mounted() && DataChain(v.g, ch) && Chain(v.img.fat, first, ch)
    requires |src| > 0 && offset + |src| <= |ch| * v.g.ClusterBytes()
    modifies v`disk, v`img, v`trace
    ensures v.Mounted() && OnlyRegions(old(v.img), v.img, ch)
    ensures offset + |src| <= |Flat(Sectors(old(v.img.region), ch))|
    ensures Flat(Sectors(v.img.region, ch)) == Patch(Flat(Sectors(old(v.img.region), ch)), offset, src)
  {
    var clusterBytes := v.g.secPerClus * 512;
    OffsetParts(offset, v.g.secPerClus, |ch|);
    var index, inCluster := offset / clusterBytes, offset % clusterBytes;
    var sector, byteIn := inCluster / 512, inCluster % 512;
    var cluster := WalkTo(v, first, index, ch);
    OverwriteChain(v, cluster, sector, byteIn, src, first, ch, index, index * v.g.secPerClus, offset);
  }

  /** Writes a directory sector back with a new size in one entry. */
  method WriteBackSize(v: Volume, lba: int, idx: nat, buff: Sector, size: u32, ghost s: Slot)
    requires v.Mounted() && Located(v.g, lba, idx, s.d, s.j) && buff == v.img.region[s.d][s.j / 16]
    modifies v`disk, v`img, v`trace
    ensures v.Mounted() && EntrySet(old(v.img), v.img, s.d, s.j, MetaOf(old(v.img)).At(s).(size := size))
  {
    DirOfAt(v.img.region[s.d], s.j / 16, s.j % 16);
    SetSizeAt(buff, idx, size);
    WriteDirSector(v, lba, SetSize(buff, idx, size), s.d, s.j, MetaOf(v.img).At(s).(size := size));
  }

  /** A well-formed volume with a file in slot s that has clusters. */
  ghost predicate FileAt(img: Image, L: Layout, s: Slot) {
    var sound := img.Shape() && VolumeOk(MetaOf(img), L);
    var used := s in L.chain && !MetaOf(img).At(s).IsDir() && L.chain[s] != [];
    sound && used
  }

  /** FileAt, folded: a method that only passes it on does not have to look inside. */
  ghost predicate Folded(img: Image, L: Layout, s: Slot) {
    forall k :: Asked(k) ==> FileAt(img, L, s)
  }

  lemma Unfold(img: Image, L: Layout, s: Slot)
    requires Folded(img, L, s)
    ensures FileAt(img, L, s)
  {
    assert Asked(0);
  }

  /** The table after ch was grown by `more`. */
  ghost function GrownTable(fat: seq<u16>, ch: seq<nat>, more: seq<nat>): seq<u16> {
    if ch != [] && Spare(fat, more) && ch[|ch| - 1] < |fat| <= EOC then Extended(fat, ch[|ch| - 1], more) else fat
  }

  /** The data is in place: the chain was grown by `more`, only its regions differ from img, and it starts with c. */
  ghost predicate Laid(img: Image, L: Layout, img2: Image, s: Slot, more: seq<nat>, c: seq<byte>) {
    var ch := ChainOf(L, s);
    var linked := ch != [] && Spare(img.fat, more) && BackedChain(img.g, more) && ch[|ch| - 1] < |img.fat| <= EOC
                  && img2.fat == Extended(img.fat, ch[|ch| - 1], more);
    var written := OnlyRegions(img.(fat := img2.fat), img2, ch + more) && c <= Flat(Sectors(img2.region, ch + more));
    linked && written
  }

  lemma GrownApart(img: Image, L: Layout, s: Slot, more: seq<nat>)
    requires img.Shape() && VolumeOk(MetaOf(img), L) && s in L.chain && !MetaOf(img).At(s).IsDir()
    requires L.chain[s] != [] && Spare(img.fat, more) && BackedChain(img.g, more)
    ensures s.d !in L.chain[s] + more && DataChain(img.g, L.chain[s] + more)
  {
    var ch := L.chain[s];
    DirRegion(img, L, s.d);
    FileChain(img, L, s);
    GrownBacked(img, L, s, more);
    GrownFat(img.fat, MetaOf(img).At(s).first, ch, more);
    DirApart(MetaOf(img), L, Extended(img.fat, ch[|ch| - 1], more), s, ch + more, s.d);
    ChainNoDup(Extended(img.fat, ch[|ch| - 1], more), MetaOf(img).At(s).first, ch + more);
  }

  lemma LaidRegions(img: Image, img2: Image, img': Image, s: Slot, ch: seq<nat>, e: Entry)
    requires OnlyRegions(img.(fat := img2.fat), img2, ch) && s.d !in ch && s.d < |img.region|
    requires DataChain(img.g, ch) && EntrySet(img2, img', s.d, s.j, e)
    ensures RegionStep(img.region, img'.region, s.d, [], ch)
    ensures DirOf(img'.region[s.d]) == DirOf(img.region[s.d])[s.j := e]
    ensures Sectors(img'.region, ch) == Sectors(img2.region, ch)
  {
    assert forall i :: 0 <= i < |ch| ==> ch[i] in ch;
    SectorsSame(img2.region, img'.region, ch);
  }

  /** With the size written back, the grown file is complete. */
  lemma LaidGrown(img: Image, L: Layout, img2: Image, img': Image, s: Slot, more: seq<nat>, c: seq<byte>, size: u32)
    requires img.Shape() && VolumeOk(MetaOf(img), L) && s in L.chain && !MetaOf(img).At(s).IsDir()
    requires Laid(img, L, img2, s, more, c) && size == |c|
    requires EntrySet(img2, img', s.d, s.j, MetaOf(img).At(s).(size := size))
    ensures Grown(img, L, img', s, more, size)
    ensures Content(img'.region, L.chain[s] + more, size) == c
  {
    GrownApart(img, L, s, more);
    DirRegion(img, L, s.d);
    LaidRegions(img, img2, img', s, L.chain[s] + more, MetaOf(img).At(s).(size := size));
    PrefixContent(img'.region, L.chain[s] + more, c);
  }

  lemma LaidDone(img: Image, L: Layout, img2: Image, img': Image, s: Slot, more: seq<nat>, c: seq<byte>, size: u32)
    requires img.Shape() && VolumeOk(MetaOf(img), L) && s in L.chain && !MetaOf(img).At(s).IsDir()
    requires Laid(img, L, img2, s, more, c) && size == |c| && |L.chain[s] + more| == CeilDiv(size, img.g.ClusterBytes())
    requires EntrySet(img2, img', s.d, s.j, MetaOf(img).At(s).(size := size))
    ensures
      var e := MetaOf(img).At(s).(size := size);
      var L' := NextLayout(MetaOf(img), L, s, e, L.chain[s] + more);
      && VolumeOk(MetaOf(img'), L') && s.d in TreeAt(img, L)
      && TreeAt(img', L') == Put(TreeAt(img, L), s.d, e.name, File(c))
      && FreeCount(img'.fat) + |more| == FreeCount(img.fat)
      && Rooms(img', L') == Rooms(img, L)
  {
    LaidGrown(img, L, img2, img', s, more, c, size);
    GrowDone(img, L, img', s, more, size);
  }

  /** The directory sector is untouched by the data writes. */
  lemma LaidEntry(img: Image, img2: Image, s: Slot, ch: seq<nat>)
    requires OnlyRegions(img.(fat := img2.fat), img2, ch) && s.d !in ch && img.Shape() && img2.Shape() && MetaOf(img).Has(s)
    ensures s.d < |img.region| == |img2.region| && img2.region[s.d] == img.region[s.d]
    ensures MetaOf(img2).At(s) == MetaOf(img).At(s)
    ensures EntrySet(img2, img2, s.d, s.j, MetaOf(img).At(s))
  {
  }

  lemma LaidEntryOf(img: Image, L: Layout, img2: Image, s: Slot, more: seq<nat>, c: seq<byte>)
    requires img.Shape() && VolumeOk(MetaOf(img), L) && s in L.chain && !MetaOf(img).At(s).IsDir()
    requires img2.Shape() && Laid(img, L, img2, s, more, c)
    ensures s.d < |img.region| == |img2.region| && img2.region[s.d] == img.region[s.d]
    ensures MetaOf(img2).At(s) == MetaOf(img).At(s)
    ensures EntrySet(img2, img2, s.d, s.j, MetaOf(img).At(s))
  {
    GrownApart(img, L, s, more);
    DirRegion(img, L, s.d);
    LaidEntry(img, img2, s, L.chain[s] + more);
  }

  /** What the last write of a growing write leaves: img' is img2, or img2 with the new size in the entry. */
  ghost predicate Closed(img2: Image, img': Image, s: Slot, size: u32) {
    EntrySet(img2, img', s.d, s.j, MetaOf(img2).At(s).(size := size))
  }

  /** The file of s now holds c and has taken the clusters `more`; nothing else in the tree changed. */
  ghost predicate Finished(img: Image, L: Layout, img': Image, L': Layout, s: Slot, more: seq<nat>, c: seq<byte>) {
    var t := TreeAt(img, L);
    var stored := s.d in t && TreeAt(img', L') == Put(t, s.d, MetaOf(img).At(s).name, File(c));
    var linked := img'.fat == GrownTable(img.fat, ChainOf(L, s), more);
    var entered := |c| < U32_MOD && MetaOf(img').At(s) == MetaOf(img).At(s).(size := |c|);
    stored && linked && entered && FreeCount(img'.fat) + |more| == FreeCount(img.fat) && Rooms(img', L') == Rooms(img, L)
  }

  lemma EnteredEntry(img2: Image, img': Image, s: Slot, e: Entry)
    requires EntrySet(img2, img', s.d, s.j, e)
    ensures MetaOf(img').At(s) == e
  {
  }

  lemma ClosedDone(img: Image, L: Layout, img2: Image, img': Image, s: Slot, more: seq<nat>, c: seq<byte>, size: u32)
    requires img.Shape() && VolumeOk(MetaOf(img), L) && s in L.chain && !MetaOf(img).At(s).IsDir()
    requires Laid(img, L, img2, s, more, c) && size == |c| && |L.chain[s] + more| == CeilDiv(size, img.g.ClusterBytes())
    requires Closed(img2, img', s, size)
    ensures
      var L' := NextLayout(MetaOf(img), L, s, MetaOf(img).At(s).(size := size), L.chain[s] + more);
      VolumeOk(MetaOf(img'), L') && Finished(img, L, img', L', s, more, c)
  {
    LaidEntryOf(img, L, img2, s, more, c);
    EnteredEntry(img2, img', s, MetaOf(img2).At(s).(size := size));
    LaidDone(img, L, img2, img', s, more, c, size);
  }

  /** Everything known once the data of a growing write is in place. */
  ghost predicate Pending(img: Image, L: Layout, img2: Image, s: Slot, more: seq<nat>, c: seq<byte>) {
    var laid := Folded(img, L, s) && Laid(img, L, img2, s, more, c);
    laid && img.g.Ok() && |ChainOf(L, s) + more| == CeilDiv(|c|, img.g.ClusterBytes())
  }

  /** The last step of fat_write_file_at: a longer file gets its size stored in the sector read at the start. */
  method StoreSize(v: Volume, lba: int, idx: nat, buff: Sector, size: u32, newSize: u32, ghost s: Slot)
    requires v.Mounted() && Located(v.g, lba, idx, s.d, s.j) && buff == v.img.region[s.d][s.j / 16]
    requires size == MetaOf(v.img).At(s).size
    modifies v`disk, v`img, v`trace
    ensures v.Mounted() && Closed(old(v.img), v.img, s, if newSize > size then newSize else size)
  {
    if newSize > size {
      WriteBackSize(v, lba, idx, buff, newSize, s);
    }
  }

  /** The account of the clusters after a growing write. */
  ghost function GrownLayout(img: Image, L: Layout, s: Slot, more: seq<nat>, size: u32): Layout {
    NextLayout(MetaOf(img), L, s, MetaOf(img).At(s).(size := size), ChainOf(L, s) + more)
  }

  lemma PendingEntry(img: Image, L: Layout, img2: Image, s: Slot, more: seq<nat>, c: seq<byte>)
    requires Pending(img, L, img2, s, more, c) && img2.Shape()
    ensures s.d < |img.region| == |img2.region| && img2.region[s.d] == img.region[s.d]
    ensures MetaOf(img2).At(s) == MetaOf(img).At(s)
  {
    Unfold(img, L, s);
    LaidEntryOf(img, L, img2, s, more, c);
  }

  lemma PendingDone(img: Image, L: Layout, img2: Image, img': Image, s: Slot, more: seq<nat>, c: seq<byte>, size: u32)
    requires Pending(img, L, img2, s, more, c) && Closed(img2, img', s, size) && size == |c|
    ensures VolumeOk(MetaOf(img'), GrownLayout(img, L, s, more, size))
    ensures Finished(img, L, img', GrownLayout(img, L, s, more, size), s, more, c)
  {
    Unfold(img, L, s);
    ClosedDone(img, L, img2, img', s, more, c, size);
  }

  ghost method FinishGrown(v: Volume, img: Image, L: Layout, img2: Image, img': Image, s: Slot, more: seq<nat>, c: seq<byte>, size: u32)
    requires Pending(img, L, img2, s, more, c) && Closed(img2, img', s, size) && size == |c|
    requires v.Mounted() && v.img == img'
    modifies v`layout
    ensures Sealed(v) && Finished(img, L, img', v.layout, s, more, c)
  {
    PendingDone(img, L, img2, img', s, more, c, size);
    SetLayout(v, GrownLayout(img, L, s, more, size));
  }

  // ---- fat_write_file_at ----

  /** How many clusters a file of `size` bytes must gain to reach `end`. */
  function Extra(size: nat, end: nat, clusterBytes: nat): nat
    requires clusterBytes > 0
  {
    CeilDivMonotone(size, Max(size, end), clusterBytes);
    CeilDiv(Max(size, end), clusterBytes) - CeilDiv(size, clusterBytes)
  }

  lemma ExtraIs(size: nat, end: nat, clusterBytes: nat)
    requires clusterBytes > 0
    ensures Extra(size, end, clusterBytes) == Max(0, CeilDiv(end, clusterBytes) - CeilDiv(size, clusterBytes))
  {
    if end <= size {
      CeilDivMonotone(end, size, clusterBytes);
    } else {
      CeilDivMonotone(size, end, clusterBytes);
    }
  }

  lemma PatchedPrefix(short: seq<byte>, long: seq<byte>, size: nat, offset: nat, src: seq<byte>)
    requires offset <= size <= |short| && short <= long && offset + |src| <= |long|
    ensures Splice(short[..size], offset, src) <= Patch(long, offset, src)
  {
    assert long[..size] == short[..size];
    SpliceOfPrefix(long, size, offset, src);
  }

  /** Patching the longer chain splices the file. */
  lemma PatchLaid(img: Image, L: Layout, img2: Image, s: Slot, more: seq<nat>, offset: nat, src: seq<byte>)
    requires img.Shape() && VolumeOk(MetaOf(img), L) && s in L.chain && !MetaOf(img).At(s).IsDir()
    requires offset <= MetaOf(img).At(s).size
    requires
      var ch := L.chain[s];
      var f := Flat(Sectors(img.region, ch + more));
      && offset + |src| <= |f| && OnlyRegions(img.(fat := img2.fat), img2, ch + more)
      && Flat(Sectors(img2.region, ch + more)) == Patch(f, offset, src)
    ensures |FileBytes(img, L, s)| == MetaOf(img).At(s).size
    ensures Splice(FileBytes(img, L, s), offset, src) <= Flat(Sectors(img2.region, L.chain[s] + more))
  {
    var size, ch := MetaOf(img).At(s).size, L.chain[s];
    FileFacts(img, L, s);
    ChainBytesPrefix(img.region, ch, more);
    PatchedPrefix(Flat(Sectors(img.region, ch)), Flat(Sectors(img.region, ch + more)), size, offset, src);
  }

  /** A file that is about to be grown by spare clusters to hold `total` bytes. */
  ghost predicate CanGrow(img: Image, L: Layout, s: Slot, more: seq<nat>, total: nat) {
    && Folded(img, L, s) && Spare(img.fat, more) && BackedChain(img.g, more) && img.g.Ok()
    && |ChainOf(L, s) + more| == CeilDiv(total, img.g.ClusterBytes())
  }

  lemma GrowthFacts(img: Image, L: Layout, s: Slot, more: seq<nat>)
    requires FileAt(img, L, s) && Spare(img.fat, more) && BackedChain(img.g, more)
    ensures
      var ch, first := ChainOf(L, s), MetaOf(img).At(s).first;
      && (forall c :: c in ch ==> c < |img.fat|) && |img.fat| <= EOC && Chain(GrownTable(img.fat, ch, more), first, ch + more)
      && DataChain(img.g, ch + more)
  {
    FileChain(img, L, s);
    GrownFat(img.fat, MetaOf(img).At(s).first, L.chain[s], more);
    GrownApart(img, L, s, more);
  }

  lemma CanGrowFacts(img: Image, L: Layout, s: Slot, more: seq<nat>, total: nat)
    requires CanGrow(img, L, s, more, total)
    ensures
      var ch, first := ChainOf(L, s), MetaOf(img).At(s).first;
      && ch != [] && (forall c :: c in ch ==> c < |img.fat|) && |img.fat| <= EOC
      && Chain(GrownTable(img.fat, ch, more), first, ch + more)
      && DataChain(img.g, ch + more) && total <= |ch + more| * img.g.ClusterBytes()
  {
    Unfold(img, L, s);
    GrowthFacts(img, L, s, more);
    CeilDivBounds(total, img.g.ClusterBytes());
  }

  lemma PatchFolded(img: Image, L: Layout, img2: Image, s: Slot, more: seq<nat>, offset: nat, src: seq<byte>)
    requires Folded(img, L, s) && offset <= MetaOf(img).At(s).size
    requires
      var ch := ChainOf(L, s);
      var f := Flat(Sectors(img.region, ch + more));
      && offset + |src| <= |f| && OnlyRegions(img.(fat := img2.fat), img2, ch + more)
      && Flat(Sectors(img2.region, ch + more)) == Patch(f, offset, src)
    ensures |FileBytes(img, L, s)| == MetaOf(img).At(s).size
    ensures Splice(FileBytes(img, L, s), offset, src) <= Flat(Sectors(img2.region, ChainOf(L, s) + more))
  {
    Unfold(img, L, s);
    PatchLaid(img, L, img2, s, more, offset, src);
  }

  lemma PatchPending(img: Image, L: Layout, img2: Image, s: Slot, more: seq<nat>, offset: nat, src: seq<byte>, total: nat)
    requires CanGrow(img, L, s, more, total) && offset <= MetaOf(img).At(s).size
    requires total == Max(MetaOf(img).At(s).size, offset + |src|)
    requires
      var ch := ChainOf(L, s);
      var f := Flat(Sectors(img.region, ch + more));
      && img2.fat == GrownTable(img.fat, ch, more)
      && offset + |src| <= |f| && OnlyRegions(img.(fat := img2.fat), img2, ch + more)
      && Flat(Sectors(img2.region, ch + more)) == Patch(f, offset, src)
    ensures |FileBytes(img, L, s)| == MetaOf(img).At(s).size
    ensures Pending(img, L, img2, s, more, Splice(FileBytes(img, L, s), offset, src))
  {
    CanGrowFacts(img, L, s, more, total);
    PatchFolded(img, L, img2, s, more, offset, src);
  }

  method OverwriteGrown(v: Volume, first: u16, offset: nat, src: seq<byte>,
                        ghost img: Image, ghost L: Layout, ghost s: Slot, ghost more: seq<nat>, ghost total: nat)
    requires v.Mounted() && CanGrow(img, L, s, more, total) && first == MetaOf(img).At(s).first && img.g == v.g
    requires total == Max(MetaOf(img).At(s).size, offset + |src|) && offset <= MetaOf(img).At(s).size && |src| > 0
    requires v.img == img.(fat := GrownTable(img.fat, ChainOf(L, s), more))
    modifies v`disk, v`img, v`trace
    ensures v.Mounted() && v.img.fat == old(v.img.fat) && |FileBytes(img, L, s)| == MetaOf(img).At(s).size
    ensures Pending(img, L, v.img, s, more, Splice(FileBytes(img, L, s), offset, src))
  {
    CanGrowFacts(img, L, s, more, total);
    OverwriteAt(v, first, offset, src, ChainOf(L, s) + more);
    PatchPending(img, L, v.img, s, more, offset, src, total);
  }

  lemma FreesOnDisk(img: Image, L: Layout, s: Slot, extra: nat)
    requires Folded(img, L, s) && extra <= FreeCount(img.fat) && Backs(img.g, FreeCount(img.fat), extra)
    ensures BackedChain(img.g, FirstFrees(img.fat, extra))
  {
    Unfold(img, L, s);
    FreesBacked(MetaOf(img), L, extra);
  }

  lemma GrowBySpare(img: Image, L: Layout, s: Slot, extra: nat, total: nat)
    requires Folded(img, L, s) && extra <= FreeCount(img.fat) && img.g.Ok()
    requires extra + |ChainOf(L, s)| == CeilDiv(total, img.g.ClusterBytes()) && Backs(img.g, FreeCount(img.fat), extra)
    ensures CanGrow(img, L, s, FirstFrees(img.fat, extra), total)
  {
    FreesAreFree(img.fat, extra);
    FreesOnDisk(img, L, s, extra);
  }

  lemma GrownByNothing(fat: seq<u16>, ch: seq<nat>)
    ensures 0 <= FreeCount(fat) && GrownTable(fat, ch, FirstFrees(fat, 0)) == fat
  {
  }

  /** Makes room for newSize bytes, if there is any: the part of fat_write_file_at between the checks and the data. */
  method GrowFile(v: Volume, first: u16, size: u32, newSize: u32, ghost img: Image, ghost ch: seq<nat>, ghost extra: nat)
    returns (ok: bool)
    requires v.Mounted() && v.img == img && v.g.Ok() && Chain(img.fat, first, ch) && ch != []
    requires extra == Extra(size, newSize, v.g.ClusterBytes())
    modifies v`disk, v`img, v`trace
    ensures v.Mounted() && (ok <==> extra <= FreeCount(img.fat)) && (!ok ==> v.img == img)
    ensures ok ==> v.img == img.(fat := GrownTable(img.fat, ch, FirstFrees(img.fat, extra)))
  {
    var clusterBytes := v.g.secPerClus * 512;
    var oldClusters := RoundUp(size, clusterBytes);
    var newClusters := RoundUp(newSize, clusterBytes);
    ExtraIs(size, newSize, clusterBytes);
    ok := true;
    if newClusters > oldClusters {
      ok := MakeRoom(v, first, newClusters - oldClusters, ch);
    } else {
      GrownByNothing(img.fat, ch);
    }
  }

  lemma UnfoldFacts(img: Image, L: Layout, s: Slot)
    requires Folded(img, L, s)
    ensures
      var e, ch := MetaOf(img).At(s), ChainOf(L, s);
      && ch != [] && Chain(img.fat, e.first, ch) && img.g.Ok() && |ch| == CeilDiv(e.size, img.g.ClusterBytes())
      && |FileBytes(img, L, s)| == e.size
  {
    Unfold(img, L, s);
    FileChain(img, L, s);
    FileFacts(img, L, s);
  }

  /** fat_write_file_at once its checks have passed and the file has clusters. */
  method WriteInto(v: Volume, lba: int, idx: nat, buff: Sector, first: u16, size: u32, offset: nat, src: seq<byte>, newSize: u32,
                   ghost img: Image, ghost L: Layout, ghost s: Slot, ghost extra: nat)
    returns (code: int)
    requires v.Mounted() && v.img == img && v.layout == L && Folded(img, L, s) && v.g.Ok()
    requires first == MetaOf(img).At(s).first && size == MetaOf(img).At(s).size
    requires Located(v.g, lba, idx, s.d, s.j) && buff == img.region[s.d][s.j / 16]
    requires offset <= size && 0 < |src| && newSize == offset + |src| && extra == Extra(size, newSize, v.g.ClusterBytes())
    requires Backs(v.g, FreeCount(img.fat), extra)
    modifies v
    ensures code == (if extra > FreeCount(img.fat) then FAT_ERR_NO_SPACE else FAT_OK) && |FileBytes(img, L, s)| == size
    ensures code != FAT_OK ==> v.Mounted() && v.img == img && v.layout == L
    ensures code == FAT_OK ==>
      Sealed(v) && Finished(img, L, v.img, v.layout, s, FirstFrees(img.fat, extra), Splice(FileBytes(img, L, s), offset, src))
  {
    UnfoldFacts(img, L, s);
    var ok := GrowFile(v, first, size, newSize, img, ChainOf(L, s), extra);
    if ok {
      GrowBySpare(img, L, s, extra, Max(size, newSize));
      WriteGrown(v, lba, idx, buff, first, size, offset, src, newSize, img, L, s, FirstFrees(img.fat, extra));
      code := FAT_OK;
    } else {
      code := FAT_ERR_NO_SPACE;
    }
  }

  method WriteGrown(v: Volume, lba: int, idx: nat, buff: Sector, first: u16, size: u32, offset: nat, src: seq<byte>, newSize: u32,
                    ghost img: Image, ghost L: Layout, ghost s: Slot, ghost more: seq<nat>)
    requires v.Mounted() && v.layout == L && CanGrow(img, L, s, more, Max(size, newSize)) && img.Shape() && img.g == v.g
    requires first == MetaOf(img).At(s).first && size == MetaOf(img).At(s).size
    requires Located(v.g, lba, idx, s.d, s.j) && buff == img.region[s.d][s.j / 16]
    requires offset <= size && 0 < |src| && newSize == offset + |src|
    requires v.img == img.(fat := GrownTable(img.fat, ChainOf(L, s), more))
    modifies v
    ensures Sealed(v) && |FileBytes(img, L, s)| == size
    ensures Finished(img, L, v.img, v.layout, s, more, Splice(FileBytes(img, L, s), offset, src))
  {
    OverwriteGrown(v, first, offset, src, img, L, s, more, Max(size, newSize));
    ghost var c, img2 := Splice(FileBytes(img, L, s), offset, src), v.img;
    PendingEntry(img, L, img2, s, more, c);
    StoreSize(v, lba, idx, buff, size, newSize, s);
    FinishGrown(v, img, L, img2, v.img, s, more, c, Max(size, newSize));
  }

  /** What a positioned write owes on a file with content c. */
  ghost predicate WritesFileAt(t: Tree, free: nat, g: Geometry, d: nat, n: Name, offset: nat, src: seq<byte>,
                               code: int, t': Tree, free': nat)
    requires g.Ok() && d in t && n in t[d] && t[d][n].File?
  {
    var c := t[d][n].content;
    var extra := Extra(|c|, offset + |src|, g.ClusterBytes());
    var coded := code == (if offset > |c| then FAT_ERR_INVALID else if offset + |src| > MAX_FILE_BYTES then FAT_ERR_TOO_BIG
                          else if extra > free then FAT_ERR_NO_SPACE else FAT_OK);
    var stored := code == FAT_OK && offset <= |c| ==> t' == Put(t, d, n, File(Splice(c, offset, src))) && free' + extra == free;
    coded && stored
  }

  ghost predicate WritesAt(t: Tree, free: nat, g: Geometry, path: Text, offset: nat, src: seq<byte>, code: int, t': Tree, free': nat)
    requires g.Ok()
  {
    if src == [] then code == FAT_OK && t' == t && free' == free
    else
      match Locate(t, path)
      case Failed(c) => code == c
      case Parent(d, n) =>
        if t[d][n].Dir? then code == FAT_ERR_INVALID else WritesFileAt(t, free, g, d, n, offset, src, code, t', free')
  }

  /** The clusters a positioned write takes; none if it fails before it counts them. */
  ghost function WriteAtTakes(t: Tree, g: Geometry, path: Text, offset: nat, len: nat): nat
    requires g.Ok()
  {
    match Locate(t, path)
    case Failed(_) => 0
    case Parent(d, n) =>
      if t[d][n].Dir? || len == 0 || offset > |t[d][n].content| || offset + len > MAX_FILE_BYTES then 0
      else Extra(|t[d][n].content|, offset + len, g.ClusterBytes())
  }

  lemma TakesOnFile(t: Tree, g: Geometry, path: Text, d: nat, n: Name, offset: nat, len: nat)
    requires g.Ok() && Locate(t, path) == Parent(d, n) && t[d][n].File?
    ensures WriteAtTakes(t, g, path, offset, len)
         == if len == 0 || offset > |t[d][n].content| || offset + len > MAX_FILE_BYTES then 0
            else Extra(|t[d][n].content|, offset + len, g.ClusterBytes())
  {
  }

  /** WritesAt, folded. */
  ghost predicate FoldedWritesAt(t: Tree, free: nat, g: Geometry, path: Text, offset: nat, src: seq<byte>, code: int, t': Tree, free': nat)
    requires g.Ok()
  {
    forall k :: Owed(k) ==> WritesAt(t, free, g, path, offset, src, code, t', free')
  }

  lemma WritesOnFile(t: Tree, free: nat, g: Geometry, path: Text, d: nat, n: Name, offset: nat, src: seq<byte>, code: int, t': Tree, free': nat)
    requires g.Ok() && src != [] && Locate(t, path) == Parent(d, n) && t[d][n].File?
    requires WritesFileAt(t, free, g, d, n, offset, src, code, t', free')
    ensures FoldedWritesAt(t, free, g, path, offset, src, code, t', free')
  {
  }

  /** The codes of a positioned write that is refused before it counts clusters. */
  lemma WritesRefused(t: Tree, free: nat, g: Geometry, path: Text, offset: nat, src: seq<byte>, code: int)
    requires g.Ok() && src != [] && code != FAT_OK
    requires
      match Locate(t, path)
      case Failed(c) => code == c
      case Parent(d, n) =>
        if t[d][n].Dir? || offset > |t[d][n].content| then code == FAT_ERR_INVALID
        else offset + |src| > MAX_FILE_BYTES && code == FAT_ERR_TOO_BIG
    ensures FoldedWritesAt(t, free, g, path, offset, src, code, t, free)
  {
  }

  /** On an empty file, a positioned write is a plain one. */
  lemma WriteIsWriteAt(t: Tree, free: nat, g: Geometry, path: Text, src: seq<byte>, code: int, t': Tree, free': nat)
    requires g.Ok() && Writes(t, free, g, path, src, code, t', free') && src != []
    requires Locate(t, path).Parent? && t[Locate(t, path).d][Locate(t, path).leaf] == File([])
    ensures WritesAt(t, free, g, path, 0, src, code, t', free')
  {
    CeilDivZero(0, g.ClusterBytes());
    assert Splice([], 0, src) == src;
  }

  /** What WriteInto does is what the tree is owed. */
  lemma WriteIntoDone(img: Image, L: Layout, img': Image, L': Layout, s: Slot, offset: nat, src: seq<byte>, extra: nat, code: int)
    requires Folded(img, L, s) && img.g.Ok()
    requires |FileBytes(img, L, s)| == MetaOf(img).At(s).size && offset <= MetaOf(img).At(s).size
    requires offset + |src| <= MAX_FILE_BYTES && extra == Extra(MetaOf(img).At(s).size, offset + |src|, img.g.ClusterBytes())
    requires code == if extra > FreeCount(img.fat) then FAT_ERR_NO_SPACE else FAT_OK
    requires code == FAT_OK ==> Finished(img, L, img', L', s, FirstFrees(img.fat, extra), Splice(FileBytes(img, L, s), offset, src))
    ensures
      var t, n := TreeAt(img, L), MetaOf(img).At(s).name;
      && s.d in t && n in t[s.d] && t[s.d][n].File?
      && WritesFileAt(t, FreeCount(img.fat), img.g, s.d, n, offset, src, code, TreeAt(img', L'), FreeCount(img'.fat))
  {
    FoldedInTree(img, L, s);
  }

  lemma FoldedInTree(img: Image, L: Layout, s: Slot)
    requires Folded(img, L, s)
    ensures
      var e, t := MetaOf(img).At(s), TreeAt(img, L);
      s.d in t && e.name in t[s.d] && t[s.d][e.name] == File(FileBytes(img, L, s))
  {
    Unfold(img, L, s);
    FileInTree(img, L, s);
  }

  /** The table and the entry after a write that ends at `end`: the clusters the file took are the first that were free. */
  ghost predicate Stores(img: Image, L: Layout, img': Image, s: Slot, end: nat) {
    var e, n := MetaOf(img).At(s), FreeCount(img.fat) - FreeCount(img'.fat);
    if e.first == 0 then FoldedTable(img, L, img', s, end)
    else
      && 0 <= n <= FreeCount(img.fat) && img'.fat == GrownTable(img.fat, ChainOf(L, s), FirstFrees(img.fat, n))
      && Max(e.size, end) < U32_MOD && MetaOf(img').At(s) == e.(size := Max(e.size, end))
  }

  ghost predicate FoldedStores(img: Image, L: Layout, img': Image, s: Slot, end: nat) {
    forall k :: Owed(k) ==> Stores(img, L, img', s, end)
  }

  /** So it is for the entry a path names. */
  ghost predicate StoresFor(img: Image, L: Layout, img': Image, path: Text, end: nat) {
    forall s :: EntryOf(img, L, path, s) ==> FoldedStores(img, L, img', s, end)
  }

  lemma StoresForAll(img: Image, L: Layout, img': Image, path: Text, s: Slot, end: nat)
    requires img.Shape() && FoldedVolume(img, L) && EntryOf(img, L, path, s) && FoldedStores(img, L, img', s, end)
    ensures StoresFor(img, L, img', path, end)
  {
    UnfoldVolume(img, L);
    forall s' | EntryOf(img, L, path, s') ensures FoldedStores(img, L, img', s', end) {
      EntryUnique(img, L, path, s, s');
    }
  }

  lemma EmptyStores(img: Image, L: Layout, img': Image, s: Slot, end: nat)
    requires MetaOf(img).At(s).first == 0 && FoldedTable(img, L, img', s, end)
    ensures FoldedStores(img, L, img', s, end)
  {
  }

  lemma SpliceLength(c: seq<byte>, offset: nat, src: seq<byte>)
    requires offset <= |c|
    ensures |Splice(c, offset, src)| == Max(|c|, offset + |src|)
  {
  }

  lemma FinishedStores(img: Image, L: Layout, img': Image, L': Layout, s: Slot, offset: nat, src: seq<byte>, extra: nat, end: nat)
    requires end == offset + |src| && img.g.Ok() && MetaOf(img).At(s).first != 0 && |FileBytes(img, L, s)| == MetaOf(img).At(s).size && offset <= MetaOf(img).At(s).size
    requires extra == Extra(MetaOf(img).At(s).size, offset + |src|, img.g.ClusterBytes()) <= FreeCount(img.fat)
    requires Finished(img, L, img', L', s, FirstFrees(img.fat, extra), Splice(FileBytes(img, L, s), offset, src))
    ensures FoldedStores(img, L, img', s, end)
  {
    SpliceLength(FileBytes(img, L, s), offset, src);
  }

  /** A positioned write on a file with clusters, its checks passed. */
  method WriteAtChain(v: Volume, lba: int, idx: nat, e: Entry, buff: Sector, offset: nat, src: seq<byte>, newSize: u32,
                      ghost img: Image, ghost L: Layout, ghost s: Slot)
    returns (code: int)
    requires v.Mounted() && v.img == img && v.layout == L && Folded(img, L, s)
    requires e == MetaOf(img).At(s) && Located(v.g, lba, idx, s.d, s.j) && buff == img.region[s.d][s.j / 16]
    requires e.first != 0 && offset <= e.size && 0 < |src| && newSize == offset + |src| <= MAX_FILE_BYTES
    requires img.g.Ok() && Backs(img.g, FreeCount(img.fat), Extra(e.size, newSize, img.g.ClusterBytes()))
    modifies v
    ensures if code == FAT_OK then Sealed(v) && FoldedStores(img, L, v.img, s, newSize) else v.Mounted() && v.img == img && v.layout == L
    ensures
      var t := TreeAt(img, L);
      && s.d in t && e.name in t[s.d] && t[s.d][e.name].File?
      && WritesFileAt(t, FreeCount(img.fat), img.g, s.d, e.name, offset, src, code, TreeAt(v.img, v.layout), FreeCount(v.img.fat))
    ensures Rooms(v.img, v.layout) == Rooms(img, L)
  {
    ghost var extra := Extra(e.size, newSize, img.g.ClusterBytes());
    code := WriteInto(v, lba, idx, buff, e.first, e.size, offset, src, newSize, img, L, s, extra);
    WriteIntoDone(img, L, v.img, v.layout, s, offset, src, extra, code);
    if code == FAT_OK {
      FinishedStores(img, L, v.img, v.layout, s, offset, src, extra, newSize);
    }
  }

  /** The file of an entry in the tree; without a first cluster it is empty, with one it has clusters. */
  lemma EntryFile(img: Image, L: Layout, s: Slot)
    requires img.Shape() && VolumeOk(MetaOf(img), L) && s in L.chain && !MetaOf(img).At(s).IsDir()
    ensures
      var e, t := MetaOf(img).At(s), TreeAt(img, L);
      && s.d in t && e.name in t[s.d] && t[s.d][e.name].File? && |t[s.d][e.name].content| == e.size
      && (e.first == 0 ==> t[s.d][e.name] == File([])) && (e.first != 0 ==> Folded(img, L, s))
  {
    FileSizeInTree(img, L, s);
    FileChain(img, L, s);
  }

  lemma FoldedEntryFile(img: Image, L: Layout, s: Slot)
    requires img.Shape() && FoldedVolume(img, L) && s in L.chain && !MetaOf(img).At(s).IsDir()
    ensures
      var e, t := MetaOf(img).At(s), TreeAt(img, L);
      && s.d in t && e.name in t[s.d] && t[s.d][e.name].File? && |t[s.d][e.name].content| == e.size
      && (e.first == 0 ==> t[s.d][e.name] == File([])) && (e.first != 0 ==> Folded(img, L, s))
  {
    UnfoldVolume(img, L);
    EntryFile(img, L, s);
  }

  /** The disk has the clusters a write to the file of entry e that ends at `end` takes. */
  ghost predicate GrowthBacked(img: Image, e: Entry, offset: nat, end: nat)
    requires img.g.Ok()
  {
    !e.IsDir() && offset <= e.size && end <= MAX_FILE_BYTES ==> Backs(img.g, FreeCount(img.fat), Extra(e.size, end, img.g.ClusterBytes()))
  }

  lemma BacksHere(img: Image, L: Layout, path: Text, s: Slot, offset: nat, len: nat, end: nat)
    requires img.Shape() && FoldedVolume(img, L) && s in L.chain && Locate(TreeAt(img, L), path) == Parent(s.d, MetaOf(img).At(s).name)
    requires Backs(img.g, FreeCount(img.fat), WriteAtTakes(TreeAt(img, L), img.g, path, offset, len)) && 0 < len && end == offset + len
    ensures GrowthBacked(img, MetaOf(img).At(s), offset, end)
  {
    if !MetaOf(img).At(s).IsDir() {
      FoldedEntryFile(img, L, s);
      TakesOnFile(TreeAt(img, L), img.g, path, s.d, MetaOf(img).At(s).name, offset, len);
    }
  }

  /** A positioned write on an empty file is a plain one. */
  method WriteAtEmpty(v: Volume, path: Text, src: seq<byte>, newSize: u32, ghost img: Image, ghost L: Layout, ghost s: Slot) returns (code: int)
    requires v.Mounted() && FoldedVolume(img, L) && v.img == img && v.layout == L && img.g.Ok() && src != []
    requires EntryOf(img, L, path, s) && MetaOf(img).At(s).first == 0 && newSize == |src|
    requires Backs(img.g, FreeCount(img.fat), CeilDiv(|src|, img.g.ClusterBytes()))
    requires Locate(TreeAt(img, L), path).Parent?
    requires TreeAt(img, L)[Locate(TreeAt(img, L), path).d][Locate(TreeAt(img, L), path).leaf] == File([])
    modifies v
    ensures Sealed(v) && (code != FAT_OK ==> v.img == img && v.layout == L) && (code == FAT_OK ==> FoldedStores(img, L, v.img, s, newSize))
    ensures WritesAt(TreeAt(img, L), FreeCount(img.fat), img.g, path, 0, src, code, TreeAt(v.img, v.layout), FreeCount(v.img.fat))
    ensures Rooms(v.img, v.layout) == Rooms(img, L)
  {
    UnfoldVolume(img, L);
    ghost var release;
    code, release := FatWriteFile(v, path, src);
    if code == FAT_OK {
      EmptyStores(img, L, v.img, s, newSize);
    }
    WriteIsWriteAt(TreeAt(img, L), FreeCount(img.fat), img.g, path, src, code, TreeAt(v.img, v.layout), FreeCount(v.img.fat));
  }

  /** A positioned write on a file, its checks passed. */
  method WriteAtFile(v: Volume, path: Text, lba: int, idx: nat, e: Entry, buff: Sector, offset: nat, src: seq<byte>, newSize: u32,
                     ghost img: Image, ghost L: Layout, ghost s: Slot)
    returns (code: int)
    requires v.Mounted() && FoldedVolume(img, L) && v.img == img && v.layout == L && img.Shape() && s in L.chain && !e.IsDir()
    requires e == MetaOf(img).At(s) && Located(v.g, lba, idx, s.d, s.j) && buff == img.region[s.d][s.j / 16]
    requires Locate(TreeAt(img, L), path) == Parent(s.d, e.name)
    requires offset <= e.size && 0 < |src| && newSize == offset + |src| <= MAX_FILE_BYTES
    requires img.g.Ok() && GrowthBacked(img, e, offset, newSize)
    modifies v
    ensures if code == FAT_OK then Sealed(v) && FoldedStores(img, L, v.img, s, newSize) else v.Mounted() && v.img == img && v.layout == L
    ensures FoldedWritesAt(TreeAt(img, L), FreeCount(img.fat), img.g, path, offset, src, code, TreeAt(v.img, v.layout), FreeCount(v.img.fat))
    ensures Rooms(v.img, v.layout) == Rooms(img, L)
  {
    FoldedEntryFile(img, L, s);
    if e.first == 0 {
      code := WriteAtEmpty(v, path, src, newSize, img, L, s);
    } else {
      code := WriteAtChain(v, lba, idx, e, buff, offset, src, newSize, img, L, s);
      WritesOnFile(TreeAt(img, L), FreeCount(img.fat), img.g, path, s.d, e.name, offset, src, code, TreeAt(v.img, v.layout), FreeCount(v.img.fat));
    }
  }

  /** The 32-bit size check of both growing writes: a sum that wrapped is smaller than its first term. */
  method CheckedSize(start: u32, len: nat) returns (big: bool, newSize: u32)
    requires len < U32_MOD
    ensures big <==> start + len > MAX_FILE_BYTES
    ensures !big ==> newSize == start + len
  {
    var ok;
    ok, newSize := CheckedSum(start, len);
    big := !ok || newSize > MAX_FILE_BYTES;
  }

  /** fat_write_file_at after the entry was found. */
  method WriteAtLocated(v: Volume, path: Text, lba: int, idx: nat, e: Entry, buff: Sector, offset: u32, src: seq<byte>,
                        ghost img: Image, ghost L: Layout, ghost s: Slot, ghost end: nat)
    returns (code: int)
    requires v.Mounted() && FoldedVolume(img, L) && v.img == img && v.layout == L && img.Shape() && s in L.chain
    requires e == MetaOf(img).At(s) && Located(v.g, lba, idx, s.d, s.j) && buff == img.region[s.d][s.j / 16]
    requires Locate(TreeAt(img, L), path) == Parent(s.d, e.name)
    requires e.IsDir() <==> TreeAt(img, L)[s.d][e.name].Dir?
    requires 0 < |src| < U32_MOD && end == offset + |src|
    requires img.g.Ok()
    requires GrowthBacked(img, e, offset, end)
    modifies v
    ensures if code == FAT_OK then Sealed(v) && FoldedStores(img, L, v.img, s, end) else v.Mounted() && v.img == img && v.layout == L
    ensures FoldedWritesAt(TreeAt(img, L), FreeCount(img.fat), img.g, path, offset, src, code, TreeAt(v.img, v.layout), FreeCount(v.img.fat))
    ensures Rooms(v.img, v.layout) == Rooms(img, L)
  {
    var big, newSize := CheckedSize(offset, |src|);
    if e.IsDir() {
      code := FAT_ERR_INVALID;
      WritesRefused(TreeAt(img, L), FreeCount(img.fat), img.g, path, offset, src, code);
    } else {
      FoldedEntryFile(img, L, s);
      if offset > e.size || big {
        code := if offset > e.size then FAT_ERR_INVALID else FAT_ERR_TOO_BIG;
        WritesRefused(TreeAt(img, L), FreeCount(img.fat), img.g, path, offset, src, code);
      } else {
        assert newSize == end;
        code := WriteAtFile(v, path, lba, idx, e, buff, offset, src, newSize, img, L, s);
      }
    }
  }

  /** fat_write_file_at, for a volume that is not looked into. */
  method WriteAtPath(v: Volume, path: Text, offset: u32, src: seq<byte>, ghost img: Image, ghost L: Layout, ghost end: nat) returns (code: int)
    requires Sealed(v) && v.img == img && v.layout == L && img.g.Ok() && 0 < |src| < U32_MOD && end == offset + |src|
    requires Backs(img.g, FreeCount(img.fat), WriteAtTakes(TreeAt(img, L), img.g, path, offset, |src|))
    modifies v
    ensures Sealed(v) && (code != FAT_OK ==> v.img == img && v.layout == L)
    ensures FoldedWritesAt(TreeAt(img, L), FreeCount(img.fat), img.g, path, offset, src, code, TreeAt(v.img, v.layout), FreeCount(v.img.fat))
    ensures code == FAT_OK ==> StoresFor(img, L, v.img, path, end)
    ensures Rooms(v.img, v.layout) == Rooms(img, L)
  {
    var lba, idx, n83, e, buff;
    ghost var s;
    code, lba, idx, n83, e, buff, s := LocateFolded(v, path);
    if code != FAT_OK {
      WritesRefused(TreeAt(img, L), FreeCount(img.fat), img.g, path, offset, src, code);
    } else {
      BacksHere(img, L, path, s, offset, |src|, end);
      code := WriteAtLocated(v, path, lba, idx, e, buff, offset, src, img, L, s, end);
      if code == FAT_OK {
        StoresForAll(img, L, v.img, path, s, end);
      }
    }
  }

  /** fat_write_file_at. */
  method FatWriteFileAt(v: Volume, path: Text, offset: u32, src: seq<byte>) returns (code: int, ghost end: nat)
    requires Valid(v) && v.g.Ok() && |src| < U32_MOD
    requires Backs(v.g, FreeCount(v.img.fat), WriteAtTakes(TreeAt(v.img, v.layout), v.g, path, offset, |src|))
    modifies v
    ensures Valid(v) && v.g.Ok() && (code != FAT_OK ==> v.img == old(v.img) && v.layout == old(v.layout))
    ensures WritesAt(old(TreeAt(v.img, v.layout)), old(FreeCount(v.img.fat)), v.g, path, offset, src, code,
                     TreeAt(v.img, v.layout), FreeCount(v.img.fat))
    ensures end == offset + |src| && (code == FAT_OK && src != [] ==> StoresFor(old(v.img), old(v.layout), v.img, path, end))
    ensures Rooms(v.img, v.layout) == old(Rooms(v.img, v.layout))
  {
    end := offset + |src|;
    code := FAT_OK;
    if |src| > 0 {
      code := WriteAtPath(v, path, offset, src, v.img, v.layout, end);
      UnfoldVolume(v.img, v.layout);
      assert Owed(0);
    }
  }
}
