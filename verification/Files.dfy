/** Reading and replacing whole files. */
module Files {
  import opened Bytes
  import opened Folding
  import opened Disk
  import opened Fat
  import opened Directory
  import opened Names
  import opened WellFormed
  import opened Tree
  import opened FileSystem
  import opened FileData
  import opened Allocation
  import opened ChainIO
  import opened Namespace
  import opened CrashSafety

  const MAX_FILE_BYTES := 8192
  const MAX_CHAIN_CLUSTERS := 16

  /** The bytes of the file of an entry. */
  ghost function FileBytes(img: Image, L: Layout, s: Slot): seq<byte> {
    Content(img.region, ChainOf(L, s), MetaOf(img).At(s).size)
  }

  /** What the entry of a file says about its chain. */
  lemma FileChain(img: Image, L: Layout, s: Slot)
    requires img.Shape() && ReadOk(MetaOf(img), L) && s in L.chain && !MetaOf(img).At(s).IsDir()
    ensures
      var e, ch := MetaOf(img).At(s), L.chain[s];
      && Chain(img.fat, e.first, ch) && DataChain(img.g, ch) && |ch| == CeilDiv(e.size, img.g.ClusterBytes())
      && (e.size == 0 <==> ch == []) && (e.first == 0 <==> ch == [])
  {
    var e, ch := MetaOf(img).At(s), L.chain[s];
    assert EntryOk(MetaOf(img), L, s);
    ChainNoDup(img.fat, e.first, ch);
    CeilDivZero(e.size, img.g.ClusterBytes());
    assert ch != [] ==> 2 <= ch[0];
  }

  /** The chain of a file holds its bytes. */
  lemma FileFacts(img: Image, L: Layout, s: Slot)
    requires img.Shape() && ReadOk(MetaOf(img), L) && s in L.chain && !MetaOf(img).At(s).IsDir()
    ensures
      var e, f := MetaOf(img).At(s), Flat(Sectors(img.region, L.chain[s]));
      e.size <= |f| == |L.chain[s]| * img.g.ClusterBytes() && FileBytes(img, L, s) == f[..e.size]
  {
    FileChain(img, L, s);
    ChainFacts(img, L, s);
  }

  lemma ChainFacts(img: Image, L: Layout, s: Slot)
    requires img.Shape() && s in L.chain && DataChain(img.g, L.chain[s]) && |L.chain[s]| == CeilDiv(MetaOf(img).At(s).size, img.g.ClusterBytes())
    ensures
      var e, f := MetaOf(img).At(s), Flat(Sectors(img.region, L.chain[s]));
      e.size <= |f| == |L.chain[s]| * img.g.ClusterBytes() && FileBytes(img, L, s) == f[..e.size]
  {
    ChainHolds(img, L.chain[s], MetaOf(img).At(s).size);
  }

  lemma ChainHolds(img: Image, ch: seq<nat>, size: nat)
    requires img.Shape() && DataChain(img.g, ch) && |ch| == CeilDiv(size, img.g.ClusterBytes())
    ensures size <= |Flat(Sectors(img.region, ch))| == |ch| * img.g.ClusterBytes()
  {
    DataChainBacked(img, ch);
    FlatLength(img.region, ch, img.g);
    CeilDivBounds(size, img.g.ClusterBytes());
  }

  /** Where a file is in the tree. */
  lemma FileInTree(img: Image, L: Layout, s: Slot)
    requires ReadOk(MetaOf(img), L) && s in L.chain && !MetaOf(img).At(s).IsDir()
    ensures
      var e, t := MetaOf(img).At(s), TreeAt(img, L);
      s.d in t && e.name in t[s.d] && t[s.d][e.name] == File(FileBytes(img, L, s))
  {
    EntryAtTree(img, L, s);
    FileNode(img, L, s, MetaOf(img).At(s));
  }

  // ---- read ----

  datatype ReadResult = ReadResult(ok: bool, bytes: seq<byte>)

  /** Up to len bytes of a file from offset on. */
  function Slice(c: seq<byte>, offset: nat, len: nat): seq<byte> {
    if offset >= |c| then [] else c[offset..offset + Min(len, |c| - offset)]
  }

  ghost function ReadSpec(t: Tree, path: Text, offset: nat, len: nat): ReadResult {
    match Locate(t, path)
    case Failed(_) => ReadResult(false, [])
    case Parent(d, n) =>
      if t[d][n].Dir? then ReadResult(false, []) else ReadResult(true, Slice(t[d][n].content, offset, len))
  }

  lemma SliceOfPrefix(f: seq<byte>, size: nat, offset: nat, len: nat, wanted: nat)
    requires size <= |f| && offset < size && wanted == Min(len, size - offset)
    ensures Slice(f[..size], offset, len) == f[offset..offset + wanted]
  {
  }

  lemma ReadFacts(img: Image, L: Layout, s: Slot, offset: nat, len: nat, wanted: nat)
    requires img.Shape() && ReadOk(MetaOf(img), L) && s in L.chain && !MetaOf(img).At(s).IsDir()
    requires offset < MetaOf(img).At(s).size && wanted == Min(len, MetaOf(img).At(s).size - offset)
    ensures
      var e, ch := MetaOf(img).At(s), L.chain[s];
      && Chain(img.fat, e.first, ch) && DataChain(img.g, ch) && ch != []
      && offset + wanted <= e.size <= |Flat(Sectors(img.region, ch))|
      && Slice(FileBytes(img, L, s), offset, len) == Flat(Sectors(img.region, ch))[offset..offset + wanted]
  {
    FileChain(img, L, s);
    FileFacts(img, L, s);
    SliceOfPrefix(Flat(Sectors(img.region, L.chain[s])), MetaOf(img).At(s).size, offset, len, wanted);
  }

  ghost predicate FoldedRead(img: Image, L: Layout) {
    forall k :: Asked(k) ==> ReadOk(MetaOf(img), L)
  }

  lemma FoldedReadFacts(img: Image, L: Layout, s: Slot, offset: nat, len: nat, wanted: nat)
    requires img.Shape() && FoldedRead(img, L) && s in L.chain && !MetaOf(img).At(s).IsDir()
    requires offset < MetaOf(img).At(s).size && wanted == Min(len, MetaOf(img).At(s).size - offset)
    ensures
      var e, ch := MetaOf(img).At(s), L.chain[s];
      && Chain(img.fat, e.first, ch) && DataChain(img.g, ch) && ch != []
      && offset + wanted <= e.size <= |Flat(Sectors(img.region, ch))|
      && Slice(FileBytes(img, L, s), offset, len) == Flat(Sectors(img.region, ch))[offset..offset + wanted]
  {
    assert Asked(0);
    ReadFacts(img, L, s, offset, len, wanted);
  }

  lemma ReadPastEnd(img: Image, L: Layout, s: Slot, offset: nat, len: nat)
    requires img.Shape() && ReadOk(MetaOf(img), L) && s in L.chain && !MetaOf(img).At(s).IsDir()
    requires offset >= MetaOf(img).At(s).size
    ensures Slice(FileBytes(img, L, s), offset, len) == []
  {
    FileFacts(img, L, s);
  }

  /** The loops of fat_read_file_at on an entry's chain. */
  method ReadWithin(v: Volume, first: u16, size: u32, offset: nat, len: nat, ghost s: Slot) returns (dst: seq<byte>)
    requires v.Readable() && FoldedRead(v.img, v.layout) && s in v.layout.chain && !MetaOf(v.img).At(s).IsDir()
    requires first == MetaOf(v.img).At(s).first && size == MetaOf(v.img).At(s).size
    requires offset < size
    ensures dst == Slice(FileBytes(v.img, v.layout, s), offset, len)
  {
    var available := size - offset;
    var wanted := if len < available then len else available;
    FoldedReadFacts(v.img, v.layout, s, offset, len, wanted);
    dst := ReadChain(v, first, offset, wanted, size, v.layout.chain[s]);
  }

  /** The part of fat_read_file_at after the entry was found to be a file. */
  method ReadEntryBytes(v: Volume, e: Entry, offset: nat, len: nat, ghost s: Slot) returns (dst: seq<byte>)
    requires ReadValid(v) && s in v.layout.chain && e == MetaOf(v.img).At(s) && !e.IsDir()
    ensures dst == Slice(FileBytes(v.img, v.layout, s), offset, len)
  {
    if offset >= e.size {
      ReadPastEnd(v.img, v.layout, s, offset, len);
      dst := [];
    } else {
      dst := ReadWithin(v, e.first, e.size, offset, len, s);
    }
  }

  /** fat_read_file_at. */
  method FatReadFileAt(v: Volume, path: Text, offset: u32, len: u32) returns (ok: bool, dst: seq<byte>)
    requires ReadValid(v)
    ensures ReadResult(ok, dst) == ReadSpec(TreeAt(v.img, v.layout), path, offset, len)
  {
    dst := [];
    var code, lba, idx, n83, e, buff, s := LocateEntry(v, path);
    if code != FAT_OK {
      return false, dst;
    }
    if e.IsDir() {
      return false, dst;
    }
    FileInTree(v.img, v.layout, s);
    dst := ReadEntryBytes(v, e, offset, len, s);
    ok := true;
  }

  // ---- replace ----

  /** fat_write_file: src becomes the content if the new chain fits beside the old one. */
  ghost predicate Writes(t: Tree, free: nat, g: Geometry, path: Text, src: seq<byte>, code: int, t': Tree, free': nat)
    requires g.Ok()
  {
    match Locate(t, path)
    case Failed(c) => code == c
    case Parent(d, n) =>
      var needed := CeilDiv(|src|, g.ClusterBytes());
      && code == (if |src| > MAX_FILE_BYTES then FAT_ERR_TOO_BIG else if t[d][n].Dir? then FAT_ERR_INVALID
                  else if needed > free then FAT_ERR_NO_SPACE else FAT_OK)
      && (code == FAT_OK ==>
            t' == Put(t, d, n, File(src)) && free' + needed == free + CeilDiv(|t[d][n].content|, g.ClusterBytes()))
  }

  lemma LinkedChain(fat: seq<u16>, fat': seq<u16>, ch: seq<nat>)
    requires ch != [] && LinkedTo(fat, fat', ch, |ch| - 1) && Spare(fat, ch)
    ensures Chain(fat', ch[0], ch)
  {
    assert forall i :: 0 <= i < |ch| ==> ch[i] in ch;
  }

  /** A chain that shares no slot with ch is still there after ch was linked. */
  lemma ApartChain(fat: seq<u16>, fat': seq<u16>, first: nat, was: seq<nat>, ch: seq<nat>)
    requires Chain(fat, first, was) && Spare(fat, ch) && |fat'| == |fat|
    requires forall c :: 0 <= c < |fat| && c !in ch ==> fat'[c] == fat[c]
    ensures Chain(fat', first, was) && forall c :: c in was ==> c !in ch
  {
    forall c | c in was ensures c !in ch && c < |fat| && fat'[c] == fat[c] {
      ChainInUse(fat, first, was, c);
    }
    assert forall i :: 0 <= i < |was| ==> was[i] in was;
  }

  /** The table after fat_write_file: the new chain is linked, the old one released. */
  lemma ReplaceFat(fat: seq<u16>, fat1: seq<u16>, first: nat, was: seq<nat>, ch: seq<nat>)
    requires InRange(fat) && Chain(fat, first, was) && ch != [] && Spare(fat, ch) && LinkedTo(fat, fat1, ch, |ch| - 1)
    ensures InRange(fat1) && Chain(fat1, first, was)
    ensures FatStep(fat, Zeroed(fat1, was), was, ch) && Chain(Zeroed(fat1, was), ch[0], ch)
  {
    ApartChain(fat, fat1, first, was, ch);
    LinkedChain(fat, fat1, ch);
    assert forall i :: 0 <= i < |ch| ==> ch[i] in ch && ch[i] !in was;
    forall c | 2 <= c < |fat1| ensures fat1[c] < |fat1| || fat1[c] >= EOC {
      if c in ch {
        var i :| 0 <= i < |ch| && ch[i] == c;
        assert i < |ch| - 1 ==> ch[i + 1] in ch;
      }
    }
    forall c | c in was ensures c < |fat| {
      ChainInUse(fat, first, was, c);
    }
  }

  lemma DirOkReplace(es: seq<Entry>, j: nat, e: Entry)
    requires DirOk(es) && j < |es| && es[j].Visible() && e.Visible() && e.name == es[j].name
    ensures DirOk(es[j := e])
  {
    NoEndBefore(es, j);
    UniqueName(es, j);
    DirOkUpdate(es, j, e);
  }

  lemma SpareNotDir(m: Meta, L: Layout, ch: seq<nat>, d: nat)
    requires VolumeOk(m, L) && Spare(m.fat, ch) && d in L.rank
    ensures d !in ch
  {
    DirInUse(m, L, d);
  }

  /** The steps of a replacement: ch is claimed, linked and filled (img1), then the old chain is released and the
      entry rewritten (img'). */
  ghost predicate Replaced(img: Image, L: Layout, img1: Image, img': Image, s: Slot, e: Entry, ch: seq<nat>) {
    var taken := ch != [] && Spare(img.fat, ch) && BackedChain(img.g, ch) && LinkedTo(img.fat, img1.fat, ch, |ch| - 1);
    var filled := OnlyRegions(img.(fat := img1.fat), img1, ch);
    var entered := EntrySet(img1.(fat := Zeroed(img1.fat, ChainOf(L, s))), img', s.d, s.j, e);
    taken && filled && entered
  }

  lemma ReplaceRegions(img: Image, L: Layout, img1: Image, img': Image, s: Slot, e: Entry, ch: seq<nat>)
    requires Replaced(img, L, img1, img', s, e, ch) && s.d !in ch && s.d < |img.region|
    ensures img'.Shape() && img'.g == img.g && img'.fat == Zeroed(img1.fat, ChainOf(L, s))
    ensures RegionStep(img.region, img'.region, s.d, ChainOf(L, s), ch)
    ensures DirOf(img'.region[s.d]) == DirOf(img.region[s.d])[s.j := e]
    ensures Sectors(img'.region, ch) == Sectors(img1.region, ch)
  {
    assert forall i :: 0 <= i < |ch| ==> ch[i] in ch;
    SectorsSame(img1.region, img'.region, ch);
  }

  lemma ReplaceChanged(img: Image, L: Layout, img1: Image, img': Image, s: Slot, e: Entry, ch: seq<nat>)
    requires img.Shape() && VolumeOk(MetaOf(img), L) && s in L.chain && !MetaOf(img).At(s).IsDir()
    requires Replaced(img, L, img1, img', s, e, ch)
    requires e.Owns() && !e.IsDir() && e.name == MetaOf(img).At(s).name
    requires e.first == ch[0] && |ch| == CeilDiv(e.size, img.g.ClusterBytes())
    ensures Changed(img, L, img', s, e, ch)
  {
    var m, was := MetaOf(img), L.chain[s];
    DirRegion(img, L, s.d);
    FileChain(img, L, s);
    VolumeInRange(m, L);
    ReplaceFat(img.fat, img1.fat, m.At(s).first, was, ch);
    SpareNotDir(m, L, ch, s.d);
    ReplaceRegions(img, L, img1, img', s, e, ch);
    DirOkReplace(DirOf(img.region[s.d]), s.j, e);
  }

  lemma PrefixContent(region: seq<seq<Sector>>, ch: seq<nat>, src: seq<byte>)
    requires src <= Flat(Sectors(region, ch))
    ensures Content(region, ch, |src|) == src
  {
  }

  lemma ReplaceDone(img: Image, L: Layout, img1: Image, img': Image, s: Slot, e: Entry, ch: seq<nat>, src: seq<byte>)
    requires img.Shape() && VolumeOk(MetaOf(img), L) && s in L.chain && !MetaOf(img).At(s).IsDir()
    requires Replaced(img, L, img1, img', s, e, ch)
    requires e.attr == ATTR_FILE && UserName(e.name) && e.name == MetaOf(img).At(s).name
    requires e.first == ch[0] && e.size == |src| && |ch| == CeilDiv(|src|, img.g.ClusterBytes())
    requires src <= Flat(Sectors(img1.region, ch))
    ensures
      var L' := NextLayout(MetaOf(img), L, s, e, ch);
      && VolumeOk(MetaOf(img'), L') && s.d in TreeAt(img, L)
      && TreeAt(img', L') == Put(TreeAt(img, L), s.d, e.name, File(src))
      && FreeCount(img'.fat) + |ch| == FreeCount(img.fat) + |L.chain[s]|
      && Rooms(img', L') == Rooms(img, L)
  {
    FileEntryOwns(e);
    ReplaceChanged(img, L, img1, img', s, e, ch);
    CommitFile(img, L, img', s, e, ch);
    RoomKept(img, L, img', s, e, ch);
    SpareNotDir(MetaOf(img), L, ch, s.d);
    DirRegion(img, L, s.d);
    ReplaceRegions(img, L, img1, img', s, e, ch);
    PrefixContent(img'.region, ch, src);
  }

  lemma FoldedReplaceDone(img: Image, L: Layout, img1: Image, img': Image, s: Slot, e: Entry, ch: seq<nat>, src: seq<byte>)
    requires img.Shape() && FoldedVolume(img, L) && s in L.chain && !MetaOf(img).At(s).IsDir()
    requires Replaced(img, L, img1, img', s, e, ch)
    requires e.attr == ATTR_FILE && UserName(e.name) && e.name == MetaOf(img).At(s).name
    requires e.first == ch[0] && e.size == |src| && |ch| == CeilDiv(|src|, img.g.ClusterBytes())
    requires src <= Flat(Sectors(img1.region, ch))
    ensures
      var L' := NextLayout(MetaOf(img), L, s, e, ch);
      && FoldedVolume(img', L') && s.d in TreeAt(img, L)
      && TreeAt(img', L') == Put(TreeAt(img, L), s.d, e.name, File(src))
      && FreeCount(img'.fat) + |ch| == FreeCount(img.fat) + |L.chain[s]|
      && Rooms(img', L') == Rooms(img, L)
  {
    UnfoldVolume(img, L);
    ReplaceDone(img, L, img1, img', s, e, ch, src);
  }

  lemma OldChain(img: Image, L: Layout, s: Slot)
    requires img.Shape() && FoldedVolume(img, L) && s in L.chain && !MetaOf(img).At(s).IsDir()
    ensures InRange(img.fat) && Chain(img.fat, MetaOf(img).At(s).first, L.chain[s])
  {
    UnfoldVolume(img, L);
    FileChain(img, L, s);
    VolumeInRange(MetaOf(img), L);
  }

  lemma TruncateDone(img: Image, L: Layout, img': Image, s: Slot, e: Entry)
    requires img.Shape() && VolumeOk(MetaOf(img), L) && s in L.chain && !MetaOf(img).At(s).IsDir()
    requires EntrySet(img.(fat := Zeroed(img.fat, L.chain[s])), img', s.d, s.j, e)
    requires e.attr == ATTR_FILE && UserName(e.name) && e.name == MetaOf(img).At(s).name && e.first == 0 && e.size == 0
    ensures
      var L' := NextLayout(MetaOf(img), L, s, e, []);
      && VolumeOk(MetaOf(img'), L') && s.d in TreeAt(img, L)
      && TreeAt(img', L') == Put(TreeAt(img, L), s.d, e.name, File([]))
      && FreeCount(img'.fat) == FreeCount(img.fat) + |L.chain[s]|
      && Rooms(img', L') == Rooms(img, L)
  {
    FileEntryOwns(e);
    DirRegion(img, L, s.d);
    FileChain(img, L, s);
    forall c | c in L.chain[s] ensures c < |img.fat| {
      ChainInUse(img.fat, MetaOf(img).At(s).first, L.chain[s], c);
    }
    ZeroedFatStep(img.fat, L.chain[s]);
    DirOkReplace(DirOf(img.region[s.d]), s.j, e);
    CeilDivZero(e.size, img.g.ClusterBytes());
    EntryChanged(img, L, img', s, e, []);
    CommitFile(img, L, img', s, e, []);
    RoomKept(img, L, img', s, e, []);
    assert Content(img'.region, [], 0) == [];
  }

  lemma FilledSpares(img: Image, img1: Image, b: Image, ch: seq<nat>)
    requires Spares(img.fat, img, img1) && Spare(img.fat, ch) && b.Shape() && OnlyRegions(img1, b, ch)
    ensures Spares(img.fat, img, b)
  {
  }

  /** Data written to claimed clusters keeps the trace harmless. */
  lemma FilledTrace(img: Image, img1: Image, base: seq<seq<Sector>>, trace1: seq<seq<Sector>>, trace2: seq<seq<Sector>>, ch: seq<nat>)
    requires TraceSpares(img.fat, img, base, trace1) && Spares(img.fat, img, img1) && Spare(img.fat, ch)
    requires TraceRegions(img1, trace1, trace2, ch)
    ensures TraceSpares(img.fat, img, base, trace2)
  {
    forall k | |base| <= k < |trace2| ensures DiskSpares(img.fat, img, trace2[k]) {
      if k < |trace1| {
        assert trace2[k] == trace1[k];
      } else {
        assert DiskRegions(img1, trace2[k], ch);
        var b :| Shows(trace2[k], b) && OnlyRegions(img1, b, ch);
        FilledSpares(img, img1, b, ch);
      }
    }
  }

  /** Claims, links and fills a fresh chain for src; without space nothing changes. Every disk on the way shows an image
      that differs from the first one only in slots that were free and in their clusters. */
  method BuildChain(v: Volume, needed: nat, src: seq<byte>) returns (ok: bool, chain: seq<nat>)
    requires v.Mounted() && 0 < needed && |src| <= needed * v.g.ClusterBytes()
    requires needed <= FreeCount(v.img.fat) ==> BackedChain(v.g, FirstFrees(v.img.fat, needed))
    modifies v`disk, v`img, v`trace
    ensures v.Mounted() && (ok <==> needed <= old(FreeCount(v.img.fat)))
    ensures !ok ==> v.img == old(v.img)
    ensures ok ==>
      && chain == FirstFrees(old(v.img.fat), needed) && Spare(old(v.img.fat), chain) && LinkedTo(old(v.img.fat), v.img.fat, chain, |chain| - 1)
      && OnlyRegions(old(v.img).(fat := v.img.fat), v.img, chain) && src <= Flat(Sectors(v.img.region, chain))
      && Spares(old(v.img.fat), old(v.img), v.img)
    ensures TraceSpares(old(v.img.fat), old(v.img), old(v.trace), v.trace)
  {
    ghost var img, base := v.img, v.trace;
    ok, chain := ClaimClusters(v, needed);
    if ok {
      FreesAreFree(img.fat, needed);
      LinkClusters(v, chain, img, base);
      assert forall i :: 0 <= i < |chain| ==> chain[i] in chain;
      ghost var img1, trace1 := v.img, v.trace;
      LinkedSpares(img, img1, chain, |chain| - 1);
      FillChain(v, chain, src);
      FilledTrace(img, img1, base, trace1, v.trace, chain);
      FilledSpares(img, img1, v.img, chain);
    }
  }

  /** free_chain of the old chain of an entry while a new one is already linked. */
  method ReleaseOld(v: Volume, first: u16, ghost fat: seq<u16>, ghost was: seq<nat>, ghost ch: seq<nat>)
    requires v.Mounted() && InRange(fat) && Chain(fat, first, was) && ch != [] && Spare(fat, ch)
    requires LinkedTo(fat, v.img.fat, ch, |ch| - 1)
    modifies v`disk, v`img, v`trace
    ensures v.Mounted() && v.img == old(v.img).(fat := Zeroed(old(v.img.fat), was))
    ensures old(v.trace) <= v.trace && |v.trace| == |old(v.trace)| + |was| * v.g.numFats
    ensures was != [] ==> Cleared(v.trace, |old(v.trace)|, old(v.img), first)
  {
    ReplaceFat(fat, v.img.fat, first, was, ch);
    FreeWalkChain(v.img.fat, first, was);
    FreeChain(v, first);
  }

  /** The writes that free a chain of so many links in every FAT copy, from the first link on, and one more, which left
      this disk. */
  ghost predicate Swapped(base: seq<seq<Sector>>, trace: seq<seq<Sector>>, disk: seq<Sector>, img: Image, first: nat, links: nat) {
    && base <= trace && |trace| == |base| + links * img.g.numFats + 1 && trace[|trace| - 1] == disk
    && (links > 0 ==> Cleared(trace, |base|, img, first))
  }

  /** free_chain of the old chain and dir_write_entry of the new one. */
  method SwapChains(v: Volume, lba: int, idx: nat, n83: Name, first: u16, chain: seq<nat>, size: u32,
                    ghost img: Image, ghost L: Layout, ghost s: Slot)
    requires v.Mounted() && InRange(img.fat) && Chain(img.fat, first, ChainOf(L, s)) && Located(v.g, lba, idx, s.d, s.j)
    requires chain != [] && chain[0] < 0x1_0000 && Spare(img.fat, chain) && img.g == v.g && BackedChain(v.g, chain) && LinkedTo(img.fat, v.img.fat, chain, |chain| - 1)
    requires OnlyRegions(img.(fat := v.img.fat), v.img, chain)
    modifies v`disk, v`img, v`trace
    ensures v.Mounted() && Replaced(img, L, old(v.img), v.img, s, Entry(n83, ATTR_FILE, NO_RESERVED, chain[0], size), chain)
    ensures Swapped(old(v.trace), v.trace, v.disk, old(v.img), first, |ChainOf(L, s)|)
  {
    ghost var img1 := v.img;
    ReleaseOld(v, first, img.fat, ChainOf(L, s), chain);
    assert v.img == img1.(fat := Zeroed(img1.fat, ChainOf(L, s)));
    DirWriteEntry(v, lba, idx, n83, chain[0], size, ATTR_FILE, s.d, s.j);
  }

  /** The end of fat_write_file: with the new chain in place since `img`, release the old one and rewrite the entry. */
  method InstallChain(v: Volume, lba: int, idx: nat, n83: Name, first: u16, chain: seq<nat>, src: seq<byte>,
                      ghost img: Image, ghost L: Layout, ghost s: Slot)
    requires v.Mounted() && img.Shape() && FoldedVolume(img, L) && s in L.chain && img.g == v.g
    requires Located(v.g, lba, idx, s.d, s.j)
    requires !MetaOf(img).At(s).IsDir() && MetaOf(img).At(s).first == first && MetaOf(img).At(s).name == n83 && UserName(n83)
    requires chain != [] && |chain| == CeilDiv(|src|, v.g.ClusterBytes()) && |src| <= MAX_FILE_BYTES
    requires Spare(img.fat, chain) && BackedChain(v.g, chain) && LinkedTo(img.fat, v.img.fat, chain, |chain| - 1)
    requires OnlyRegions(img.(fat := v.img.fat), v.img, chain) && src <= Flat(Sectors(v.img.region, chain))
    modifies v
    ensures Sealed(v) && s.d in TreeAt(img, L)
    ensures TreeAt(v.img, v.layout) == Put(TreeAt(img, L), s.d, n83, File(src))
    ensures FreeCount(v.img.fat) + |chain| == FreeCount(img.fat) + |L.chain[s]|
    ensures Rooms(v.img, v.layout) == Rooms(img, L)
    ensures Swapped(old(v.trace), v.trace, v.disk, old(v.img), first, |ChainOf(L, s)|)
    ensures Replaced(img, L, old(v.img), v.img, s, Entry(n83, ATTR_FILE, NO_RESERVED, chain[0], |src|), chain)
  {
    ghost var img1 := v.img;
    assert chain[0] in chain;
    ghost var e := Entry(n83, ATTR_FILE, NO_RESERVED, chain[0], |src|);
    OldChain(img, L, s);
    SwapChains(v, lba, idx, n83, first, chain, |src|, img, L, s);
    FoldedReplaceDone(img, L, img1, v.img, s, e, chain, src);
    SetSealed(v, NextLayout(MetaOf(img), L, s, e, chain));
  }

  /** The table and the entry a replacement leaves: the first free slots hold the new chain, those of the old one are free. */
  ghost predicate ReplacedTable(img: Image, L: Layout, img': Image, s: Slot, size: nat) {
    && img.g.Ok() && 0 < size < U32_MOD && 0 < CeilDiv(size, img.g.ClusterBytes()) <= FreeCount(img.fat)
    && var ch := FirstFrees(img.fat, CeilDiv(size, img.g.ClusterBytes()));
    && LinkedTo(Zeroed(img.fat, ChainOf(L, s)), img'.fat, ch, |ch| - 1)
    && ch[0] < 0x1_0000 && MetaOf(img').At(s) == Entry(MetaOf(img).At(s).name, ATTR_FILE, NO_RESERVED, ch[0], size)
  }

  ghost predicate FoldedTable(img: Image, L: Layout, img': Image, s: Slot, size: nat) {
    forall k :: Owed(k) ==> ReplacedTable(img, L, img', s, size)
  }

  /** So it is for the entry a path names. */
  ghost predicate TableFor(img: Image, L: Layout, img': Image, path: Text, size: nat) {
    forall s :: EntryOf(img, L, path, s) ==> FoldedTable(img, L, img', s, size)
  }

  lemma TableForAll(img: Image, L: Layout, img': Image, path: Text, s: Slot, size: nat)
    requires img.Shape() && FoldedVolume(img, L) && EntryOf(img, L, path, s) && FoldedTable(img, L, img', s, size)
    ensures TableFor(img, L, img', path, size)
  {
    UnfoldVolume(img, L);
    forall s' | EntryOf(img, L, path, s') ensures FoldedTable(img, L, img', s', size) {
      EntryUnique(img, L, path, s, s');
    }
  }

  lemma ReplacedLinks(fat: seq<u16>, fat1: seq<u16>, first: nat, was: seq<nat>, ch: seq<nat>)
    requires Chain(fat, first, was) && ch != [] && Spare(fat, ch) && LinkedTo(fat, fat1, ch, |ch| - 1)
    ensures LinkedTo(Zeroed(fat, was), Zeroed(fat1, was), ch, |ch| - 1)
  {
    ApartChain(fat, fat1, first, was, ch);
    assert forall i :: 0 <= i < |ch| ==> ch[i] in ch;
  }

  lemma ReplacedIsTable(img: Image, L: Layout, img1: Image, img': Image, s: Slot, n83: Name, size: nat, ch: seq<nat>)
    requires img.g.Ok() && 0 < size < U32_MOD && 0 < CeilDiv(size, img.g.ClusterBytes()) <= FreeCount(img.fat)
    requires ch == FirstFrees(img.fat, CeilDiv(size, img.g.ClusterBytes())) && ch[0] < 0x1_0000 && n83 == MetaOf(img).At(s).name
    requires Replaced(img, L, img1, img', s, Entry(n83, ATTR_FILE, NO_RESERVED, ch[0], size), ch)
    requires Chain(img.fat, MetaOf(img).At(s).first, ChainOf(L, s))
    ensures FoldedTable(img, L, img', s, size)
  {
    ReplacedLinks(img.fat, img1.fat, MetaOf(img).At(s).first, ChainOf(L, s), ch);
  }

  /** A file no larger than MAX_FILE_BYTES takes no more clusters than it has sectors. */
  lemma NeededFits(len: nat, clusterBytes: nat)
    requires len <= MAX_FILE_BYTES && 512 <= clusterBytes
    ensures CeilDiv(len, clusterBytes) <= MAX_CHAIN_CLUSTERS
  {
    CeilDivBounds(len, clusterBytes);
    if CeilDiv(len, clusterBytes) > MAX_CHAIN_CLUSTERS {
      MulLe(MAX_CHAIN_CLUSTERS, CeilDiv(len, clusterBytes) - 1, clusterBytes);
    }
  }

  /** Until position `release` of the trace a crash loses nothing. From there on come the writes that free the `links` links
      of the old chain in every FAT copy, the first of which leaves a disk that reads as no tree, and the directory sector. */
  ghost predicate Released(g: Geometry, t: Tree, base: seq<seq<Sector>>, trace: seq<seq<Sector>>, disk: seq<Sector>,
                           release: nat, code: int, links: nat) {
    && SafeUntil(g, t, base, trace, release) && |trace| == release + (if code == FAT_OK then links * g.numFats + 1 else 0)
    && (code == FAT_OK ==> |trace| > 0 && trace[|trace| - 1] == disk)
    && (code == FAT_OK && links > 0 ==> release < |trace| && Unreadable(g, trace[release]))
  }

  /** The disk after the first link of the old chain was cleared. */
  lemma FoldedTorn(img: Image, L: Layout, img1: Image, s: Slot, trace: seq<seq<Sector>>, k: nat)
    requires img.Shape() && FoldedVolume(img, L) && s in L.chain && !MetaOf(img).At(s).IsDir() && L.chain[s] != []
    requires Spares(img.fat, img, img1) && Cleared(trace, k, img1, MetaOf(img).At(s).first)
    ensures Unreadable(img.g, trace[k])
  {
    UnfoldVolume(img, L);
    FileFacts(img, L, s);
    FileChain(img, L, s);
    CeilDivZero(MetaOf(img).At(s).size, img.g.ClusterBytes());
    UnfoldShows(trace[k], img1.WithFat(MetaOf(img).At(s).first, 0));
    TornDisk(img, L, img1, s, trace[k]);
  }

  /** Such a write is atomic if and only if it fails or there was no chain to free. */
  lemma ReleasedAtomic(v: Volume, t: Tree, base: seq<seq<Sector>>, release: nat, code: int, links: nat)
    requires Valid(v) && v.g.Ok() && Released(v.g, t, base, v.trace, v.disk, release, code, links)
    ensures Atomic(v.g, t, TreeAt(v.img, v.layout), base, v.trace) <==> code != FAT_OK || links == 0
  {
    ValidReads(v);
    if code == FAT_OK && links > 0 {
      TornNotAtomic(v.g, t, TreeAt(v.img, v.layout), base, v.trace, release);
    } else {
      LastAtomic(v.g, t, TreeAt(v.img, v.layout), base, v.trace, release);
    }
  }

  lemma FoldedSafe(img: Image, L: Layout, base: seq<seq<Sector>>, trace: seq<seq<Sector>>, later: seq<seq<Sector>>)
    requires img.Shape() && FoldedVolume(img, L) && TraceSpares(img.fat, img, base, trace) && trace <= later
    ensures SafeUntil(img.g, TreeAt(img, L), base, later, |trace|)
  {
    UnfoldVolume(img, L);
    TraceSafe(img, L, base, trace, later);
  }

  /** The first n free clusters are on the disk. */
  lemma FoldedBacked(img: Image, L: Layout, n: nat)
    requires FoldedVolume(img, L) && Backs(img.g, FreeCount(img.fat), n)
    ensures n <= FreeCount(img.fat) ==> BackedChain(img.g, FirstFrees(img.fat, n))
  {
    if n <= FreeCount(img.fat) {
      UnfoldVolume(img, L);
      FreesBacked(MetaOf(img), L, n);
    }
  }

  /** The part of fat_write_file after the checks, for a non-empty src. */
  method ReplaceFile(v: Volume, lba: int, idx: nat, n83: Name, first: u16, src: seq<byte>, ghost img: Image, ghost L: Layout, ghost s: Slot)
    returns (code: int, ghost release: nat)
    requires v.Mounted() && v.img == img && v.layout == L && FoldedVolume(img, L) && s in L.chain && Located(v.g, lba, idx, s.d, s.j)
    requires !MetaOf(img).At(s).IsDir() && MetaOf(img).At(s).first == first
    requires MetaOf(img).At(s).name == n83 && UserName(n83) && 0 < |src| <= MAX_FILE_BYTES && v.g.Ok()
    requires Backs(v.g, FreeCount(img.fat), CeilDiv(|src|, v.g.ClusterBytes()))
    modifies v
    ensures code == if CeilDiv(|src|, v.g.ClusterBytes()) > FreeCount(img.fat) then FAT_ERR_NO_SPACE else FAT_OK
    ensures code != FAT_OK ==> v.Mounted() && v.img == img && v.layout == L
    ensures code == FAT_OK ==>
      && Sealed(v) && s.d in TreeAt(img, L)
      && TreeAt(v.img, v.layout) == Put(TreeAt(img, L), s.d, n83, File(src))
      && FreeCount(v.img.fat) + CeilDiv(|src|, v.g.ClusterBytes()) == FreeCount(img.fat) + |L.chain[s]|
    ensures Rooms(v.img, v.layout) == Rooms(img, L)
    ensures Released(v.g, TreeAt(img, L), old(v.trace), v.trace, v.disk, release, code, |L.chain[s]|)
    ensures code == FAT_OK ==> FoldedTable(img, L, v.img, s, |src|)
  {
    var clusterBytes := v.g.secPerClus * 512;
    var needed := RoundUp(|src|, clusterBytes);
    CeilDivBounds(|src|, clusterBytes);
    CeilDivZero(|src|, clusterBytes);
    assert needed <= MAX_CHAIN_CLUSTERS by { // the source's second check of the size is not reached
      MulLe(1, v.g.secPerClus, 512);
      NeededFits(|src|, clusterBytes);
    }
    FoldedBacked(img, L, needed);
    var ok, chain := BuildChain(v, needed, src);
    ghost var built := v.trace;
    release := |built|;
    if ok {
      ghost var img1 := v.img;
      InstallChain(v, lba, idx, n83, first, chain, src, img, L, s);
      OldChain(img, L, s);
      ReplacedIsTable(img, L, img1, v.img, s, n83, |src|, chain);
      if L.chain[s] != [] {
        FoldedTorn(img, L, img1, s, v.trace, release);
      }
      code := FAT_OK;
    } else {
      code := FAT_ERR_NO_SPACE;
    }
    FoldedSafe(img, L, old(v.trace), built, v.trace);
  }

  /** free_chain of an entry's chain and dir_write_entry of an empty file. */
  method DropChain(v: Volume, lba: int, idx: nat, n83: Name, first: u16, ghost s: Slot, ghost ch: seq<nat>)
    requires v.Mounted() && InRange(v.img.fat) && Chain(v.img.fat, first, ch) && Located(v.g, lba, idx, s.d, s.j)
    modifies v`disk, v`img, v`trace
    ensures v.Mounted()
    ensures EntrySet(old(v.img).(fat := Zeroed(old(v.img.fat), ch)), v.img, s.d, s.j, Entry(n83, ATTR_FILE, NO_RESERVED, 0, 0))
    ensures Swapped(old(v.trace), v.trace, v.disk, old(v.img), first, |ch|)
  {
    FreeWalkChain(v.img.fat, first, ch);
    FreeChain(v, first);
    assert v.img == old(v.img).(fat := Zeroed(old(v.img.fat), ch));
    DirWriteEntry(v, lba, idx, n83, 0, 0, ATTR_FILE, s.d, s.j);
  }

  lemma FoldedTruncateDone(img: Image, L: Layout, img': Image, s: Slot, e: Entry)
    requires img.Shape() && FoldedVolume(img, L) && s in L.chain && !MetaOf(img).At(s).IsDir()
    requires EntrySet(img.(fat := Zeroed(img.fat, L.chain[s])), img', s.d, s.j, e)
    requires e.attr == ATTR_FILE && UserName(e.name) && e.name == MetaOf(img).At(s).name && e.first == 0 && e.size == 0
    ensures
      var L' := NextLayout(MetaOf(img), L, s, e, []);
      && FoldedVolume(img', L') && s.d in TreeAt(img, L)
      && TreeAt(img', L') == Put(TreeAt(img, L), s.d, e.name, File([]))
      && FreeCount(img'.fat) == FreeCount(img.fat) + |L.chain[s]|
      && Rooms(img', L') == Rooms(img, L)
  {
    UnfoldVolume(img, L);
    TruncateDone(img, L, img', s, e);
  }

  /** fat_write_file with no bytes: the chain is released, the entry says so. */
  method TruncateFile(v: Volume, lba: int, idx: nat, n83: Name, first: u16, ghost img: Image, ghost L: Layout, ghost s: Slot)
    requires v.Mounted() && v.img == img && v.layout == L && FoldedVolume(img, L) && s in L.chain && Located(v.g, lba, idx, s.d, s.j)
    requires !MetaOf(img).At(s).IsDir() && MetaOf(img).At(s).first == first
    requires MetaOf(img).At(s).name == n83 && UserName(n83)
    modifies v
    ensures Sealed(v) && s.d in TreeAt(img, L)
    ensures TreeAt(v.img, v.layout) == Put(TreeAt(img, L), s.d, n83, File([]))
    ensures FreeCount(v.img.fat) == FreeCount(img.fat) + |L.chain[s]|
    ensures Rooms(v.img, v.layout) == Rooms(img, L)
    ensures Swapped(old(v.trace), v.trace, v.disk, img, first, |L.chain[s]|)
  {
    ghost var e := Entry(n83, ATTR_FILE, NO_RESERVED, 0, 0);
    OldChain(img, L, s);
    DropChain(v, lba, idx, n83, first, s, L.chain[s]);
    FoldedTruncateDone(img, L, v.img, s, e);
    SetSealed(v, NextLayout(MetaOf(img), L, s, e, []));
  }

  /** The part of fat_write_file after the checks, for an empty src. */
  method EmptyFile(v: Volume, lba: int, idx: nat, n83: Name, first: u16, ghost img: Image, ghost L: Layout, ghost s: Slot)
    requires v.Mounted() && v.img == img && v.layout == L && FoldedVolume(img, L) && s in L.chain && Located(v.g, lba, idx, s.d, s.j)
    requires !MetaOf(img).At(s).IsDir() && MetaOf(img).At(s).first == first
    requires MetaOf(img).At(s).name == n83 && UserName(n83)
    modifies v
    ensures Sealed(v) && s.d in TreeAt(img, L)
    ensures TreeAt(v.img, v.layout) == Put(TreeAt(img, L), s.d, n83, File([]))
    ensures FreeCount(v.img.fat) == FreeCount(img.fat) + |L.chain[s]|
    ensures Rooms(v.img, v.layout) == Rooms(img, L)
    ensures Released(v.g, TreeAt(img, L), old(v.trace), v.trace, v.disk, |old(v.trace)|, FAT_OK, |L.chain[s]|)
  {
    TruncateFile(v, lba, idx, n83, first, img, L, s);
    if L.chain[s] != [] {
      FoldedTorn(img, L, img, s, v.trace, |old(v.trace)|);
    }
  }

  /** The part of fat_write_file after the entry was found to be a file. */
  method WriteEntry(v: Volume, lba: int, idx: nat, n83: Name, first: u16, src: seq<byte>, ghost img: Image, ghost L: Layout, ghost s: Slot)
    returns (code: int, ghost release: nat)
    requires v.Mounted() && v.img == img && v.layout == L && FoldedVolume(img, L) && s in L.chain && Located(v.g, lba, idx, s.d, s.j)
    requires !MetaOf(img).At(s).IsDir() && MetaOf(img).At(s).first == first
    requires MetaOf(img).At(s).name == n83 && UserName(n83) && |src| <= MAX_FILE_BYTES && v.g.Ok()
    requires Backs(v.g, FreeCount(img.fat), CeilDiv(|src|, v.g.ClusterBytes()))
    modifies v
    ensures code == if CeilDiv(|src|, v.g.ClusterBytes()) > FreeCount(img.fat) then FAT_ERR_NO_SPACE else FAT_OK
    ensures code != FAT_OK ==> v.Mounted() && v.img == img && v.layout == L
    ensures code == FAT_OK ==>
      && Sealed(v) && s.d in TreeAt(img, L)
      && TreeAt(v.img, v.layout) == Put(TreeAt(img, L), s.d, n83, File(src))
      && FreeCount(v.img.fat) + CeilDiv(|src|, v.g.ClusterBytes()) == FreeCount(img.fat) + |L.chain[s]|
    ensures Rooms(v.img, v.layout) == Rooms(img, L)
    ensures Released(v.g, TreeAt(img, L), old(v.trace), v.trace, v.disk, release, code, |L.chain[s]|)
    ensures code == FAT_OK && src != [] ==> FoldedTable(img, L, v.img, s, |src|)
  {
    release := |v.trace|;
    if |src| == 0 {
      CeilDivZero(|src|, v.g.ClusterBytes());
      EmptyFile(v, lba, idx, n83, first, img, L, s);
      code := FAT_OK;
    } else {
      code, release := ReplaceFile(v, lba, idx, n83, first, src, img, L, s);
    }
  }

  /** The part of fat_write_file after the entry was found. */
  method WriteLocated(v: Volume, lba: int, idx: nat, e: Entry, src: seq<byte>, ghost img: Image, ghost L: Layout, ghost s: Slot)
    returns (code: int, ghost release: nat)
    requires Sealed(v) && v.img == img && v.layout == L && v.g.Ok() && s in L.chain && Located(v.g, lba, idx, s.d, s.j)
    requires e == MetaOf(img).At(s) && UserName(e.name)
    requires !e.IsDir() && |src| <= MAX_FILE_BYTES ==> Backs(v.g, FreeCount(img.fat), CeilDiv(|src|, v.g.ClusterBytes()))
    modifies v
    ensures Sealed(v)
    ensures
      code == if |src| > MAX_FILE_BYTES then FAT_ERR_TOO_BIG else if e.IsDir() then FAT_ERR_INVALID
              else if CeilDiv(|src|, v.g.ClusterBytes()) > FreeCount(img.fat) then FAT_ERR_NO_SPACE else FAT_OK
    ensures code != FAT_OK ==> v.img == img && v.layout == L
    ensures code == FAT_OK ==>
      var t := TreeAt(img, L);
      && s.d in t && e.name in t[s.d] && t[s.d][e.name].File?
      && TreeAt(v.img, v.layout) == Put(t, s.d, e.name, File(src))
      && FreeCount(v.img.fat) + CeilDiv(|src|, v.g.ClusterBytes())
           == FreeCount(img.fat) + CeilDiv(|t[s.d][e.name].content|, v.g.ClusterBytes())
    ensures
      var t := TreeAt(img, L);
      Released(v.g, t, old(v.trace), v.trace, v.disk, release, code,
               if code == FAT_OK then CeilDiv(|t[s.d][e.name].content|, v.g.ClusterBytes()) else 0)
    ensures Rooms(v.img, v.layout) == Rooms(img, L)
    ensures code == FAT_OK && src != [] ==> FoldedTable(img, L, v.img, s, |src|)
  {
    release := |v.trace|;
    if |src| > MAX_FILE_BYTES {
      code := FAT_ERR_TOO_BIG;
    } else if e.IsDir() {
      code := FAT_ERR_INVALID;
    } else {
      FoldedFileSize(img, L, s);
      code, release := WriteEntry(v, lba, idx, e.name, e.first, src, img, L, s);
    }
  }

  lemma FoldedFileSize(img: Image, L: Layout, s: Slot)
    requires img.Shape() && FoldedVolume(img, L) && s in L.chain && !MetaOf(img).At(s).IsDir()
    ensures
      var e, t := MetaOf(img).At(s), TreeAt(img, L);
      && s.d in t && e.name in t[s.d] && t[s.d][e.name].File?
      && |L.chain[s]| == CeilDiv(|t[s.d][e.name].content|, img.g.ClusterBytes())
  {
    UnfoldVolume(img, L);
    FileSizeInTree(img, L, s);
  }

  /** The chain of a file is as long as its content in the tree takes. */
  lemma FileSizeInTree(img: Image, L: Layout, s: Slot)
    requires img.Shape() && ReadOk(MetaOf(img), L) && s in L.chain && !MetaOf(img).At(s).IsDir()
    ensures
      var e, t := MetaOf(img).At(s), TreeAt(img, L);
      && s.d in t && e.name in t[s.d] && t[s.d][e.name] == File(FileBytes(img, L, s))
      && |FileBytes(img, L, s)| == e.size && |L.chain[s]| == CeilDiv(e.size, img.g.ClusterBytes())
  {
    FileInTree(img, L, s);
    FileChain(img, L, s);
    FileFacts(img, L, s);
  }

  /** The links of the file a path names. */
  ghost function LinksAt(t: Tree, g: Geometry, path: Text): nat
    requires g.Ok()
  {
    match Locate(t, path)
    case Failed(_) => 0
    case Parent(d, n) => if t[d][n].Dir? then 0 else CeilDiv(|t[d][n].content|, g.ClusterBytes())
  }

  /** The clusters fat_write_file takes before it frees any; none if it fails before it looks for them. */
  ghost function WriteTakes(t: Tree, g: Geometry, path: Text, len: nat): nat
    requires g.Ok()
  {
    match Locate(t, path)
    case Failed(_) => 0
    case Parent(d, n) => if t[d][n].Dir? || len > MAX_FILE_BYTES then 0 else CeilDiv(len, g.ClusterBytes())
  }

  /** fat_write_file, for a volume that is not looked into. */
  method WritePath(v: Volume, path: Text, src: seq<byte>, ghost img: Image, ghost L: Layout) returns (code: int, ghost release: nat)
    requires Sealed(v) && v.img == img && v.layout == L && v.g.Ok() && Backs(v.g, FreeCount(img.fat), WriteTakes(TreeAt(img, L), v.g, path, |src|))
    modifies v
    ensures Sealed(v) && (code != FAT_OK ==> v.img == img && v.layout == L) && Rooms(v.img, v.layout) == Rooms(img, L)
    ensures Writes(TreeAt(img, L), FreeCount(img.fat), v.g, path, src, code, TreeAt(v.img, v.layout), FreeCount(v.img.fat))
    ensures Released(v.g, TreeAt(img, L), old(v.trace), v.trace, v.disk, release, code, LinksAt(TreeAt(img, L), v.g, path))
    ensures code == FAT_OK && src != [] ==> TableFor(img, L, v.img, path, |src|)
  {
    var lba, idx, n83, e, buff;
    ghost var s;
    code, lba, idx, n83, e, buff, s := LocateFolded(v, path);
    release := |v.trace|;
    if code == FAT_OK {
      code, release := WriteLocated(v, lba, idx, e, src, img, L, s);
      if code == FAT_OK && src != [] {
        TableForAll(img, L, v.img, path, s, |src|);
      }
    }
  }

  /** fat_write_file. Every disk written before the old chain is freed still reads as the tree it started from; every disk
      reads as the old or the new tree if and only if it fails or the file had no clusters. */
  method FatWriteFile(v: Volume, path: Text, src: seq<byte>) returns (code: int, ghost release: nat)
    requires Valid(v) && v.g.Ok() && Backs(v.g, FreeCount(v.img.fat), WriteTakes(TreeAt(v.img, v.layout), v.g, path, |src|))
    modifies v
    ensures Valid(v) && v.g.Ok()
    ensures Writes(old(TreeAt(v.img, v.layout)), old(FreeCount(v.img.fat)), v.g, path, src, code, TreeAt(v.img, v.layout), FreeCount(v.img.fat))
    ensures code != FAT_OK ==> v.img == old(v.img) && v.layout == old(v.layout)
    ensures
      var t := old(TreeAt(v.img, v.layout));
      Released(v.g, t, old(v.trace), v.trace, v.disk, release, code, LinksAt(t, v.g, path))
    ensures
      var t := old(TreeAt(v.img, v.layout));
      Atomic(v.g, t, TreeAt(v.img, v.layout), old(v.trace), v.trace) <==> code != FAT_OK || LinksAt(t, v.g, path) == 0
    ensures Rooms(v.img, v.layout) == old(Rooms(v.img, v.layout))
    ensures code == FAT_OK && src != [] ==> TableFor(old(v.img), old(v.layout), v.img, path, |src|)
  {
    ghost var t := TreeAt(v.img, v.layout);
    code, release := WritePath(v, path, src, v.img, v.layout);
    UnfoldVolume(v.img, v.layout);
    ReleasedAtomic(v, t, old(v.trace), release, code, LinksAt(t, v.g, path));
  }

  /** Starting again from a disk of which the tree t can be read: fat_read_file_at finds in it what t says. */
  method ReadAfterCrash(g: Geometry, disk: seq<Sector>, path: Text, offset: u32, len: u32, ghost t: Tree) returns (ok: bool, dst: seq<byte>)
    requires ReadsAs(g, disk, t)
    ensures ReadResult(ok, dst) == ReadSpec(t, path, offset, len)
  {
    ghost var img, L :| Shows(disk, img) && img.g == g && ReadOk(MetaOf(img), L) && TreeAt(img, L) == t;
    var v := new Volume(g, disk, img, L);
    ok, dst := FatReadFileAt(v, path, offset, len);
  }
}
