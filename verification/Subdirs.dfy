/** mkdir and rmdir. */
module Subdirs {
  import opened Bytes
  import opened Folding
  import opened Disk
  import opened Fat
  import opened Directory
  import opened Names
  import opened WellFormed
  import opened Tree
  import opened FileSystem
  import opened Namespace

  const ZERO_SECTOR: Sector := seq(512, _ => 0)

  /** The first two entries of a subdirectory, then end markers. */
  ghost predicate FreshDir(es: seq<Entry>, self: u16, parent: u16) {
    && 2 <= |es|
    && es[0] == Entry(DOT_NAME, ATTR_DIR, NO_RESERVED, self, 0)
    && es[1] == Entry(DOTDOT_NAME, ATTR_DIR, NO_RESERVED, parent, 0)
    && forall j :: 2 <= j < |es| ==> es[j].IsEnd()
  }

  /** Directory id is new: "." stands for itself, ".." for its parent, 0 if that is the root, and nothing else is in it. */
  ghost predicate HasDots(img: Image, id: nat, parent: nat) {
    id < |img.region| && id < 0x1_0000 && parent < 0x1_0000 && FreshDir(DirOf(img.region[id]), id, parent)
  }

  lemma FreshDirOk(es: seq<Entry>, self: u16, parent: u16)
    requires FreshDir(es, self, parent)
    ensures DirOk(es) && NoneOwned(es)
  {
    assert DOT_NAME[1] != DOTDOT_NAME[1];
  }

  /** The slots left in a new subdirectory. */
  function FreshRoom(g: Geometry): int {
    16 * g.secPerClus - 2
  }

  lemma FreshDirRoom(es: seq<Entry>, self: u16, parent: u16)
    requires FreshDir(es, self, parent)
    ensures Room(es) == |es| - 2
  {
    RoomAll(es[2..]);
    assert es[1..][1..] == es[2..];
    assert es[1..][0] == es[1];
  }

  lemma ZeroSectorEnds(i: nat)
    requires i < 16
    ensures EntryAt(ZERO_SECTOR, i).IsEnd()
  {
    assert EntryAt(ZERO_SECTOR, i).name[0] == ZERO_SECTOR[32 * i];
  }

  lemma ZeroRegionEnds(region: seq<Sector>)
    requires forall k :: 0 <= k < |region| ==> region[k] == ZERO_SECTOR
    ensures forall j :: 0 <= j < |DirOf(region)| ==> DirOf(region)[j].IsEnd()
  {
    forall j | 0 <= j < |DirOf(region)| ensures DirOf(region)[j].IsEnd() {
      ZeroSectorEnds(j % 16);
    }
  }

  /** img' differs from img in one region only. */
  ghost predicate OnlyRegion(img: Image, img': Image, c: nat) {
    && img'.g == img.g && img'.fat == img.fat && |img'.region| == |img.region|
    && forall r :: 0 <= r < |img.region| && r != c ==> img'.region[r] == img.region[r]
  }

  /** The clearing loop of fat_mkdir. */
  method ZeroCluster(v: Volume, dataLba: int, c: nat)
    requires v.Mounted() && 2 <= c < v.g.backed && AtLba(v.g, dataLba, c, 0)
    modifies v`disk, v`img, v`trace
    ensures v.Mounted() && OnlyRegion(old(v.img), v.img, c)
    ensures forall j :: 0 <= j < |DirOf(v.img.region[c])| ==> DirOf(v.img.region[c])[j].IsEnd()
  {
    var sc := 0;
    while sc < v.g.secPerClus
      invariant 0 <= sc <= v.g.secPerClus
      invariant v.Mounted() && OnlyRegion(old(v.img), v.img, c)
      invariant forall k :: 0 <= k < sc ==> v.img.region[c][k] == ZERO_SECTOR
    {
      WriteSector(v, dataLba + sc, ZERO_SECTOR, c, sc);
      sc := sc + 1;
    }
    ZeroRegionEnds(v.img.region[c]);
  }

  /** Clears the new cluster and writes its two dot entries. */
  method WriteFreshDir(v: Volume, clus: u16, parent: u16)
    requires v.Mounted() && 2 <= clus < v.g.backed
    modifies v`disk, v`img, v`trace
    ensures v.Mounted() && OnlyRegion(old(v.img), v.img, clus)
    ensures FreshDir(DirOf(v.img.region[clus]), clus, parent)
  {
    var dataLba := v.g.DataStart() + (clus - 2) * v.g.secPerClus;
    ZeroCluster(v, dataLba, clus);
    DirWriteEntry(v, dataLba, 0, DOT_NAME, clus, 0, ATTR_DIR, clus, 0);
    DirWriteEntry(v, dataLba, 1, DOTDOT_NAME, parent, 0, ATTR_DIR, clus, 1);
  }

  // ---- mkdir ----

  /** fat_mkdir: a new empty directory, known by its cluster `id`, takes one cluster and one slot of its parent. */
  ghost predicate Makes(t: Tree, free: nat, room: map<nat, nat>, g: Geometry, path: Text, code: int,
                        t': Tree, free': nat, room': map<nat, nat>, id: nat)
    requires g.Ok()
  {
    match Resolve(t, path)
    case Failed(c) => code == c
    case Parent(d, n) =>
      && d in t
      && code == (if n in t[d] then FAT_ERR_EXISTS else if Full(room, d) || free == 0 then FAT_ERR_NO_SPACE else FAT_OK)
      && (code == FAT_OK ==>
            id !in t && t' == Put(t, d, n, Dir(id))[id := map[]] && free' + 1 == free && room' == Less(room, d)[id := FreshRoom(g)])
  }

  lemma NewDirFatStep(fat: seq<u16>, c: nat)
    requires 2 <= c < |fat| && fat[c] == 0
    ensures FatStep(fat, fat[c := LAST], [], [c]) && Chain(fat[c := LAST], c, [c])
  {
  }

  /** The steps of mkdir: take cluster c, lay out an empty directory in it (img1), write the entry (img'). */
  ghost predicate MadeDir(img: Image, img1: Image, img': Image, s: Slot, e: Entry) {
    && img.Shape() && 2 <= e.first < img.g.backed && img.fat[e.first] == 0
    && OnlyRegion(img.WithFat(e.first, LAST), img1, e.first)
    && DirOk(DirOf(img1.region[e.first])) && NoneOwned(DirOf(img1.region[e.first]))
    && Room(DirOf(img1.region[e.first])) == FreshRoom(img.g)
    && EntrySet(img1, img', s.d, s.j, e)
  }

  lemma MkdirKind(img: Image, L: Layout, img1: Image, img': Image, s: Slot, e: Entry)
    requires VolumeOk(MetaOf(img), L) && s.d in L.rank && s !in L.chain && MadeDir(img, img1, img', s, e)
    requires e.Owns() && e.IsDir()
    ensures |MetaOf(img').dirs| == |MetaOf(img).dirs| && KindStep(MetaOf(img), L, MetaOf(img'), s, e, [e.first as int])
  {
    DirInUse(MetaOf(img), L, s.d);
    NewDirFatStep(img.fat, e.first);
    assert MetaOf(img').dirs[e.first] == DirOf(img1.region[e.first]);
  }

  lemma MkdirRegions(img: Image, img1: Image, img': Image, s: Slot, e: Entry)
    requires MadeDir(img, img1, img', s, e) && s.d != e.first
    ensures RegionStep(img.region, img'.region, s.d, [], [e.first as int])
    ensures DirOf(img'.region[s.d]) == DirOf(img.region[s.d])[s.j := e]
  {
  }

  lemma MkdirChanged(img: Image, L: Layout, img1: Image, img': Image, s: Slot, e: Entry)
    requires VolumeOk(MetaOf(img), L) && s.d in L.rank && MadeDir(img, img1, img', s, e)
    requires s.j == FreeSlot(DirOf(img.region[s.d]), 0) && Find(DirOf(img.region[s.d]), e.name, 0) == |DirOf(img.region[s.d])|
    requires e.Owns() && e.IsDir()
    ensures Changed(img, L, img', s, e, [e.first as int]) && s !in L.chain
  {
    DirRegion(img, L, s.d);
    DirOkCreate(DirOf(img.region[s.d]), s.j, e);
    DirInUse(MetaOf(img), L, s.d);
    NewDirFatStep(img.fat, e.first);
    assert !MetaOf(img).At(s).Owns();
    MkdirKind(img, L, img1, img', s, e);
    MkdirRegions(img, img1, img', s, e);
  }

  lemma RankNew(m: Meta, L: Layout, s: Slot, e: Entry, ch: seq<nat>)
    requires e.Owns() && e.IsDir() && s !in L.chain
    ensures NextLayout(m, L, s, e, ch).rank.Keys == L.rank.Keys + {e.first as nat}
  {
  }

  lemma RoomsWithNew(m: Meta, L: Layout, m': Meta, s: Slot, e: Entry, ch: seq<nat>)
    requires e.Owns() && e.IsDir() && s !in L.chain && s.d in L.rank && e.first !in L.rank
    requires SameDirsBut(m, L, m', NextLayout(m, L, s, e, ch), s.d)
    ensures RoomsOf(m', NextLayout(m, L, s, e, ch))
         == RoomsOf(m, L)[s.d := Room(m'.DirAt(s.d))][e.first as nat := Room(m'.DirAt(e.first))]
  {
    RankNew(m, L, s, e, ch);
    RoomsNew(m, L, m', NextLayout(m, L, s, e, ch), s.d, e.first);
  }

  lemma StepRoomsNew(m: Meta, L: Layout, m': Meta, L': Layout, s: Slot, e: Entry, ch: seq<nat>)
    requires Step(m, L, m', L', s, e, ch) && e.Owns() && e.IsDir() && s !in L.chain && e.first !in L.rank
    ensures RoomsOf(m', L') == RoomsOf(m, L)[s.d := Room(m'.DirAt(s.d))][e.first as nat := Room(m'.DirAt(e.first))]
  {
    StepDirsSame(m, L, m', L', s, e, ch);
    RoomsWithNew(m, L, m', s, e, ch);
  }

  lemma RoomLessNew(room: map<nat, nat>, d: nat, n: nat, id: nat, k: nat)
    requires d in room && n + 1 == room[d]
    ensures room[d := n][id := k] == Less(room, d)[id := k]
  {
  }

  /** A new directory takes up a slot of its parent and has slots of its own. */
  lemma RoomOfNew(img: Image, L: Layout, img': Image, s: Slot, e: Entry, ch: seq<nat>)
    requires Changed(img, L, img', s, e, ch) && e.Owns() && e.IsDir() && s !in L.chain && e.first !in L.rank
    requires Reuse(MetaOf(img).At(s)) == 1
    ensures Rooms(img', NextLayout(MetaOf(img), L, s, e, ch)) == Less(Rooms(img, L), s.d)[e.first as nat := Room(MetaOf(img').DirAt(e.first))]
  {
    var m, m', L' := MetaOf(img), MetaOf(img'), NextLayout(MetaOf(img), L, s, e, ch);
    ChangedStep(img, L, img', s, e, ch);
    StepRoomsNew(m, L, m', L', s, e, ch);
    RoomsAre(img, L);
    RoomsAre(img', L');
    RoomSet(m.dirs[s.d], s.j, e);
    RoomLessNew(Rooms(img, L), s.d, Room(m'.DirAt(s.d)), e.first, Room(m'.DirAt(e.first)));
  }

  lemma DirNode(img: Image, L: Layout, s: Slot, e: Entry)
    requires MetaOf(img).Has(s) && MetaOf(img).At(s) == e && e.IsDir()
    ensures NodeAt(MetaOf(img), img.region, L, s) == Dir(e.first)
  {
  }

  lemma DirEntryOwns(e: Entry)
    requires UserName(e.name) && e.attr == ATTR_DIR
    ensures e.Owns() && e.IsDir()
  {
  }

  lemma FreeNotDir(m: Meta, L: Layout, c: nat)
    requires VolumeOk(m, L) && 2 <= c < |m.fat| && m.fat[c] == 0
    ensures c !in L.rank
  {
    if c in L.rank {
      DirInUse(m, L, c);
    }
  }

  lemma NewRegion(img: Image, img1: Image, img': Image, s: Slot, e: Entry)
    requires MadeDir(img, img1, img', s, e) && s.d != e.first
    ensures MetaOf(img').DirAt(e.first) == DirOf(img1.region[e.first])
  {
  }

  lemma MkdirRoom(img: Image, L: Layout, img1: Image, img': Image, s: Slot, e: Entry)
    requires Changed(img, L, img', s, e, [e.first as int]) && s !in L.chain && e.first !in L.rank && MadeDir(img, img1, img', s, e)
    requires e.Owns() && e.IsDir() && s.j == FreeSlot(DirOf(img.region[s.d]), 0)
    ensures FreshRoom(img.g) >= 0
    ensures Rooms(img', NextLayout(MetaOf(img), L, s, e, [e.first as int])) == Less(Rooms(img, L), s.d)[e.first as nat := FreshRoom(img.g)]
  {
    DirRegion(img, L, s.d);
    NewRegion(img, img1, img', s, e);
    RoomOfNew(img, L, img', s, e, [e.first as int]);
  }

  lemma MkdirDone(img: Image, L: Layout, img1: Image, img': Image, s: Slot, e: Entry)
    requires VolumeOk(MetaOf(img), L) && s.d in L.rank && MadeDir(img, img1, img', s, e)
    requires s.j == FreeSlot(DirOf(img.region[s.d]), 0)
    requires UserName(e.name) && e.attr == ATTR_DIR && s.d in TreeAt(img, L) && e.name !in TreeAt(img, L)[s.d]
    ensures
      var L' := NextLayout(MetaOf(img), L, s, e, [e.first as int]);
      && VolumeOk(MetaOf(img'), L')
      && e.first !in TreeAt(img, L)
      && TreeAt(img', L') == Put(TreeAt(img, L), s.d, e.name, Dir(e.first))[e.first := map[]]
      && FreeCount(img'.fat) + 1 == FreeCount(img.fat)
      && Rooms(img', L') == Less(Rooms(img, L), s.d)[e.first as nat := FreshRoom(img.g)]
  {
    DirEntryOwns(e);
    DirRegion(img, L, s.d);
    LookupAt(img, L, s.d, e.name);
    MkdirChanged(img, L, img1, img', s, e);
    Commit(img, L, img', s, e, [e.first as int]);
    TreeDirs(img, L);
    FreeNotDir(MetaOf(img), L, e.first);
    MkdirRoom(img, L, img1, img', s, e);
    DirNode(img', NextLayout(MetaOf(img), L, s, e, [e.first as int]), s, e);
    StepIsNewDir(TreeAt(img, L), s.d, e.name, e.first);
  }

  /** The writes of fat_mkdir, in order: table slot, cleared cluster with its dot entries, entry in the parent. */
  method WriteDirAndEntry(v: Volume, lba: int, idx: nat, n83: Name, clus: u16, parent: u16, ghost s: Slot)
    returns (ghost img1: Image)
    requires v.Mounted() && Located(v.g, lba, idx, s.d, s.j)
    requires 2 <= clus < v.g.backed && v.img.fat[clus] == 0
    modifies v`disk, v`img, v`trace
    ensures v.Mounted() && MadeDir(old(v.img), img1, v.img, s, Entry(n83, ATTR_DIR, NO_RESERVED, clus, 0)) && HasDots(img1, clus, parent)
  {
    FatSetEntry(v, clus, LAST);
    WriteFreshDir(v, clus, parent);
    FreshDirOk(DirOf(v.img.region[clus]), clus, parent);
    FreshDirRoom(DirOf(v.img.region[clus]), clus, parent);
    img1 := v.img;
    DirWriteEntry(v, lba, idx, n83, clus, 0, ATTR_DIR, s.d, s.j);
  }

  lemma DotsStay(img: Image, img1: Image, img': Image, s: Slot, e: Entry, parent: nat)
    requires MadeDir(img, img1, img', s, e) && s.d != e.first && HasDots(img1, e.first, parent)
    ensures HasDots(img', e.first, parent)
  {
    NewRegion(img, img1, img', s, e);
  }

  /** What the three writes lead to. */
  lemma MkdirMeans(img: Image, L: Layout, img1: Image, img': Image, s: Slot, e: Entry, parent: nat)
    requires FoldedVolume(img, L) && s.d in L.rank && MadeDir(img, img1, img', s, e) && HasDots(img1, e.first, parent)
    requires s.j == FreeSlot(DirOf(img.region[s.d]), 0)
    requires UserName(e.name) && e.attr == ATTR_DIR && s.d in TreeAt(img, L) && e.name !in TreeAt(img, L)[s.d]
    ensures
      var L' := NextLayout(MetaOf(img), L, s, e, [e.first as int]);
      && FoldedVolume(img', L')
      && e.first !in TreeAt(img, L)
      && TreeAt(img', L') == Put(TreeAt(img, L), s.d, e.name, Dir(e.first))[e.first := map[]]
      && FreeCount(img'.fat) + 1 == FreeCount(img.fat)
      && FreshRoom(img.g) >= 0 && Rooms(img', L') == Less(Rooms(img, L), s.d)[e.first as nat := FreshRoom(img.g)]
      && HasDots(img', e.first, parent)
  {
    UnfoldVolume(img, L);
    MkdirDone(img, L, img1, img', s, e);
    DotsStay(img, img1, img', s, e, parent);
  }

  /** Makes directory `clus` under a name in a free slot of its parent. */
  method AddDirEntry(v: Volume, lba: int, idx: nat, n83: Name, clus: u16, parent: u16, ghost s: Slot, ghost img: Image, ghost L: Layout)
    requires v.Mounted() && v.img == img && v.layout == L && FoldedVolume(img, L)
    requires s.d in L.rank && s.d < |img.region| && Located(v.g, lba, idx, s.d, s.j) && s.j == FreeSlot(DirOf(img.region[s.d]), 0)
    requires UserName(n83) && s.d in TreeAt(img, L) && n83 !in TreeAt(img, L)[s.d]
    requires 2 <= clus < v.g.backed && clus < |img.fat| && img.fat[clus] == 0
    modifies v
    ensures Sealed(v) && FreeCount(v.img.fat) + 1 == FreeCount(img.fat)
    ensures clus !in TreeAt(img, L)
    ensures TreeAt(v.img, v.layout) == Put(TreeAt(img, L), s.d, n83, Dir(clus))[clus := map[]]
    ensures FreshRoom(v.g) >= 0 && Rooms(v.img, v.layout) == Less(Rooms(img, L), s.d)[clus as nat := FreshRoom(v.g)]
    ensures HasDots(v.img, clus, parent)
  {
    ghost var e := Entry(n83, ATTR_DIR, NO_RESERVED, clus, 0);
    ghost var img1 := WriteDirAndEntry(v, lba, idx, n83, clus, parent, s);
    MkdirMeans(img, L, img1, v.img, s, e, parent);
    SetSealed(v, NextLayout(MetaOf(img), L, s, e, [e.first as int]));
  }

  /** fat_mkdir. The new directory is known by its cluster, `id`. */
  method FatMkdir(v: Volume, path: Text) returns (code: int, ghost id: nat)
    requires Valid(v) && Backs(v.g, FreeCount(v.img.fat), 1)
    modifies v
    ensures Valid(v) && v.g.Ok()
    ensures Makes(old(TreeAt(v.img, v.layout)), old(FreeCount(v.img.fat)), old(Rooms(v.img, v.layout)), v.g, path, code,
                  TreeAt(v.img, v.layout), FreeCount(v.img.fat), Rooms(v.img, v.layout), id)
    ensures code == FAT_OK ==> Resolve(old(TreeAt(v.img, v.layout)), path).Parent? && HasDots(v.img, id, Resolve(old(TreeAt(v.img, v.layout)), path).d)
    ensures code != FAT_OK ==> v.disk == old(v.disk) && v.img == old(v.img) && v.layout == old(v.layout)
  {
    var parent, leaf;
    id := 0;
    code, parent, leaf := ResolveParentDir(v, path);
    if code != FAT_OK {
      return;
    }
    var n83 := NameTo83(leaf);
    To83UserName(leaf);
    var found, lba, idx, j := FindEntry(v, parent, n83);
    if found {
      return FAT_ERR_EXISTS, id;
    }
    code, id := MkdirIn(v, parent, n83);
  }

  lemma FirstBacked(img: Image, L: Layout)
    requires VolumeOk(MetaOf(img), L) && FreeCount(img.fat) > 0 && Backs(img.g, FreeCount(img.fat), 1)
    ensures FirstFree(img.fat) < img.g.backed
  {
    FreesBacked(MetaOf(img), L, 1);
    assert FreeList(img.fat, 2)[..1][0] == FirstFree(img.fat);
  }

  /** The part of fat_mkdir after the name was found to be new. */
  method MkdirIn(v: Volume, parent: nat, n83: Name) returns (code: int, ghost id: nat)
    requires Valid(v) && parent in v.layout.rank && UserName(n83) && parent in TreeAt(v.img, v.layout) && n83 !in TreeAt(v.img, v.layout)[parent]
    requires Backs(v.g, FreeCount(v.img.fat), 1)
    modifies v
    ensures Valid(v)
    ensures
      code == if Full(old(Rooms(v.img, v.layout)), parent) || old(FreeCount(v.img.fat)) == 0 then FAT_ERR_NO_SPACE else FAT_OK
    ensures code != FAT_OK ==> v.img == old(v.img) && v.layout == old(v.layout) && v.disk == old(v.disk)
    ensures code == FAT_OK ==>
      && id !in old(TreeAt(v.img, v.layout))
      && TreeAt(v.img, v.layout) == Put(old(TreeAt(v.img, v.layout)), parent, n83, Dir(id))[id := map[]]
      && FreeCount(v.img.fat) + 1 == old(FreeCount(v.img.fat))
      && FreshRoom(v.g) >= 0 && Rooms(v.img, v.layout) == Less(old(Rooms(v.img, v.layout)), parent)[id := FreshRoom(v.g)]
      && HasDots(v.img, id, parent)
  {
    id := 0;
    var found, lba, idx, j := FindRoom(v, parent);
    if !found {
      return FAT_ERR_NO_SPACE, id;
    }
    var clus := FatFindFree(v);
    if clus == 0 {
      return FAT_ERR_NO_SPACE, id;
    }
    FirstBacked(v.img, v.layout);
    var parentCluster := if parent == 0 then 0 else parent;
    AddDirEntry(v, lba, idx, n83, clus, parentCluster, Slot(parent, j), v.img, v.layout);
    UnfoldVolume(v.img, v.layout);
    return FAT_OK, clus;
  }

  // ---- rmdir ----

  /** fat_rmdir: an empty directory goes; one that is not empty gives FAT_ERR_NO_SPACE. */
  ghost predicate Unmakes(t: Tree, free: nat, room: map<nat, nat>, path: Text, code: int, t': Tree, free': nat, room': map<nat, nat>) {
    match Locate(t, path)
    case Failed(c) => code == c
    case Parent(d, n) =>
      if t[d][n].File? then code == FAT_ERR_INVALID
      else
        var id := t[d][n].id;
        && id in t
        && code == (if t[id] != map[] then FAT_ERR_NO_SPACE else FAT_OK)
        && (code == FAT_OK ==> t' == Drop(t, d, n) - {id} && free' == free + 1 && room' == More(room, d) - {id})
  }

  /** The inner loop of dir_cluster_is_empty: the first end marker or owning entry of a sector. */
  method FirstInUse(buff: Sector) returns (i: nat)
    ensures i <= 16
    ensures forall k :: 0 <= k < i ==> !EntryAt(buff, k).IsEnd() && !EntryAt(buff, k).Owns()
    ensures i < 16 ==> EntryAt(buff, i).IsEnd() || EntryAt(buff, i).Owns()
  {
    i := 0;
    while i < 16
      invariant i <= 16
      invariant forall k :: 0 <= k < i ==> !EntryAt(buff, k).IsEnd() && !EntryAt(buff, k).Owns()
    {
      if EntryAt(buff, i).IsEnd() {
        return;
      }
      if !EntryAt(buff, i).IsSkippable() && !EntryAt(buff, i).IsDots() {
        return;
      }
      i := i + 1;
    }
  }

  lemma EndedSector(region: seq<Sector>, k: nat, i: nat)
    requires DirOk(DirOf(region)) && k < |region| && i < 16 && EntryAt(region[k], i).IsEnd()
    requires forall j :: 0 <= j < 16 * k + i ==> !DirOf(region)[j].Owns()
    ensures NoneOwned(DirOf(region))
  {
    DirOfAt(region, k, i);
    forall j | 16 * k + i < j < |DirOf(region)| ensures DirOf(region)[j].IsEnd() {
      assert Pair(16 * k + i, j);
    }
  }

  lemma UsedSector(region: seq<Sector>, k: nat, i: nat)
    requires k < |region| && i <= 16
    requires forall x :: 0 <= x < i ==> !EntryAt(region[k], x).Owns()
    requires forall j :: 0 <= j < 16 * k ==> !DirOf(region)[j].Owns()
    ensures forall j :: 0 <= j < 16 * k + i ==> !DirOf(region)[j].Owns()
  {
    forall j | 16 * k <= j < 16 * k + i ensures !DirOf(region)[j].Owns() {
      DirOfAt(region, k, j - 16 * k);
    }
  }

  /** dir_cluster_is_empty. */
  method DirClusterIsEmpty(v: Volume, cluster: nat) returns (empty: bool)
    requires v.Mounted() && 2 <= cluster < v.g.backed && DirOk(DirOf(v.img.region[cluster]))
    ensures empty <==> NoneOwned(DirOf(v.img.region[cluster]))
  {
    var lba := v.g.DataStart() + (cluster - 2) * v.g.secPerClus;
    ghost var region := v.img.region[cluster];
    var s := 0;
    while s < v.g.secPerClus
      invariant 0 <= s <= v.g.secPerClus
      invariant forall j :: 0 <= j < 16 * s ==> !DirOf(region)[j].Owns()
    {
      var buff := ReadSector(v, lba + s, cluster, s);
      var i := FirstInUse(buff);
      UsedSector(region, s, i);
      if i < 16 {
        if EntryAt(buff, i).IsEnd() {
          EndedSector(region, s, i);
          return true;
        }
        DirOfAt(region, s, i);
        return false;
      }
      s := s + 1;
    }
    return true;
  }

  lemma EmptyIsEmpty(m: Meta, region: seq<seq<Sector>>, L: Layout, d: nat)
    requires VolumeOk(m, L) && d in L.rank
    ensures NoneOwned(m.dirs[d]) <==> TreeOf(m, region, L)[d] == map[]
  {
    if NoneOwned(m.dirs[d]) {
      EmptyDirMap(m.dirs[d], NodesOf(m, region, L, d));
    } else {
      var j :| 0 <= j < |m.dirs[d]| && m.dirs[d][j].Owns();
      SlotOwned(m, L, Slot(d, j));
      EntryInTree(m, region, L, Slot(d, j));
    }
  }

  /** What the entry of a subdirectory says about the tree. */
  lemma SubdirFacts(img: Image, L: Layout, s: Slot)
    requires img.Shape() && VolumeOk(MetaOf(img), L) && s in L.chain && MetaOf(img).At(s).IsDir()
    ensures
      var m, t, n := MetaOf(img), TreeAt(img, L), MetaOf(img).At(s).name;
      var id := m.At(s).first;
      && 2 <= id < img.g.backed && id in t && id != s.d && |L.chain[s]| == 1
      && s.d in t && n in t[s.d] && t[s.d][n] == Dir(id)
      && DirOk(DirOf(img.region[id])) && (NoneOwned(DirOf(img.region[id])) <==> t[id] == map[])
      && m.DirAt(id) == DirOf(img.region[id])
  {
    var m := MetaOf(img);
    assert EntryOk(m, L, s);
    EntryAtTree(img, L, s);
    DirNode(img, L, s, m.At(s));
    TreeIs(img, L);
    DirRegion(img, L, m.At(s).first);
    EmptyIsEmpty(m, img.region, L, m.At(s).first);
  }

  /** fat_rmdir. A directory that is not empty gives FAT_ERR_NO_SPACE. */
  method FatRmdir(v: Volume, path: Text) returns (code: int)
    requires Valid(v)
    modifies v
    ensures Valid(v)
    ensures Unmakes(old(TreeAt(v.img, v.layout)), old(FreeCount(v.img.fat)), old(Rooms(v.img, v.layout)), path, code,
                    TreeAt(v.img, v.layout), FreeCount(v.img.fat), Rooms(v.img, v.layout))
    ensures code != FAT_OK ==> v.disk == old(v.disk) && v.img == old(v.img) && v.layout == old(v.layout)
  {
    var lba, idx, n83, e, buff;
    ghost var s;
    code, lba, idx, n83, e, buff, s := LocateEntry(v, path);
    if code == FAT_OK {
      code := RemoveDir(v, lba, idx, e, buff, s);
    }
  }

  /** The part of fat_rmdir after the entry was found. */
  method RemoveDir(v: Volume, lba: int, idx: nat, e: Entry, buff: Sector, ghost s: Slot) returns (code: int)
    requires Valid(v) && s in v.layout.chain && Located(v.g, lba, idx, s.d, s.j)
    requires buff == v.img.region[s.d][s.j / 16]
    requires e == MetaOf(v.img).At(s)
    modifies v
    ensures Valid(v)
    ensures !e.IsDir() ==> code == FAT_ERR_INVALID
    ensures e.IsDir() ==>
      var t, id := old(TreeAt(v.img, v.layout)), e.first;
      && s.d in t && e.name in t[s.d] && t[s.d][e.name] == Dir(id) && id in t
      && code == (if t[id] != map[] then FAT_ERR_NO_SPACE else FAT_OK)
      && (code == FAT_OK ==>
            TreeAt(v.img, v.layout) == Drop(t, s.d, e.name) - {id} && Rooms(v.img, v.layout) == More(old(Rooms(v.img, v.layout)), s.d) - {id})
    ensures code == FAT_OK ==> FreeCount(v.img.fat) == old(FreeCount(v.img.fat)) + 1
    ensures code != FAT_OK ==> v.img == old(v.img) && v.layout == old(v.layout) && v.disk == old(v.disk)
  {
    if !e.IsDir() {
      return FAT_ERR_INVALID;
    }
    SubdirFacts(v.img, v.layout, s);
    var empty := DirClusterIsEmpty(v, e.first);
    if !empty {
      return FAT_ERR_NO_SPACE;
    }
    StepIsRmdir(TreeAt(v.img, v.layout), s.d, e.name, e.first);
    RemoveEntry(v, lba, idx, buff, v.img, v.layout, s);
    code := FAT_OK;
  }
}
