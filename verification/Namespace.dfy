/** The operations on files that change directories: create, delete and rename. */
module Namespace {
  import opened Bytes
  import opened Disk
  import opened Fat
  import opened Directory
  import opened Names
  import opened WellFormed
  import opened Tree
  import opened FileSystem
  import opened FileData

  // ---- room in directories ----

  /** The number of slots left in each directory. */
  ghost function RoomsOf(m: Meta, L: Layout): map<nat, nat> {
    map d | d in L.rank :: Room(m.DirAt(d))
  }

  /** The same for a volume; like the tree it is not looked into before a proof asks (RoomsAre). */
  ghost function Rooms(img: Image, L: Layout): map<nat, nat> {
    RoomsBehind(|img.fat|, img, L)
  }

  ghost function RoomsBehind(n: nat, img: Image, L: Layout): map<nat, nat> {
    if n == 0 then RoomsOf(MetaOf(img), L) else RoomsBehind(n - 1, img, L)
  }

  lemma RoomsAre(img: Image, L: Layout)
    ensures Rooms(img, L) == RoomsOf(MetaOf(img), L)
  {
    RoomsAreBehind(|img.fat|, img, L);
  }

  lemma {:induction false} RoomsAreBehind(n: nat, img: Image, L: Layout)
    ensures RoomsBehind(n, img, L) == RoomsOf(MetaOf(img), L)
  {
    if n > 0 {
      RoomsAreBehind(n - 1, img, L);
    }
  }

  ghost predicate Full(room: map<nat, nat>, d: nat) {
    d in room && room[d] == 0
  }

  /** One slot of directory d is taken up. */
  ghost function Less(room: map<nat, nat>, d: nat): map<nat, nat> {
    if d in room && room[d] > 0 then room[d := room[d] - 1] else room
  }

  /** One slot of directory d is given back. */
  ghost function More(room: map<nat, nat>, d: nat): map<nat, nat> {
    if d in room then room[d := room[d] + 1] else room
  }

  /** The room after entry e of directory d was deleted; the directory it may have stood for has no slots any more. */
  ghost function RoomsWithout(room: map<nat, nat>, d: nat, e: Entry): map<nat, nat> {
    if e.IsDir() then More(room, d) - {e.first as nat} else More(room, d)
  }

  /** One directory has a new number of slots left, and some directories are gone. */
  lemma RoomsNext(m: Meta, L: Layout, m': Meta, L': Layout, d0: nat, gone: set<nat>)
    requires d0 in L.rank && d0 !in gone && L'.rank.Keys == L.rank.Keys - gone
    requires forall d :: d in L'.rank && d != d0 ==> m'.DirAt(d) == m.DirAt(d)
    ensures RoomsOf(m', L') == RoomsOf(m, L)[d0 := Room(m'.DirAt(d0))] - gone
  {
  }

  /** One directory has a new number of slots left, and there is a new directory. */
  lemma RoomsNew(m: Meta, L: Layout, m': Meta, L': Layout, d0: nat, id: nat)
    requires d0 in L.rank && id !in L.rank && L'.rank.Keys == L.rank.Keys + {id}
    requires forall d :: d in L.rank && d != d0 ==> m'.DirAt(d) == m.DirAt(d)
    ensures RoomsOf(m', L') == RoomsOf(m, L)[d0 := Room(m'.DirAt(d0))][id := Room(m'.DirAt(id))]
  {
  }

  ghost function GoneDirs(m: Meta, L: Layout, s: Slot): set<nat> {
    if s in L.chain && m.At(s).IsDir() then {m.At(s).first as nat} else {}
  }

  lemma StepDirsSame(m: Meta, L: Layout, m': Meta, L': Layout, s: Slot, e: Entry, ch: seq<nat>)
    requires FoldedStep(m, L, m', L', s, e, ch)
    ensures SameDirsBut(m, L, m', L', s.d)
  {
    forall d | d in L'.rank && d in L.rank && d != s.d ensures m'.DirAt(d) == m.DirAt(d) {
      StepRank(m, L, m', L', s, e, ch, d);
    }
  }

  lemma RankNext(m: Meta, L: Layout, s: Slot, e: Entry, ch: seq<nat>)
    requires !(e.Owns() && e.IsDir())
    ensures NextLayout(m, L, s, e, ch).rank.Keys == L.rank.Keys - GoneDirs(m, L, s)
  {
  }

  lemma NotGone(m: Meta, L: Layout, s: Slot)
    requires s in L.chain && m.At(s).IsDir() ==> m.At(s).first != s.d
    ensures s.d !in GoneDirs(m, L, s)
  {
  }

  /** No directory is in itself. */
  lemma HomeStays(m: Meta, L: Layout, s: Slot)
    requires VolumeOk(m, L)
    ensures s.d !in GoneDirs(m, L, s)
  {
    assert s in L.chain ==> EntryOk(m, L, s);
    NotGone(m, L, s);
  }

  /** Directories other than d that were there before and still are have the same entries. */
  ghost predicate SameDirsBut(m: Meta, L: Layout, m': Meta, L': Layout, d: nat) {
    forall r :: r in L'.rank && r in L.rank && r != d ==> m'.DirAt(r) == m.DirAt(r)
  }

  lemma RoomsFrom(m: Meta, L: Layout, m': Meta, s: Slot, e: Entry, ch: seq<nat>)
    requires !(e.Owns() && e.IsDir()) && s.d in L.rank && s.d !in GoneDirs(m, L, s)
    requires SameDirsBut(m, L, m', NextLayout(m, L, s, e, ch), s.d)
    ensures RoomsOf(m', NextLayout(m, L, s, e, ch)) == RoomsOf(m, L)[s.d := Room(m'.DirAt(s.d))] - GoneDirs(m, L, s)
  {
    RankNext(m, L, s, e, ch);
    RoomsNext(m, L, m', NextLayout(m, L, s, e, ch), s.d, GoneDirs(m, L, s));
  }

  lemma StepRooms(m: Meta, L: Layout, m': Meta, L': Layout, s: Slot, e: Entry, ch: seq<nat>)
    requires Step(m, L, m', L', s, e, ch) && !(e.Owns() && e.IsDir())
    ensures RoomsOf(m', L') == RoomsOf(m, L)[s.d := Room(m'.DirAt(s.d))] - GoneDirs(m, L, s)
  {
    StepDirsSame(m, L, m', L', s, e, ch);
    HomeStays(m, L, s);
    RoomsFrom(m, L, m', s, e, ch);
  }

  // ---- from a changed image to a changed tree ----

  lemma DirOkUpdate(es: seq<Entry>, j: nat, e: Entry)
    requires DirOk(es) && j < |es| && !e.IsEnd()
    requires forall i :: 0 <= i < j ==> !es[i].IsEnd()
    requires e.Visible() ==> forall k :: 0 <= k < |es| && k != j && es[k].Visible() ==> es[k].name != e.name
    ensures DirOk(es[j := e])
  {
  }

  /** img' is img with entry s made e, whose chain is ch. */
  ghost predicate Changed(img: Image, L: Layout, img': Image, s: Slot, e: Entry, ch: seq<nat>) {
    && img.Shape() && img'.Shape() && img'.g == img.g
    && VolumeOk(MetaOf(img), L) && s.d in L.rank && MetaOf(img).Has(s)
    && FatStep(img.fat, img'.fat, ChainOf(L, s), ch)
    && RegionStep(img.region, img'.region, s.d, ChainOf(L, s), ch)
    && DirOf(img'.region[s.d]) == DirOf(img.region[s.d])[s.j := e]
    && DirOk(DirOf(img'.region[s.d]))
    && KindStep(MetaOf(img), L, MetaOf(img'), s, e, ch)
  }

  lemma ChangedStep(img: Image, L: Layout, img': Image, s: Slot, e: Entry, ch: seq<nat>)
    requires Changed(img, L, img', s, e, ch)
    ensures Step(MetaOf(img), L, MetaOf(img'), NextLayout(MetaOf(img), L, s, e, ch), s, e, ch)
  {
    var m, m' := MetaOf(img), MetaOf(img');
    forall r | r in L.rank && r != s.d && r !in ChainOf(L, s) && r !in ch
      ensures r < |m.dirs| && m'.dirs[r] == m.dirs[r]
    {
      DirRegion(img, L, r);
    }
  }

  /** Such a change keeps the volume well formed and changes the tree in that one place. */
  lemma Commit(img: Image, L: Layout, img': Image, s: Slot, e: Entry, ch: seq<nat>)
    requires Changed(img, L, img', s, e, ch)
    ensures
      var m, m', L' := MetaOf(img), MetaOf(img'), NextLayout(MetaOf(img), L, s, e, ch);
      var t := TreeAt(img, L);
      && VolumeOk(m', L')
      && s.d in t && (s in L.chain ==> m.At(s).name in t[s.d])
      && TreeAt(img', L') == TreeStep(t, s.d, Gone(m, L, s), Come(e, NodeAt(m', img'.region, L', s)))
      && FreeCount(img'.fat) + |ch| == FreeCount(img.fat) + |ChainOf(L, s)|
  {
    var m, m', L' := MetaOf(img), MetaOf(img'), NextLayout(MetaOf(img), L, s, e, ch);
    ChangedStep(img, L, img', s, e, ch);
    TreeIs(img, L);
    TreeIs(img', L');
    StepTree(m, L, m', L', s, e, ch, img.region, img'.region);
    StepFree(m, L, m', L', s, e, ch);
  }

  /** A file's entry stays a file's entry, so the name it had stands for a file. */
  lemma OldFile(img: Image, L: Layout, img': Image, s: Slot, e: Entry, ch: seq<nat>)
    requires Changed(img, L, img', s, e, ch) && e.Owns() && !e.IsDir() && s in L.chain
    ensures
      var t, n := TreeAt(img, L), MetaOf(img).At(s).name;
      s.d in t && n in t[s.d] && t[s.d][n].File?
  {
    EntryAtTree(img, L, s);
  }

  lemma FileNode(img: Image, L: Layout, s: Slot, e: Entry)
    requires MetaOf(img).Has(s) && MetaOf(img).At(s) == e && !e.IsDir()
    ensures NodeAt(MetaOf(img), img.region, L, s) == File(Content(img.region, ChainOf(L, s), e.size))
  {
  }

  lemma NewFile(img: Image, L: Layout, img': Image, s: Slot, e: Entry, ch: seq<nat>)
    requires Changed(img, L, img', s, e, ch) && e.Owns() && !e.IsDir()
    ensures NodeAt(MetaOf(img'), img'.region, NextLayout(MetaOf(img), L, s, e, ch), s) == File(Content(img'.region, ch, e.size))
  {
    FileNode(img', NextLayout(MetaOf(img), L, s, e, ch), s, e);
  }

  /** The case of an entry that is a file afterwards, under the name it had if there was one. */
  lemma CommitFile(img: Image, L: Layout, img': Image, s: Slot, e: Entry, ch: seq<nat>)
    requires Changed(img, L, img', s, e, ch) && e.Owns() && !e.IsDir()
    requires s in L.chain ==> MetaOf(img).At(s).name == e.name
    ensures
      var L' := NextLayout(MetaOf(img), L, s, e, ch);
      var t := TreeAt(img, L);
      && VolumeOk(MetaOf(img'), L') && s.d in t
      && TreeAt(img', L') == Put(t, s.d, e.name, File(Content(img'.region, ch, e.size)))
      && FreeCount(img'.fat) + |ch| == FreeCount(img.fat) + |ChainOf(L, s)|
  {
    Commit(img, L, img', s, e, ch);
    NewFile(img, L, img', s, e, ch);
    if s in L.chain {
      OldFile(img, L, img', s, e, ch);
    }
    StepIsPut(TreeAt(img, L), s.d, Gone(MetaOf(img), L, s), e.name, File(Content(img'.region, ch, e.size)));
  }

  lemma RoomChanged(img: Image, L: Layout, img': Image, s: Slot, e: Entry, ch: seq<nat>) returns (n: nat)
    requires Changed(img, L, img', s, e, ch) && !(e.Owns() && e.IsDir())
    ensures Rooms(img', NextLayout(MetaOf(img), L, s, e, ch)) == Rooms(img, L)[s.d := n] - GoneDirs(MetaOf(img), L, s)
    ensures s.d in Rooms(img, L) && n + Reuse(MetaOf(img).At(s)) == Rooms(img, L)[s.d] + Reuse(e)
  {
    var m, m', L' := MetaOf(img), MetaOf(img'), NextLayout(MetaOf(img), L, s, e, ch);
    ChangedStep(img, L, img', s, e, ch);
    StepRooms(m, L, m', L', s, e, ch);
    RoomsAre(img, L);
    RoomsAre(img', L');
    RoomSet(m.dirs[s.d], s.j, e);
    n := Room(m'.DirAt(s.d));
  }

  lemma OwnedSlot(m: Meta, L: Layout, s: Slot)
    requires SlotsOk(m, L) && s in L.chain
    ensures Reuse(m.At(s)) == 0
  {
  }

  lemma RoomSame(room: map<nat, nat>, d: nat, n: nat)
    requires d in room && n == room[d]
    ensures room[d := n] - {} == room
  {
  }

  lemma RoomLess(room: map<nat, nat>, d: nat, n: nat)
    requires d in room && n + 1 == room[d]
    ensures room[d := n] - {} == Less(room, d)
  {
  }

  lemma RoomBack(room: map<nat, nat>, d: nat, n: nat, e: Entry)
    requires d in room && n == room[d] + 1
    ensures room[d := n] - (if e.IsDir() then {e.first as nat} else {}) == RoomsWithout(room, d, e)
  {
  }

  /** A file's entry that stays a file's entry. */
  lemma RoomKept(img: Image, L: Layout, img': Image, s: Slot, e: Entry, ch: seq<nat>)
    requires Changed(img, L, img', s, e, ch) && s in L.chain && !MetaOf(img).At(s).IsDir() && e.Owns() && !e.IsDir()
    ensures Rooms(img', NextLayout(MetaOf(img), L, s, e, ch)) == Rooms(img, L)
  {
    var n := RoomChanged(img, L, img', s, e, ch);
    OwnedSlot(MetaOf(img), L, s);
    RoomSame(Rooms(img, L), s.d, n);
  }

  /** A file's entry in a free slot. */
  lemma RoomTaken(img: Image, L: Layout, img': Image, s: Slot, e: Entry, ch: seq<nat>)
    requires Changed(img, L, img', s, e, ch) && s !in L.chain && e.Owns() && !e.IsDir() && Reuse(MetaOf(img).At(s)) == 1
    ensures Rooms(img', NextLayout(MetaOf(img), L, s, e, ch)) == Less(Rooms(img, L), s.d)
  {
    var n := RoomChanged(img, L, img', s, e, ch);
    RoomLess(Rooms(img, L), s.d, n);
  }

  /** An entry that is deleted. */
  lemma RoomGiven(img: Image, L: Layout, img': Image, s: Slot, e: Entry)
    requires Changed(img, L, img', s, e, []) && s in L.chain && e.IsDeleted()
    ensures Rooms(img', NextLayout(MetaOf(img), L, s, e, [])) == RoomsWithout(Rooms(img, L), s.d, MetaOf(img).At(s))
  {
    var n := RoomChanged(img, L, img', s, e, []);
    OwnedSlot(MetaOf(img), L, s);
    RoomBack(Rooms(img, L), s.d, n, MetaOf(img).At(s));
  }

  // ---- create ----

  /** fat_create_file: a new empty file, unless the name is taken or the directory has no slot left. */
  ghost predicate Creates(t: Tree, room: map<nat, nat>, path: Text, code: int, t': Tree, room': map<nat, nat>) {
    match Resolve(t, path)
    case Failed(c) => code == c
    case Parent(d, n) =>
      && d in t
      && code == (if n in t[d] then FAT_ERR_EXISTS else if Full(room, d) then FAT_ERR_NO_SPACE else FAT_OK)
      && (code == FAT_OK ==> t' == Put(t, d, n, File([])) && room' == Less(room, d))
  }

  lemma DirOkCreate(es: seq<Entry>, j: nat, e: Entry)
    requires DirOk(es) && j < |es| && j == FreeSlot(es, 0) && Find(es, e.name, 0) == |es| && !e.IsEnd()
    ensures DirOk(es[j := e])
  {
    FindExact(es, e.name);
    DirOkUpdate(es, j, e);
  }

  /** An entry was rewritten and the table changed along with it. */
  lemma EntryChanged(img: Image, L: Layout, img': Image, s: Slot, e: Entry, ch: seq<nat>)
    requires img.Shape() && VolumeOk(MetaOf(img), L) && s.d in L.rank && |img'.fat| == |img.fat|
    requires EntrySet(img.(fat := img'.fat), img', s.d, s.j, e)
    requires DirOk(DirOf(img.region[s.d])[s.j := e])
    requires FatStep(img.fat, img'.fat, ChainOf(L, s), ch)
    requires KindStep(MetaOf(img), L, MetaOf(img'), s, e, ch)
    ensures Changed(img, L, img', s, e, ch)
  {
    DirRegion(img, L, s.d);
  }

  lemma FileEntryOwns(e: Entry)
    requires UserName(e.name) && e.attr == ATTR_FILE
    ensures e.Owns() && !e.IsDir() && !e.IsEnd()
  {
  }

  lemma CreateChanged(img: Image, L: Layout, img': Image, s: Slot, e: Entry)
    requires img.Shape() && VolumeOk(MetaOf(img), L) && s.d in L.rank && EntrySet(img, img', s.d, s.j, e)
    requires s.j == FreeSlot(DirOf(img.region[s.d]), 0) && Find(DirOf(img.region[s.d]), e.name, 0) == |DirOf(img.region[s.d])|
    requires e.Owns() && !e.IsDir() && e.first == 0 && e.size == 0
    ensures Changed(img, L, img', s, e, []) && s !in L.chain
  {
    DirRegion(img, L, s.d);
    DirOkCreate(DirOf(img.region[s.d]), s.j, e);
    CeilDivZero(e.size, img.g.ClusterBytes());
    assert !MetaOf(img).At(s).Owns();
    assert img.(fat := img'.fat) == img;
    EntryChanged(img, L, img', s, e, []);
  }

  lemma CreateDone(img: Image, L: Layout, img': Image, s: Slot, e: Entry)
    requires img.Shape() && VolumeOk(MetaOf(img), L) && s.d in L.rank && EntrySet(img, img', s.d, s.j, e)
    requires s.j == FreeSlot(DirOf(img.region[s.d]), 0)
    requires UserName(e.name) && s.d in TreeAt(img, L) && e.name !in TreeAt(img, L)[s.d]
    requires e.attr == ATTR_FILE && e.first == 0 && e.size == 0
    ensures
      var L' := NextLayout(MetaOf(img), L, s, e, []);
      && VolumeOk(MetaOf(img'), L')
      && TreeAt(img', L') == Put(TreeAt(img, L), s.d, e.name, File([]))
      && Rooms(img', L') == Less(Rooms(img, L), s.d)
  {
    FileEntryOwns(e);
    DirRegion(img, L, s.d);
    LookupAt(img, L, s.d, e.name);
    CreateChanged(img, L, img', s, e);
    CommitFile(img, L, img', s, e, []);
    RoomTaken(img, L, img', s, e, []);
    assert Content(img'.region, [], 0) == [];
  }

  lemma RoomFull(m: Meta, L: Layout, d: nat)
    requires d in L.rank
    ensures Full(RoomsOf(m, L), d) <==> FreeSlot(m.DirAt(d), 0) == |m.DirAt(d)|
  {
    assert m.DirAt(d)[0..] == m.DirAt(d);
    RoomFound(m.DirAt(d), 0);
  }

  lemma RoomIn(img: Image, L: Layout, d: nat)
    requires img.Shape() && VolumeOk(MetaOf(img), L) && d in L.rank
    ensures d < |img.region| && (Full(Rooms(img, L), d) <==> FreeSlot(DirOf(img.region[d]), 0) == |DirOf(img.region[d])|)
  {
    DirRegion(img, L, d);
    RoomsAre(img, L);
    RoomFull(MetaOf(img), L, d);
  }

  /** find_free_slot_in_ref in a directory of the tree. */
  method FindRoom(v: Volume, dir: nat) returns (found: bool, lba: int, idx: nat, ghost j: nat)
    requires Valid(v) && dir in v.layout.rank
    ensures dir < v.g.backed && dir != 1
    ensures found <==> !Full(Rooms(v.img, v.layout), dir)
    ensures found ==> j == FreeSlot(DirOf(v.img.region[dir]), 0) && j < 16 * v.g.RegionSize(dir)
    ensures found ==> Located(v.g, lba, idx, dir, j)
  {
    DirRegion(v.img, v.layout, dir);
    RoomIn(v.img, v.layout, dir);
    found, lba, idx, j := FindFreeSlotInRef(v, dir);
  }

  /** Writes an empty file's entry into a free slot. */
  method AddFileEntry(v: Volume, lba: int, idx: nat, n83: Name, ghost s: Slot)
    requires Valid(v) && s.d in v.layout.rank && Located(v.g, lba, idx, s.d, s.j)
    requires s.j == FreeSlot(DirOf(v.img.region[s.d]), 0)
    requires UserName(n83) && s.d in TreeAt(v.img, v.layout) && n83 !in TreeAt(v.img, v.layout)[s.d]
    modifies v
    ensures Valid(v) && v.img.fat == old(v.img.fat)
    ensures TreeAt(v.img, v.layout) == Put(old(TreeAt(v.img, v.layout)), s.d, n83, File([]))
    ensures Rooms(v.img, v.layout) == Less(old(Rooms(v.img, v.layout)), s.d)
  {
    ghost var e := Entry(n83, ATTR_FILE, NO_RESERVED, 0, 0);
    DirWriteEntry(v, lba, idx, n83, 0, 0, ATTR_FILE, s.d, s.j);
    CreateDone(old(v.img), v.layout, v.img, s, e);
    SetLayout(v, NextLayout(MetaOf(old(v.img)), v.layout, s, e, []));
  }

  /** fat_create_file. */
  method FatCreateFile(v: Volume, path: Text) returns (code: int)
    requires Valid(v)
    modifies v
    ensures Valid(v) && FreeCount(v.img.fat) == old(FreeCount(v.img.fat))
    ensures Creates(old(TreeAt(v.img, v.layout)), old(Rooms(v.img, v.layout)), path, code, TreeAt(v.img, v.layout), Rooms(v.img, v.layout))
    ensures code != FAT_OK ==> v.disk == old(v.disk) && v.img == old(v.img) && v.layout == old(v.layout)
  {
    var parent, leaf;
    code, parent, leaf := ResolveParentDir(v, path);
    if code != FAT_OK {
      return;
    }
    var n83 := NameTo83(leaf);
    To83UserName(leaf);
    var found, lba, idx, j := FindEntry(v, parent, n83);
    if found {
      return FAT_ERR_EXISTS;
    }
    found, lba, idx, j := FindRoom(v, parent);
    if !found {
      return FAT_ERR_NO_SPACE;
    }
    AddFileEntry(v, lba, idx, n83, Slot(parent, j));
    code := FAT_OK;
  }

  // ---- delete and rmdir ----

  lemma LinkInRange(m: Meta, L: Layout, s: Slot, i: nat)
    requires VolumeOk(m, L) && s in L.chain && i < |L.chain[s]|
    ensures 2 <= L.chain[s][i] < |m.fat|
    ensures var next := m.fat[L.chain[s][i]]; next < |m.fat| || next >= EOC
  {
    assert EntryOk(m, L, s);
    if i + 1 < |L.chain[s]| {
      assert m.fat[L.chain[s][i]] == L.chain[s][i + 1];
    }
  }

  lemma VolumeInRange(m: Meta, L: Layout)
    requires VolumeOk(m, L)
    ensures InRange(m.fat)
  {
    forall c | 2 <= c < |m.fat| ensures m.fat[c] < |m.fat| || m.fat[c] >= EOC {
      if m.fat[c] != 0 {
        LinkInRange(m, L, L.owner[c].s, L.owner[c].i);
      }
    }
  }

  lemma ZeroedFatStep(fat: seq<u16>, ch: seq<nat>)
    requires forall c :: c in ch ==> c < |fat|
    ensures FatStep(fat, Zeroed(fat, ch), ch, [])
  {
  }

  function Deleted(e: Entry): Entry {
    e.(name := [DELETED] + e.name[1..])
  }

  lemma DirOkDelete(es: seq<Entry>, j: nat)
    requires DirOk(es) && j < |es| && es[j].Visible()
    ensures DirOk(es[j := Deleted(es[j])]) && !Deleted(es[j]).Owns()
  {
    NoEndBefore(es, j);
    DirOkUpdate(es, j, Deleted(es[j]));
  }

  lemma RemoveChanged(img: Image, L: Layout, img': Image, s: Slot)
    requires img.Shape() && VolumeOk(MetaOf(img), L) && s in L.chain
    requires MetaOf(img).At(s).IsDir() ==> NoneOwned(MetaOf(img).DirAt(MetaOf(img).At(s).first))
    requires EntrySet(img.(fat := Zeroed(img.fat, L.chain[s])), img', s.d, s.j, Deleted(MetaOf(img).At(s)))
    ensures Changed(img, L, img', s, Deleted(MetaOf(img).At(s)), [])
  {
    var m := MetaOf(img);
    DirRegion(img, L, s.d);
    assert EntryOk(m, L, s);
    forall c | c in L.chain[s] ensures c < |img.fat| {
      ChainInUse(img.fat, m.At(s).first, L.chain[s], c);
    }
    ZeroedFatStep(img.fat, L.chain[s]);
    DirOkDelete(DirOf(img.region[s.d]), s.j);
    assert m.At(s).IsDir() ==> m.At(s).first < |m.dirs|;
    EntryChanged(img, L, img', s, Deleted(m.At(s)), []);
  }

  lemma RemoveDone(img: Image, L: Layout, img': Image, s: Slot)
    requires img.Shape() && VolumeOk(MetaOf(img), L) && s in L.chain
    requires MetaOf(img).At(s).IsDir() ==> NoneOwned(MetaOf(img).DirAt(MetaOf(img).At(s).first))
    requires EntrySet(img.(fat := Zeroed(img.fat, L.chain[s])), img', s.d, s.j, Deleted(MetaOf(img).At(s)))
    ensures
      var L', t := NextLayout(MetaOf(img), L, s, Deleted(MetaOf(img).At(s)), []), TreeAt(img, L);
      && VolumeOk(MetaOf(img'), L')
      && s.d in t && MetaOf(img).At(s).name in t[s.d]
      && TreeAt(img', L') == TreeStep(t, s.d, Some(MetaOf(img).At(s).name), None)
      && FreeCount(img'.fat) == FreeCount(img.fat) + |L.chain[s]|
      && Rooms(img', L') == RoomsWithout(Rooms(img, L), s.d, MetaOf(img).At(s))
  {
    RemoveChanged(img, L, img', s);
    Commit(img, L, img', s, Deleted(MetaOf(img).At(s)), []);
    RoomGiven(img, L, img', s, Deleted(MetaOf(img).At(s)));
  }

  lemma DeletedSector(img: Image, s: Slot)
    requires img.Shape() && s.d < img.g.backed && s.j < 16 * img.g.RegionSize(s.d)
    ensures
      var buff := img.region[s.d][s.j / 16];
      && EntryAt(buff, s.j % 16) == MetaOf(img).At(s)
      && OneEntry(buff, SetName(buff, s.j % 16, [DELETED]), s.j % 16, Deleted(MetaOf(img).At(s)))
  {
    DirOfAt(img.region[s.d], s.j / 16, s.j % 16);
    SetNameAt(img.region[s.d][s.j / 16], s.j % 16, [DELETED]);
  }

  /** free_chain of an entry's chain, then a write of its sector, which was read before. */
  method EraseEntry(v: Volume, lba: int, buff: Sector, first: u16, ghost s: Slot, ghost ch: seq<nat>, ghost e: Entry)
    requires v.Mounted() && InRange(v.img.fat) && Chain(v.img.fat, first, ch) && Located(v.g, lba, s.j % 16, s.d, s.j)
    requires OneEntry(v.img.region[s.d][s.j / 16], buff, s.j % 16, e)
    modifies v`disk, v`img, v`trace
    ensures v.Mounted() && EntrySet(old(v.img).(fat := Zeroed(old(v.img.fat), ch)), v.img, s.d, s.j, e)
  {
    FreeWalkChain(v.img.fat, first, ch);
    FreeChain(v, first);
    assert v.img == old(v.img).(fat := Zeroed(old(v.img.fat), ch));
    WriteDirSector(v, lba, buff, s.d, s.j, e);
  }

  /** What erasing an entry needs to know of it. */
  lemma EraseFacts(img: Image, L: Layout, s: Slot)
    requires img.Shape() && VolumeOk(MetaOf(img), L) && s in L.chain
    ensures InRange(img.fat) && Chain(img.fat, MetaOf(img).At(s).first, L.chain[s])
    ensures s.d < img.g.backed && s.j < 16 * img.g.RegionSize(s.d)
    ensures
      var buff := img.region[s.d][s.j / 16];
      && EntryAt(buff, s.j % 16) == MetaOf(img).At(s)
      && OneEntry(buff, SetName(buff, s.j % 16, [DELETED]), s.j % 16, Deleted(MetaOf(img).At(s)))
  {
    VolumeInRange(MetaOf(img), L);
    assert EntryOk(MetaOf(img), L, s);
    DirRegion(img, L, s.d);
    DeletedSector(img, s);
  }

  /** Without the entry the volume is well formed and the tree has lost what the entry stood for. */
  ghost predicate Removed(img: Image, L: Layout, img': Image, L': Layout, s: Slot) {
    var t, e := TreeAt(img, L), MetaOf(img).At(s);
    && FoldedVolume(img', L') && s.d in t && e.name in t[s.d] && TreeAt(img', L') == TreeStep(t, s.d, Some(e.name), None)
    && FreeCount(img'.fat) == FreeCount(img.fat) + |ChainOf(L, s)| && Rooms(img', L') == RoomsWithout(Rooms(img, L), s.d, e)
  }

  lemma FoldedRemoveDone(img: Image, L: Layout, img': Image, s: Slot)
    requires img.Shape() && FoldedVolume(img, L) && s in L.chain
    requires MetaOf(img).At(s).IsDir() ==> NoneOwned(MetaOf(img).DirAt(MetaOf(img).At(s).first))
    requires EntrySet(img.(fat := Zeroed(img.fat, L.chain[s])), img', s.d, s.j, Deleted(MetaOf(img).At(s)))
    ensures Removed(img, L, img', NextLayout(MetaOf(img), L, s, Deleted(MetaOf(img).At(s)), []), s)
  {
    UnfoldVolume(img, L);
    RemoveDone(img, L, img', s);
  }

  lemma FoldedEraseFacts(img: Image, L: Layout, s: Slot)
    requires img.Shape() && FoldedVolume(img, L) && s in L.chain
    ensures InRange(img.fat) && Chain(img.fat, MetaOf(img).At(s).first, L.chain[s])
    ensures s.d < img.g.backed && s.j < 16 * img.g.RegionSize(s.d)
    ensures
      var buff := img.region[s.d][s.j / 16];
      && EntryAt(buff, s.j % 16) == MetaOf(img).At(s)
      && OneEntry(buff, SetName(buff, s.j % 16, [DELETED]), s.j % 16, Deleted(MetaOf(img).At(s)))
  {
    UnfoldVolume(img, L);
    EraseFacts(img, L, s);
  }

  /** The end of fat_delete_file and fat_rmdir: release the chain, then mark the entry deleted in the sector
      that was read before. */
  method RemoveEntry(v: Volume, lba: int, idx: nat, buff: Sector, ghost img: Image, ghost L: Layout, ghost s: Slot)
    requires v.Mounted() && v.img == img && v.layout == L && FoldedVolume(img, L) && s in L.chain && Located(v.g, lba, idx, s.d, s.j)
    requires buff == img.region[s.d][s.j / 16]
    requires MetaOf(img).At(s).IsDir() ==> NoneOwned(MetaOf(img).DirAt(MetaOf(img).At(s).first))
    modifies v
    ensures Valid(v) && Removed(img, L, v.img, v.layout, s)
  {
    ghost var e := MetaOf(img).At(s);
    FoldedEraseFacts(img, L, s);
    EraseEntry(v, lba, SetName(buff, idx, [DELETED]), EntryAt(buff, idx).first, s, L.chain[s], Deleted(e));
    FoldedRemoveDone(img, L, v.img, s);
    SetFolded(v, NextLayout(MetaOf(img), L, s, Deleted(e), []));
  }

  /** fat_delete_file: the file goes and its clusters are free again. */
  ghost predicate Deletes(t: Tree, free: nat, room: map<nat, nat>, g: Geometry, path: Text, code: int, t': Tree, free': nat, room': map<nat, nat>)
    requires g.Ok()
  {
    match Locate(t, path)
    case Failed(c) => code == c
    case Parent(d, n) =>
      && code == (if t[d][n].Dir? then FAT_ERR_INVALID else FAT_OK)
      && (code == FAT_OK ==>
            t' == Drop(t, d, n) && free' == free + CeilDiv(|t[d][n].content|, g.ClusterBytes()) && room' == More(room, d))
  }

  /** The part of fat_delete_file after the entry was found. */
  method DeleteEntry(v: Volume, lba: int, idx: nat, e: Entry, buff: Sector, ghost s: Slot) returns (code: int)
    requires Valid(v) && s in v.layout.chain && Located(v.g, lba, idx, s.d, s.j)
    requires buff == v.img.region[s.d][s.j / 16]
    requires e == MetaOf(v.img).At(s)
    modifies v
    ensures Valid(v) && v.g.Ok() && code == (if e.IsDir() then FAT_ERR_INVALID else FAT_OK)
    ensures code != FAT_OK ==> v.img == old(v.img) && v.layout == old(v.layout) && v.disk == old(v.disk)
    ensures code == FAT_OK ==>
      var t := old(TreeAt(v.img, v.layout));
      && s.d in t && e.name in t[s.d] && t[s.d][e.name].File? && TreeAt(v.img, v.layout) == Drop(t, s.d, e.name)
      && FreeCount(v.img.fat) == old(FreeCount(v.img.fat)) + CeilDiv(|t[s.d][e.name].content|, v.g.ClusterBytes())
      && Rooms(v.img, v.layout) == More(old(Rooms(v.img, v.layout)), s.d)
  {
    if e.IsDir() {
      return FAT_ERR_INVALID;
    }
    EntryAtTree(v.img, v.layout, s);
    FileNode(v.img, v.layout, s, e);
    ContentLength(v.img, v.layout, s);
    StepIsDrop(TreeAt(v.img, v.layout), s.d, e.name);
    RemoveEntry(v, lba, idx, buff, v.img, v.layout, s);
    code := FAT_OK;
  }

  /** fat_delete_file. */
  method FatDeleteFile(v: Volume, path: Text) returns (code: int)
    requires Valid(v)
    modifies v
    ensures Valid(v) && v.g.Ok()
    ensures Deletes(old(TreeAt(v.img, v.layout)), old(FreeCount(v.img.fat)), old(Rooms(v.img, v.layout)), v.g, path, code,
                    TreeAt(v.img, v.layout), FreeCount(v.img.fat), Rooms(v.img, v.layout))
    ensures code != FAT_OK ==> v.disk == old(v.disk) && v.img == old(v.img) && v.layout == old(v.layout)
  {
    var lba, idx, n83, e, buff;
    ghost var s;
    code, lba, idx, n83, e, buff, s := LocateEntry(v, path);
    if code == FAT_OK {
      code := DeleteEntry(v, lba, idx, e, buff, s);
    }
  }

  // ---- rename ----

  /** fat_rename_file: the file moves to a name that is not taken, within one directory. */
  ghost predicate Renames(t: Tree, oldPath: Text, newPath: Text, code: int, t': Tree) {
    match Resolve(t, oldPath)
    case Failed(c) => code == c
    case Parent(d, n) =>
      match Resolve(t, newPath)
      case Failed(c) => code == c
      case Parent(d', n') =>
        if d != d' then code == FAT_ERR_INVALID
        else
          && d in t
          && code == (if n !in t[d] then FAT_ERR_NOT_FOUND else if n' in t[d] then FAT_ERR_EXISTS
                      else if t[d][n].Dir? then FAT_ERR_INVALID else FAT_OK)
          && (code == FAT_OK ==> t' == Put(Drop(t, d, n), d, n', t[d][n]))
  }

  lemma DirOkRename(es: seq<Entry>, j: nat, n: Name)
    requires DirOk(es) && j < |es| && es[j].Owns() && UserName(n) && Find(es, n, 0) == |es|
    ensures DirOk(es[j := es[j].(name := n)]) && es[j].(name := n).Owns()
  {
    FindExact(es, n);
    NoEndBefore(es, j);
    DirOkUpdate(es, j, es[j].(name := n));
  }

  lemma RenameChanged(img: Image, L: Layout, img': Image, s: Slot, n: Name)
    requires img.Shape() && VolumeOk(MetaOf(img), L) && s in L.chain && !MetaOf(img).At(s).IsDir()
    requires UserName(n) && Find(DirOf(img.region[s.d]), n, 0) == |DirOf(img.region[s.d])|
    requires EntrySet(img, img', s.d, s.j, MetaOf(img).At(s).(name := n))
    ensures Changed(img, L, img', s, MetaOf(img).At(s).(name := n), L.chain[s])
    ensures MetaOf(img).At(s).(name := n).Owns()
  {
    DirRegion(img, L, s.d);
    DirOkRename(DirOf(img.region[s.d]), s.j, n);
    assert EntryOk(MetaOf(img), L, s);
    assert img.(fat := img'.fat) == img;
    EntryChanged(img, L, img', s, MetaOf(img).At(s).(name := n), L.chain[s]);
  }

  lemma RenameContent(img: Image, L: Layout, img': Image, s: Slot)
    requires img.Shape() && VolumeOk(MetaOf(img), L) && s in L.chain && !MetaOf(img).At(s).IsDir()
    requires |img'.region| == |img.region| && forall r :: 0 <= r < |img.region| && r != s.d ==> img'.region[r] == img.region[r]
    ensures Sectors(img.region, L.chain[s]) == Sectors(img'.region, L.chain[s])
  {
    var ch := L.chain[s];
    forall i | 0 <= i < |ch| ensures ch[i] < |img.region| && img.region[ch[i]] == img'.region[ch[i]] {
      OwnedInUse(MetaOf(img), L, s, i);
      FileNotDir(MetaOf(img), L, s, i, s.d);
    }
    SectorsSame(img.region, img'.region, ch);
  }

  lemma RenameDone(img: Image, L: Layout, img': Image, s: Slot, n: Name)
    requires img.Shape() && VolumeOk(MetaOf(img), L) && s in L.chain && !MetaOf(img).At(s).IsDir()
    requires UserName(n) && s.d in TreeAt(img, L) && n !in TreeAt(img, L)[s.d]
    requires EntrySet(img, img', s.d, s.j, MetaOf(img).At(s).(name := n))
    ensures
      var x, t := MetaOf(img).At(s), TreeAt(img, L);
      var L' := NextLayout(MetaOf(img), L, s, x.(name := n), L.chain[s]);
      && VolumeOk(MetaOf(img'), L')
      && s.d in t && x.name in t[s.d]
      && TreeAt(img', L') == Put(Drop(t, s.d, x.name), s.d, n, t[s.d][x.name])
      && Rooms(img', L') == Rooms(img, L)
  {
    var m, x, e, ch := MetaOf(img), MetaOf(img).At(s), MetaOf(img).At(s).(name := n), L.chain[s];
    DirRegion(img, L, s.d);
    LookupAt(img, L, s.d, n);
    RenameChanged(img, L, img', s, n);
    Commit(img, L, img', s, e, ch);
    EntryAtTree(img, L, s);
    FileNode(img, L, s, x);
    FileNode(img', NextLayout(m, L, s, e, ch), s, e);
    RenameContent(img, L, img', s);
    RoomKept(img, L, img', s, e, ch);
    StepIsMove(TreeAt(img, L), s.d, x.name, n);
  }

  /** fat_rename_file. */
  method FatRenameFile(v: Volume, oldPath: Text, newPath: Text) returns (code: int)
    requires Valid(v)
    modifies v
    ensures Valid(v) && FreeCount(v.img.fat) == old(FreeCount(v.img.fat))
    ensures Renames(old(TreeAt(v.img, v.layout)), oldPath, newPath, code, TreeAt(v.img, v.layout))
    ensures Rooms(v.img, v.layout) == old(Rooms(v.img, v.layout))
    ensures code != FAT_OK ==> v.disk == old(v.disk) && v.img == old(v.img) && v.layout == old(v.layout)
  {
    var oldParent, oldLeaf, newParent, newLeaf;
    code, oldParent, oldLeaf := ResolveParentDir(v, oldPath);
    if code != FAT_OK {
      return;
    }
    code, newParent, newLeaf := ResolveParentDir(v, newPath);
    if code != FAT_OK {
      return;
    }
    if oldParent != newParent {
      return FAT_ERR_INVALID;
    }
    var old83 := NameTo83(oldLeaf);
    var new83 := NameTo83(newLeaf);
    To83UserName(oldLeaf);
    To83UserName(newLeaf);
    code := RenameIn(v, oldParent, old83, new83);
  }

  /** The part of fat_rename_file inside the common directory. */
  method RenameIn(v: Volume, dir: nat, old83: Name, new83: Name) returns (code: int)
    requires Valid(v) && dir in v.layout.rank && UserName(old83) && UserName(new83)
    modifies v
    ensures Valid(v) && v.img.fat == old(v.img.fat) && dir in old(TreeAt(v.img, v.layout))
    ensures Rooms(v.img, v.layout) == old(Rooms(v.img, v.layout))
    ensures
      var dm := old(TreeAt(v.img, v.layout))[dir];
      code == if old83 !in dm then FAT_ERR_NOT_FOUND else if new83 in dm then FAT_ERR_EXISTS
              else if dm[old83].Dir? then FAT_ERR_INVALID else FAT_OK
    ensures code != FAT_OK ==> v.disk == old(v.disk) && v.img == old(v.img) && v.layout == old(v.layout)
    ensures code == FAT_OK ==>
      TreeAt(v.img, v.layout) == Put(Drop(old(TreeAt(v.img, v.layout)), dir, old83), dir, new83, old(TreeAt(v.img, v.layout))[dir][old83])
  {
    var found, lba, idx, j := FindEntry(v, dir, old83);
    if !found {
      return FAT_ERR_NOT_FOUND;
    }
    var taken, lba', idx', j' := FindEntry(v, dir, new83);
    if taken {
      return FAT_ERR_EXISTS;
    }
    var e, buff := ReadEntry(v, lba, idx, dir, j);
    if e.IsDir() {
      return FAT_ERR_INVALID;
    }
    RenameEntry(v, lba, idx, buff, new83, Slot(dir, j));
    code := FAT_OK;
  }

  lemma RenamedSector(img: Image, s: Slot, n: Name)
    requires img.Shape() && s.d < img.g.backed && s.j < 16 * img.g.RegionSize(s.d)
    ensures
      var buff := img.region[s.d][s.j / 16];
      OneEntry(buff, SetName(buff, s.j % 16, n), s.j % 16, MetaOf(img).At(s).(name := n))
  {
    DirOfAt(img.region[s.d], s.j / 16, s.j % 16);
    var buff := img.region[s.d][s.j / 16];
    SetNameAt(buff, s.j % 16, n);
    assert n + EntryAt(buff, s.j % 16).name[|n|..] == n;
  }

  /** Overwrites the name of a file's entry in its sector. */
  method RenameEntry(v: Volume, lba: int, idx: nat, buff: Sector, new83: Name, ghost s: Slot)
    requires Valid(v) && s in v.layout.chain && Located(v.g, lba, idx, s.d, s.j)
    requires buff == v.img.region[s.d][s.j / 16]
    requires !MetaOf(v.img).At(s).IsDir() && UserName(new83) && s.d in TreeAt(v.img, v.layout) && new83 !in TreeAt(v.img, v.layout)[s.d]
    modifies v
    ensures Valid(v) && v.img.fat == old(v.img.fat)
    ensures
      var t, n := old(TreeAt(v.img, v.layout)), old(MetaOf(v.img)).At(s).name;
      s.d in t && n in t[s.d] && TreeAt(v.img, v.layout) == Put(Drop(t, s.d, n), s.d, new83, t[s.d][n])
    ensures Rooms(v.img, v.layout) == old(Rooms(v.img, v.layout))
  {
    ghost var e := MetaOf(v.img).At(s);
    RenamedSector(v.img, s, new83);
    WriteDirSector(v, lba, SetName(buff, idx, new83), s.d, s.j, e.(name := new83));
    RenameDone(old(v.img), v.layout, v.img, s, new83);
    SetLayout(v, NextLayout(MetaOf(old(v.img)), v.layout, s, e.(name := new83), v.layout.chain[s]));
  }
}
