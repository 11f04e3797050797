/** Valid volumes and path resolution. */
module FileSystem {
  import opened Bytes
  import opened Folding
  import opened Disk
  import opened Fat
  import opened Directory
  import opened Names
  import opened WellFormed
  import opened Tree

  const FAT_OK := 0
  const FAT_ERR_INVALID := -1
  const FAT_ERR_EXISTS := -2
  const FAT_ERR_NOT_FOUND := -3
  const FAT_ERR_NO_SPACE := -4
  const FAT_ERR_TOO_BIG := -5

  ghost predicate Valid(v: Volume)
    reads v
  {
    v.Mounted() && VolumeOk(MetaOf(v.img), v.layout)
  }

  /** Good enough to read from: slots may be lost, but none is wrongly taken for free. */
  ghost predicate ReadValid(v: Volume)
    reads v
  {
    v.Readable() && ReadOk(MetaOf(v.img), v.layout)
  }

  /** Replaces the account of the clusters; the disk stays. */
  ghost method SetLayout(v: Volume, L: Layout)
    requires v.Mounted() && VolumeOk(MetaOf(v.img), L)
    modifies v`layout
    ensures Valid(v) && v.layout == L
  {
    v.layout := L;
  }

  /** A well-formed volume, folded: a method that only passes it on does not have to look inside. */
  ghost predicate FoldedVolume(img: Image, L: Layout) {
    forall k :: Asked(k) ==> VolumeOk(MetaOf(img), L)
  }

  lemma UnfoldVolume(img: Image, L: Layout)
    requires FoldedVolume(img, L)
    ensures VolumeOk(MetaOf(img), L)
  {
    assert Asked(0);
  }

  /** A well-formed volume that is not looked into. */
  ghost predicate Sealed(v: Volume)
    reads v
  {
    v.Mounted() && FoldedVolume(v.img, v.layout)
  }

  ghost method SetFolded(v: Volume, L: Layout)
    requires v.Mounted() && FoldedVolume(v.img, L)
    modifies v`layout
    ensures Valid(v) && v.layout == L
  {
    UnfoldVolume(v.img, L);
    v.layout := L;
  }

  ghost method SetSealed(v: Volume, L: Layout)
    requires v.Mounted() && FoldedVolume(v.img, L)
    modifies v`layout
    ensures Sealed(v) && v.layout == L
  {
    v.layout := L;
  }

  /** The tree of a volume; the recursion keeps proofs from looking into it before they ask (TreeIs). */
  ghost function TreeAt(img: Image, L: Layout): Tree {
    TreeBehind(|img.fat|, img, L)
  }

  ghost function TreeBehind(n: nat, img: Image, L: Layout): Tree {
    if n == 0 then TreeOf(MetaOf(img), img.region, L) else TreeBehind(n - 1, img, L)
  }

  lemma TreeIs(img: Image, L: Layout)
    ensures TreeAt(img, L) == TreeOf(MetaOf(img), img.region, L)
  {
    TreeBehindIs(|img.fat|, img, L);
  }

  lemma {:induction false} TreeBehindIs(n: nat, img: Image, L: Layout)
    ensures TreeBehind(n, img, L) == TreeOf(MetaOf(img), img.region, L)
  {
    if n > 0 {
      TreeBehindIs(n - 1, img, L);
    }
  }

  datatype Resolved = Parent(d: nat, leaf: Name) | Failed(code: int)

  /** Walks all components but the last down from directory d. */
  ghost function Descend(t: Tree, d: nat, comps: seq<Text>): Resolved
    requires comps != []
    decreases |comps|
  {
    if |comps| == 1 then Parent(d, To83(comps[0]))
    else if !Valid83(comps[1]) then Failed(FAT_ERR_INVALID)
    else if d !in t || To83(comps[0]) !in t[d] then Failed(FAT_ERR_NOT_FOUND)
    else if t[d][To83(comps[0])].File? then Failed(FAT_ERR_INVALID)
    else Descend(t, t[d][To83(comps[0])].id, comps[1..])
  }

  /** What a path names: a directory of the tree and a name in it. */
  ghost function Resolve(t: Tree, path: Text): Resolved {
    var comps := Components(path, 0);
    if comps == [] || !Valid83(comps[0]) then Failed(FAT_ERR_INVALID) else Descend(t, 0, comps)
  }

  /** What dir_find finds is in the tree. */
  lemma LookupFound(m: Meta, region: seq<seq<Sector>>, L: Layout, d: nat, n: Name)
    requires ReadOk(m, L) && d in L.rank && UserName(n) && Find(m.dirs[d], n, 0) < |m.dirs[d]|
    ensures
      var s, t := Slot(d, Find(m.dirs[d], n, 0)), TreeOf(m, region, L);
      s in L.chain && m.At(s).name == n && n in t[d] && t[d][n] == NodeAt(m, region, L, s)
  {
    var s := Slot(d, Find(m.dirs[d], n, 0));
    assert m.At(s).Owns();
    SlotOwned(m, L, s);
    EntryInTree(m, region, L, s);
  }

  /** dir_find on a well-formed directory is lookup in the tree. */
  lemma Lookup(m: Meta, region: seq<seq<Sector>>, L: Layout, d: nat, n: Name)
    requires ReadOk(m, L) && d in L.rank && UserName(n)
    ensures
      var j, t := Find(m.dirs[d], n, 0), TreeOf(m, region, L);
      && (j < |m.dirs[d]| <==> n in t[d])
      && (j < |m.dirs[d]| ==>
            Slot(d, j) in L.chain && m.At(Slot(d, j)).name == n && t[d][n] == NodeAt(m, region, L, Slot(d, j)))
  {
    var j := Find(m.dirs[d], n, 0);
    if j < |m.dirs[d]| {
      LookupFound(m, region, L, d, n);
    } else if n in OwnedNames(m.dirs[d]) {
      NamesExact(m.dirs[d], n);
    }
  }

  /** Subdirectories named in the tree are directories of the tree. */
  lemma TreeClosed(m: Meta, region: seq<seq<Sector>>, L: Layout, d: nat, n: Name)
    requires ReadOk(m, L) && d in L.rank && n in TreeOf(m, region, L)[d] && TreeOf(m, region, L)[d][n].Dir?
    ensures TreeOf(m, region, L)[d][n].id in L.rank && TreeOf(m, region, L)[d][n].id >= 2
  {
    NamesExact(m.dirs[d], n);
    var s := Slot(d, Find(m.dirs[d], n, 0));
    SlotOwned(m, L, s);
    assert EntryOk(m, L, s);
    EntryInTree(m, region, L, s);
    NodeIsDir(m, region, L, s, TreeOf(m, region, L)[d][n].id);
  }

  /** The same facts about the tree of a volume. */
  lemma TreeDirs(img: Image, L: Layout)
    ensures forall d :: d in TreeAt(img, L) <==> d in L.rank
  {
    TreeIs(img, L);
  }

  lemma LookupAt(img: Image, L: Layout, d: nat, n: Name)
    requires ReadOk(MetaOf(img), L) && d in L.rank && UserName(n)
    ensures
      var m, t := MetaOf(img), TreeAt(img, L);
      var j := Find(m.dirs[d], n, 0);
      && d in t && (j < |m.dirs[d]| <==> n in t[d])
      && (j < |m.dirs[d]| ==>
            Slot(d, j) in L.chain && m.At(Slot(d, j)).name == n && t[d][n] == NodeAt(m, img.region, L, Slot(d, j)))
  {
    TreeIs(img, L);
    Lookup(MetaOf(img), img.region, L, d, n);
  }

  lemma EntryAtTree(img: Image, L: Layout, s: Slot)
    requires ReadOk(MetaOf(img), L) && s in L.chain
    ensures
      var t, n := TreeAt(img, L), MetaOf(img).At(s).name;
      s.d in t && n in t[s.d] && t[s.d][n] == NodeAt(MetaOf(img), img.region, L, s)
  {
    TreeIs(img, L);
    EntryInTree(MetaOf(img), img.region, L, s);
  }

  lemma ClosedAt(img: Image, L: Layout, d: nat, n: Name)
    requires ReadOk(MetaOf(img), L) && d in L.rank && d in TreeAt(img, L) && n in TreeAt(img, L)[d] && TreeAt(img, L)[d][n].Dir?
    ensures TreeAt(img, L)[d][n].id in L.rank && TreeAt(img, L)[d][n].id >= 2
  {
    TreeIs(img, L);
    TreeClosed(MetaOf(img), img.region, L, d, n);
  }

  /** A directory of a well-formed volume is a region, read as entries. */
  lemma DirRegion(img: Image, L: Layout, d: nat)
    requires img.Shape() && ReadOk(MetaOf(img), L) && d in L.rank
    ensures d < img.g.backed && d != 1
    ensures MetaOf(img).dirs[d] == DirOf(img.region[d]) && |MetaOf(img).dirs[d]| == 16 * img.g.RegionSize(d)
  {
  }

  /** dir_find_in_ref: the root region or the cluster of a subdirectory. */
  method DirFindInRef(v: Volume, dir: nat, name83: Name)
    returns (found: bool, lba: int, idx: nat, ghost j: nat)
    requires v.Readable() && dir < v.g.backed && dir != 1
    ensures j == Find(DirOf(v.img.region[dir]), name83, 0)
    ensures found <==> j < 16 * v.g.RegionSize(dir)
    ensures found ==> Located(v.g, lba, idx, dir, j)
  {
    if dir == 0 {
      found, lba, idx, j := DirFindInRegion(v, v.g.RootStart(), v.g.rootSectors, name83, 0);
    } else {
      var start := v.g.DataStart() + (dir - 2) * v.g.secPerClus;
      found, lba, idx, j := DirFindInRegion(v, start, v.g.secPerClus, name83, dir);
    }
  }

  /** find_free_slot_in_ref. */
  method FindFreeSlotInRef(v: Volume, dir: nat) returns (found: bool, lba: int, idx: nat, ghost j: nat)
    requires v.Readable() && dir < v.g.backed && dir != 1
    ensures j == FreeSlot(DirOf(v.img.region[dir]), 0)
    ensures found <==> j < 16 * v.g.RegionSize(dir)
    ensures found ==> Located(v.g, lba, idx, dir, j)
  {
    if dir == 0 {
      found, lba, idx, j := FindFreeSlotInRegion(v, v.g.RootStart(), v.g.rootSectors, 0);
    } else {
      var start := v.g.DataStart() + (dir - 2) * v.g.secPerClus;
      found, lba, idx, j := FindFreeSlotInRegion(v, start, v.g.secPerClus, dir);
    }
  }

  /** dir_find_in_ref in a directory of the tree. */
  method FindEntry(v: Volume, dir: nat, name83: Name)
    returns (found: bool, lba: int, idx: nat, ghost j: nat)
    requires ReadValid(v) && dir in v.layout.rank && UserName(name83)
    ensures dir in TreeAt(v.img, v.layout) && dir < v.g.backed && dir != 1
    ensures found <==> name83 in TreeAt(v.img, v.layout)[dir]
    ensures found ==>
      && Located(v.g, lba, idx, dir, j)
      && Slot(dir, j) in v.layout.chain
      && MetaOf(v.img).At(Slot(dir, j)).name == name83
      && TreeAt(v.img, v.layout)[dir][name83] == NodeAt(MetaOf(v.img), v.img.region, v.layout, Slot(dir, j))
  {
    DirRegion(v.img, v.layout, dir);
    LookupAt(v.img, v.layout, dir, name83);
    found, lba, idx, j := DirFindInRef(v, dir, name83);
  }

  /** dir_read_entry_in_ref: the sector is read again and the entry copied out. */
  method ReadEntry(v: Volume, lba: int, idx: nat, ghost d: nat, ghost j: nat) returns (e: Entry, buff: Sector)
    requires v.Readable() && Located(v.g, lba, idx, d, j)
    ensures e == MetaOf(v.img).At(Slot(d, j)) == EntryAt(buff, idx)
    ensures buff == v.img.region[d][j / 16]
  {
    buff := ReadSector(v, lba, d, j / 16);
    e := EntryAt(buff, idx);
    DirOfAt(v.img.region[d], j / 16, j % 16);
  }

  /** The descent of resolve_parent_dir into one component. */
  method OpenSubdir(v: Volume, parent: nat, name: Text) returns (code: int, child: nat)
    requires ReadValid(v) && parent in v.layout.rank && Valid83(name)
    ensures parent in TreeAt(v.img, v.layout)
    ensures code == FAT_ERR_NOT_FOUND <==> To83(name) !in TreeAt(v.img, v.layout)[parent]
    ensures code == FAT_ERR_INVALID ==> To83(name) in TreeAt(v.img, v.layout)[parent] && TreeAt(v.img, v.layout)[parent][To83(name)].File?
    ensures code == FAT_OK ==>
      To83(name) in TreeAt(v.img, v.layout)[parent] && TreeAt(v.img, v.layout)[parent][To83(name)] == Dir(child) && child in v.layout.rank
    ensures code in {FAT_OK, FAT_ERR_NOT_FOUND, FAT_ERR_INVALID}
  {
    child := 0;
    var name83 := NameTo83(name);
    To83UserName(name);
    var found, lba, idx, j := FindEntry(v, parent, name83);
    if !found {
      return FAT_ERR_NOT_FOUND, child;
    }
    var entry, buff := ReadEntry(v, lba, idx, parent, j);
    if !entry.IsDir() {
      return FAT_ERR_INVALID, child;
    }
    ClosedAt(v.img, v.layout, parent, name83);
    assert entry.first >= 2; // the source's return for a directory without a cluster is not reached
    return FAT_OK, entry.first;
  }

  /** resolve_parent_dir. */
  method ResolveParentDir(v: Volume, path: Text) returns (code: int, parent: nat, leaf: Text)
    requires ReadValid(v)
    ensures code == FAT_OK ==>
      && Resolve(TreeAt(v.img, v.layout), path) == Parent(parent, To83(leaf))
      && parent in v.layout.rank && Valid83(leaf)
    ensures code != FAT_OK ==> Resolve(TreeAt(v.img, v.layout), path) == Failed(code)
  {
    ghost var t := TreeAt(v.img, v.layout);
    var got, pos;
    parent := 0;
    got, pos, leaf := PathNextComponent(path, 0);
    ghost var comps := Components(path, 0);
    if got == -1 {
      TooLongInvalid(comps[0]);
    }
    if got <= 0 {
      return FAT_ERR_INVALID, parent, leaf;
    }
    var ok := NameIsValid83(leaf);
    if !ok {
      return FAT_ERR_INVALID, parent, leaf;
    }
    while true
      invariant pos <= |path| && comps == [leaf] + Components(path, pos)
      invariant parent in v.layout.rank && Valid83(leaf)
      invariant Resolve(t, path) == Descend(t, parent, comps)
      decreases |path| - pos
    {
      var next, pos';
      got, pos', next := PathNextComponent(path, pos);
      if got < 0 {
        TooLongInvalid(comps[1]);
        return FAT_ERR_INVALID, parent, leaf;
      }
      if got == 0 {
        return FAT_OK, parent, leaf;
      }
      ok := NameIsValid83(next);
      if !ok {
        return FAT_ERR_INVALID, parent, leaf;
      }
      var child;
      code, child := OpenSubdir(v, parent, leaf);
      if code != FAT_OK {
        return code, parent, leaf;
      }
      assert comps[1..] == [next] + Components(path, pos');
      parent, leaf, pos := child, next, pos';
      comps := comps[1..];
    }
  }

  /** A path that names something that exists. */
  ghost function Locate(t: Tree, path: Text): Resolved {
    match Resolve(t, path)
    case Failed(c) => Failed(c)
    case Parent(d, n) => if d !in t || n !in t[d] then Failed(FAT_ERR_NOT_FOUND) else Parent(d, n)
  }

  lemma {:induction false} DescendFails(t: Tree, x: nat, comps: seq<Text>)
    requires comps != []
    ensures Descend(t, x, comps) != Failed(FAT_OK)
    decreases |comps|
  {
    if |comps| > 1 && x in t && To83(comps[0]) in t[x] && t[x][To83(comps[0])].Dir? {
      DescendFails(t, t[x][To83(comps[0])].id, comps[1..]);
    }
  }

  /** A path that does not resolve gives an error code. */
  lemma LocateFails(t: Tree, path: Text)
    ensures Resolve(t, path) != Failed(FAT_OK) && Locate(t, path) != Failed(FAT_OK)
  {
    var comps := Components(path, 0);
    if comps != [] {
      DescendFails(t, 0, comps);
    }
  }

  /** Slot s holds the entry a path names. */
  ghost predicate EntryOf(img: Image, L: Layout, path: Text, s: Slot) {
    s in L.chain && Locate(TreeAt(img, L), path) == Parent(s.d, MetaOf(img).At(s).name)
  }

  lemma EntryUnique(img: Image, L: Layout, path: Text, s: Slot, s': Slot)
    requires img.Shape() && ReadOk(MetaOf(img), L) && EntryOf(img, L, path, s) && EntryOf(img, L, path, s')
    ensures s == s'
  {
    var es := MetaOf(img).dirs[s.d];
    FindExact(es, es[s.j].name);
  }

  /** The common start of the operations on an existing entry: resolve the path, find the entry, read its sector. */
  method LocateEntry(v: Volume, path: Text)
    returns (code: int, lba: int, idx: nat, n83: Name, e: Entry, buff: Sector, ghost s: Slot)
    requires ReadValid(v)
    ensures code != FAT_OK ==> Locate(TreeAt(v.img, v.layout), path) == Failed(code)
    ensures code == FAT_OK ==>
      && Locate(TreeAt(v.img, v.layout), path) == Parent(s.d, n83) && UserName(n83)
      && s in v.layout.chain && Located(v.g, lba, idx, s.d, s.j) && buff == v.img.region[s.d][s.j / 16]
      && e == MetaOf(v.img).At(s) == EntryAt(buff, idx) && e.name == n83
      && s.d in TreeAt(v.img, v.layout) && n83 in TreeAt(v.img, v.layout)[s.d]
      && (e.IsDir() <==> TreeAt(v.img, v.layout)[s.d][n83].Dir?)
  {
    lba, idx, n83, e, buff, s := 0, 0, NO_NAME, NO_ENTRY, seq(512, _ => 0), Slot(0, 0);
    var parent, leaf, found;
    code, parent, leaf := ResolveParentDir(v, path);
    if code != FAT_OK {
      return;
    }
    n83 := NameTo83(leaf);
    To83UserName(leaf);
    ghost var j;
    found, lba, idx, j := FindEntry(v, parent, n83);
    if !found {
      code := FAT_ERR_NOT_FOUND;
      return;
    }
    e, buff := ReadEntry(v, lba, idx, parent, j);
    s := Slot(parent, j);
  }

  /** The same for a volume that is not looked into. */
  method LocateFolded(v: Volume, path: Text)
    returns (code: int, lba: int, idx: nat, n83: Name, e: Entry, buff: Sector, ghost s: Slot)
    requires Sealed(v)
    ensures code != FAT_OK ==> Locate(TreeAt(v.img, v.layout), path) == Failed(code)
    ensures code == FAT_OK ==>
      && Locate(TreeAt(v.img, v.layout), path) == Parent(s.d, n83) && UserName(n83)
      && s in v.layout.chain && Located(v.g, lba, idx, s.d, s.j) && buff == v.img.region[s.d][s.j / 16]
      && e == MetaOf(v.img).At(s) == EntryAt(buff, idx) && e.name == n83
      && s.d in TreeAt(v.img, v.layout) && n83 in TreeAt(v.img, v.layout)[s.d]
      && (e.IsDir() <==> TreeAt(v.img, v.layout)[s.d][n83].Dir?)
    ensures code == FAT_OK ==> EntryOf(v.img, v.layout, path, s)
  {
    UnfoldVolume(v.img, v.layout);
    code, lba, idx, n83, e, buff, s := LocateEntry(v, path);
  }
}
