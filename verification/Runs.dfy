/** What users of the volume can rely on: what they write they read back, what they do not name does not change, and
    this holds through any sequence of operations. */
module Runs {
  import opened Bytes
  import opened Folding
  import opened Disk
  import opened Fat
  import opened Directory
  import opened Names
  import opened WellFormed
  import opened Tree
  import opened FileSystem
  import opened CrashSafety
  import opened Namespace
  import opened Subdirs
  import opened Files
  import opened Growing
  import opened Appending

  // ---- paths ----

  /** A file that appears or changes takes no path away and gives none but its own; one that only changes leaves error codes, too. */
  lemma {:induction false} DescendPut(t: Tree, d: nat, n: Name, c: seq<byte>, x: nat, comps: seq<Text>)
    requires comps != [] && d in t && (n in t[d] ==> t[d][n].File?)
    ensures
      var before, after := Descend(t, x, comps), Descend(Put(t, d, n, File(c)), x, comps);
      (before.Parent? <==> after.Parent?) && (n in t[d] || before.Parent? ==> after == before)
    decreases |comps|
  {
    if |comps| > 1 && x in t && To83(comps[0]) in t[x] && t[x][To83(comps[0])].Dir? {
      DescendPut(t, d, n, c, t[x][To83(comps[0])].id, comps[1..]);
    }
  }

  lemma ResolvePut(t: Tree, d: nat, n: Name, c: seq<byte>, path: Text)
    requires d in t && (n in t[d] ==> t[d][n].File?)
    ensures
      var before, after := Resolve(t, path), Resolve(Put(t, d, n, File(c)), path);
      (before.Parent? <==> after.Parent?) && (n in t[d] || before.Parent? ==> after == before)
  {
    var comps := Components(path, 0);
    if comps != [] {
      DescendPut(t, d, n, c, 0, comps);
    }
  }

  /** After a file was given new content, its path reads that content, and every other path reads what it did. */
  lemma PutThenRead(t: Tree, d: nat, n: Name, c: seq<byte>, path: Text, offset: nat, len: nat)
    requires d in t && n in t[d] && t[d][n].File?
    ensures ReadSpec(Put(t, d, n, File(c)), path, offset, len)
      == if Resolve(t, path) == Parent(d, n) then ReadResult(true, Slice(c, offset, len)) else ReadSpec(t, path, offset, len)
  {
    ResolvePut(t, d, n, c, path);
  }

  /** fat_write_file followed by any read. */
  lemma WriteThenRead(t: Tree, free: nat, g: Geometry, path: Text, src: seq<byte>, t': Tree, free': nat,
                      other: Text, offset: nat, len: nat)
    requires g.Ok() && Writes(t, free, g, path, src, FAT_OK, t', free')
    ensures ReadSpec(t', path, offset, len) == ReadResult(true, Slice(src, offset, len))
    ensures Resolve(t, other) != Resolve(t, path) ==> ReadSpec(t', other, offset, len) == ReadSpec(t, other, offset, len)
  {
    LocateFails(t, path);
    var d, n := Locate(t, path).d, Locate(t, path).leaf;
    PutThenRead(t, d, n, src, path, offset, len);
    PutThenRead(t, d, n, src, other, offset, len);
  }

  /** fat_write_file_at followed by any read. */
  lemma WriteAtThenRead(t: Tree, free: nat, g: Geometry, path: Text, at: nat, src: seq<byte>, t': Tree, free': nat,
                        other: Text, offset: nat, len: nat)
    requires g.Ok() && src != [] && WritesAt(t, free, g, path, at, src, FAT_OK, t', free')
    ensures
      && Locate(t, path).Parent?
      && var node := t[Locate(t, path).d][Locate(t, path).leaf];
      && node.File? && at <= |node.content|
      && ReadSpec(t', path, offset, len) == ReadResult(true, Slice(Splice(node.content, at, src), offset, len))
    ensures Resolve(t, other) != Resolve(t, path) ==> ReadSpec(t', other, offset, len) == ReadSpec(t, other, offset, len)
  {
    LocateFails(t, path);
    var d, n := Locate(t, path).d, Locate(t, path).leaf;
    var c := Splice(t[d][n].content, at, src);
    PutThenRead(t, d, n, c, path, offset, len);
    PutThenRead(t, d, n, c, other, offset, len);
  }

  /** A file can be written with any number of bytes up to 8192 and no more, if there are clusters for them beside the old ones. */
  lemma WriteLimit(t: Tree, free: nat, g: Geometry, path: Text, src: seq<byte>, code: int, t': Tree, free': nat)
    requires g.Ok() && Writes(t, free, g, path, src, code, t', free') && Locate(t, path).Parent? && t[Locate(t, path).d][Locate(t, path).leaf].File?
    ensures code == FAT_OK <==> |src| <= 8192 && CeilDiv(|src|, g.ClusterBytes()) <= free
    ensures |src| > 8192 <==> code == FAT_ERR_TOO_BIG
  {
  }

  /** A positioned write starts in the file or at its end and ends within 8192 bytes. */
  lemma WriteAtLimit(t: Tree, free: nat, g: Geometry, path: Text, at: nat, src: seq<byte>, code: int, t': Tree, free': nat)
    requires g.Ok() && src != [] && WritesAt(t, free, g, path, at, src, code, t', free')
    requires Locate(t, path).Parent? && t[Locate(t, path).d][Locate(t, path).leaf].File?
    ensures
      var c := t[Locate(t, path).d][Locate(t, path).leaf].content;
      && (code == FAT_ERR_INVALID <==> at > |c|) && (code == FAT_ERR_TOO_BIG <==> at <= |c| && at + |src| > 8192)
      && (code == FAT_OK <==> at <= |c| && at + |src| <= 8192 && Extra(|c|, at + |src|, g.ClusterBytes()) <= free)
  {
  }

  // ---- the tree is on the disk ----

  lemma SameChains(m: Meta, L: Layout, L': Layout, s: Slot)
    requires VolumeOk(m, L) && VolumeOk(m, L') && s in L.chain
    ensures s in L'.chain && L'.chain[s] == L.chain[s]
  {
    DirsStay(m, L, m, L', s.d);
    assert EntryOk(m, L, s) && EntryOk(m, L', s);
    ChainUnique(m.fat, m.At(s).first, L.chain[s], L'.chain[s]);
  }

  ghost predicate FoldedOk(m: Meta, L: Layout) {
    forall k :: Asked(k) ==> VolumeOk(m, L)
  }

  lemma SameChainOf(m: Meta, L: Layout, L': Layout, s: Slot)
    requires FoldedOk(m, L) && FoldedOk(m, L')
    ensures ChainOf(L, s) == ChainOf(L', s)
  {
    assert Asked(0);
    if s in L.chain {
      SameChains(m, L, L', s);
    } else if s in L'.chain {
      SameChains(m, L', L, s);
    }
  }

  lemma SameNodes(m: Meta, region: seq<seq<Sector>>, L: Layout, L': Layout, d: nat)
    requires FoldedOk(m, L) && FoldedOk(m, L')
    ensures NodesOf(m, region, L, d) == NodesOf(m, region, L', d)
  {
    forall j | 0 <= j < |m.DirAt(d)| ensures ChainOf(L, Slot(d, j)) == ChainOf(L', Slot(d, j)) {
      SameChainOf(m, L, L', Slot(d, j));
    }
  }

  /** The tree is a property of the disk: whatever account shows the volume to be well formed, the tree is the same. */
  lemma TreeUnique(m: Meta, region: seq<seq<Sector>>, L: Layout, L': Layout)
    requires VolumeOk(m, L) && VolumeOk(m, L')
    ensures TreeOf(m, region, L) == TreeOf(m, region, L')
  {
    forall d | d in L.rank ensures d in L'.rank && NodesOf(m, region, L, d) == NodesOf(m, region, L', d) {
      DirsStay(m, L, m, L', d);
      SameNodes(m, region, L, L', d);
    }
    forall d | d in L'.rank ensures d in L.rank {
      DirsStay(m, L', m, L, d);
    }
  }

  // ---- space ----

  ghost function From(used: set<nat>, from: nat): set<nat> {
    set c | c in used && from <= c
  }

  lemma {:induction false} FreeAndUsed(fat: seq<u16>, used: set<nat>, from: nat)
    requires from <= |fat| && forall c :: c in used ==> c < |fat|
    requires forall c :: from <= c < |fat| ==> (fat[c] != 0 <==> c in used)
    ensures |FreeList(fat, from)| + |From(used, from)| == |fat| - from
    decreases |fat| - from
  {
    if from == |fat| {
      assert From(used, from) == {};
    } else {
      FreeAndUsed(fat, used, from + 1);
      if fat[from] == 0 {
        assert From(used, from) == From(used, from + 1);
      } else {
        assert From(used, from) == From(used, from + 1) + {from};
      }
    }
  }

  lemma OwnedAreUsed(m: Meta, L: Layout)
    requires VolumeOk(m, L)
    ensures forall c :: c in L.owner.Keys ==> 2 <= c < |m.fat|
    ensures forall c :: 2 <= c < |m.fat| ==> (m.fat[c] != 0 <==> c in L.owner.Keys)
  {
    forall c | c in L.owner.Keys ensures 2 <= c < |m.fat| {
      OwnedInUse(m, L, L.owner[c].s, L.owner[c].i);
    }
  }

  lemma UsedCount(fat: seq<u16>, used: set<nat>)
    requires 2 <= |fat| && forall c :: c in used ==> 2 <= c < |fat|
    requires forall c :: 2 <= c < |fat| ==> (fat[c] != 0 <==> c in used)
    ensures FreeCount(fat) + |used| == |fat| - 2
  {
    FreeAndUsed(fat, used, 2);
    assert From(used, 2) == used;
  }

  /** No cluster is lost: free ones and those in chains together are all there are. */
  lemma FreePlusUsed(m: Meta, L: Layout)
    requires VolumeOk(m, L) && 2 <= |m.fat|
    ensures FreeCount(m.fat) + |L.owner.Keys| == |m.fat| - 2
  {
    OwnedAreUsed(m, L);
    UsedCount(m.fat, L.owner.Keys);
  }

  // ---- runs ----

  datatype Op =
    | Create(path: Text)
    | Write(path: Text, src: seq<byte>)
    | WriteAt(path: Text, offset: u32, src: seq<byte>)
    | Append(path: Text, src: seq<byte>)
    | Delete(path: Text)
    | Rename(path: Text, newPath: Text)
    | Mkdir(path: Text)
    | Rmdir(path: Text)

  /** What a user can see of a volume. */
  datatype View = View(tree: Tree, free: nat, room: map<nat, nat>)

  ghost function ViewOf(img: Image, L: Layout): View {
    View(TreeAt(img, L), FreeCount(img.fat), Rooms(img, L))
  }

  /** The lengths are 32-bit arguments. */
  predicate Callable(op: Op) {
    (op.WriteAt? || op.Append? || op.Write?) ==> |op.src| < U32_MOD
  }

  /** What each operation owes; a failing one changes nothing. */
  ghost predicate Does(g: Geometry, op: Op, a: View, code: int, b: View)
    requires g.Ok()
  {
    && (code != FAT_OK ==> b == a)
    && match op
       case Create(p) => Creates(a.tree, a.room, p, code, b.tree, b.room) && b.free == a.free
       case Write(p, src) => Writes(a.tree, a.free, g, p, src, code, b.tree, b.free) && b.room == a.room
       case WriteAt(p, offset, src) => WritesAt(a.tree, a.free, g, p, offset, src, code, b.tree, b.free) && b.room == a.room
       case Append(p, src) => Appends(a.tree, a.free, g, p, src, code, b.tree, b.free) && b.room == a.room
       case Delete(p) => Deletes(a.tree, a.free, a.room, g, p, code, b.tree, b.free, b.room)
       case Rename(p, q) => Renames(a.tree, p, q, code, b.tree) && b.free == a.free && b.room == a.room
       case Mkdir(p) => exists id :: Makes(a.tree, a.free, a.room, g, p, code, b.tree, b.free, b.room, id)
       case Rmdir(p) => Unmakes(a.tree, a.free, a.room, p, code, b.tree, b.free, b.room)
  }

  /** The clusters an operation takes before it frees any. */
  ghost function Takes(g: Geometry, op: Op, a: View): nat
    requires g.Ok()
  {
    match op
    case Write(p, src) => WriteTakes(a.tree, g, p, |src|)
    case WriteAt(p, offset, src) => WriteAtTakes(a.tree, g, p, offset, |src|)
    case Append(p, src) => AppendTakes(a.tree, g, p, |src|)
    case Mkdir(_) => 1
    case _ => 0
  }

  /** The disk has the clusters operation op asks for, or there are too few free slots for it anyway. */
  ghost predicate Served(g: Geometry, op: Op, a: View)
    requires g.Ok()
  {
    Backs(g, a.free, Takes(g, op, a))
  }

  /** Does, folded. */
  ghost predicate Did(g: Geometry, op: Op, a: View, code: int, b: View)
    requires g.Ok()
  {
    forall k :: Owed(k) ==> Does(g, op, a, code, b)
  }

  lemma DidDoes(g: Geometry, op: Op, a: View, code: int, b: View)
    requires g.Ok() && Did(g, op, a, code, b)
    ensures Does(g, op, a, code, b)
  {
    assert Owed(0);
  }

  lemma DidMkdir(g: Geometry, p: Text, a: View, code: int, b: View, id: nat)
    requires g.Ok() && Makes(a.tree, a.free, a.room, g, p, code, b.tree, b.free, b.room, id) && (code != FAT_OK ==> b == a)
    ensures Did(g, Mkdir(p), a, code, b)
  {
  }

  lemma DidRmdir(g: Geometry, p: Text, a: View, code: int, b: View)
    requires g.Ok() && Unmakes(a.tree, a.free, a.room, p, code, b.tree, b.free, b.room) && (code != FAT_OK ==> b == a)
    ensures Did(g, Rmdir(p), a, code, b)
  {
  }

  lemma DidCreate(g: Geometry, p: Text, a: View, code: int, b: View)
    requires g.Ok() && Creates(a.tree, a.room, p, code, b.tree, b.room) && b.free == a.free && (code != FAT_OK ==> b == a)
    ensures Did(g, Create(p), a, code, b)
  {
  }

  lemma DidDelete(g: Geometry, p: Text, a: View, code: int, b: View)
    requires g.Ok() && Deletes(a.tree, a.free, a.room, g, p, code, b.tree, b.free, b.room) && (code != FAT_OK ==> b == a)
    ensures Did(g, Delete(p), a, code, b)
  {
  }

  lemma DidRename(g: Geometry, p: Text, q: Text, a: View, code: int, b: View)
    requires g.Ok() && Renames(a.tree, p, q, code, b.tree) && b.free == a.free && b.room == a.room && (code != FAT_OK ==> b == a)
    ensures Did(g, Rename(p, q), a, code, b)
  {
  }

  lemma DidWrite(g: Geometry, p: Text, src: seq<byte>, a: View, code: int, b: View)
    requires g.Ok() && Writes(a.tree, a.free, g, p, src, code, b.tree, b.free) && b.room == a.room && (code != FAT_OK ==> b == a)
    ensures Did(g, Write(p, src), a, code, b)
  {
  }

  lemma DidWriteAt(g: Geometry, p: Text, offset: u32, src: seq<byte>, a: View, code: int, b: View)
    requires g.Ok() && WritesAt(a.tree, a.free, g, p, offset, src, code, b.tree, b.free) && b.room == a.room && (code != FAT_OK ==> b == a)
    ensures Did(g, WriteAt(p, offset, src), a, code, b)
  {
  }

  lemma DidAppend(g: Geometry, p: Text, src: seq<byte>, a: View, code: int, b: View)
    requires g.Ok() && Appends(a.tree, a.free, g, p, src, code, b.tree, b.free) && b.room == a.room && (code != FAT_OK ==> b == a)
    ensures Did(g, Append(p, src), a, code, b)
  {
  }

  method ApplyData(v: Volume, op: Op) returns (code: int)
    requires Valid(v) && v.g.Ok() && Callable(op) && Served(v.g, op, ViewOf(v.img, v.layout))
    requires op.Write? || op.WriteAt? || op.Append?
    modifies v
    ensures Valid(v) && v.g.Ok()
    ensures Did(v.g, op, old(ViewOf(v.img, v.layout)), code, ViewOf(v.img, v.layout))
  {
    ghost var a := ViewOf(v.img, v.layout);
    match op
    case Write(p, src) =>
      ghost var release;
      code, release := FatWriteFile(v, p, src);
      DidWrite(v.g, p, src, a, code, ViewOf(v.img, v.layout));
    case WriteAt(p, offset, src) =>
      ghost var end;
      code, end := FatWriteFileAt(v, p, offset, src);
      DidWriteAt(v.g, p, offset, src, a, code, ViewOf(v.img, v.layout));
    case Append(p, src) =>
      ghost var end;
      code, end := FatAppendFile(v, p, src);
      DidAppend(v.g, p, src, a, code, ViewOf(v.img, v.layout));
  }

  method ApplyName(v: Volume, op: Op) returns (code: int)
    requires Valid(v) && v.g.Ok() && (op.Create? || op.Delete? || op.Rename? || op.Rmdir?)
    modifies v
    ensures Valid(v) && v.g.Ok()
    ensures Did(v.g, op, old(ViewOf(v.img, v.layout)), code, ViewOf(v.img, v.layout))
  {
    ghost var a := ViewOf(v.img, v.layout);
    match op
    case Create(p) =>
      code := FatCreateFile(v, p);
      DidCreate(v.g, p, a, code, ViewOf(v.img, v.layout));
    case Delete(p) =>
      code := FatDeleteFile(v, p);
      DidDelete(v.g, p, a, code, ViewOf(v.img, v.layout));
    case Rename(p, q) =>
      code := FatRenameFile(v, p, q);
      DidRename(v.g, p, q, a, code, ViewOf(v.img, v.layout));
    case Rmdir(p) =>
      code := FatRmdir(v, p);
      DidRmdir(v.g, p, a, code, ViewOf(v.img, v.layout));
  }

  lemma ServedMkdir(g: Geometry, path: Text, a: View)
    requires g.Ok() && Served(g, Mkdir(path), a)
    ensures Backs(g, a.free, 1)
  {
  }

  method ApplyMkdir(v: Volume, path: Text) returns (code: int)
    requires Valid(v) && v.g.Ok() && Served(v.g, Mkdir(path), ViewOf(v.img, v.layout))
    modifies v
    ensures Valid(v) && v.g.Ok()
    ensures Did(v.g, Mkdir(path), old(ViewOf(v.img, v.layout)), code, ViewOf(v.img, v.layout))
  {
    ghost var a := ViewOf(v.img, v.layout);
    ghost var id;
    ServedMkdir(v.g, path, a);
    code, id := FatMkdir(v, path);
    DidMkdir(v.g, path, a, code, ViewOf(v.img, v.layout), id);
  }

  method Apply(v: Volume, op: Op) returns (code: int)
    requires Valid(v) && v.g.Ok() && Callable(op) && Served(v.g, op, ViewOf(v.img, v.layout))
    modifies v
    ensures Valid(v) && v.g.Ok()
    ensures Did(v.g, op, old(ViewOf(v.img, v.layout)), code, ViewOf(v.img, v.layout))
  {
    if op.Write? || op.WriteAt? || op.Append? {
      code := ApplyData(v, op);
    } else if op.Mkdir? {
      code := ApplyMkdir(v, op.path);
    } else {
      code := ApplyName(v, op);
    }
  }

  /** The first k operations were done with these codes; views[i] is what operation i found. */
  ghost predicate Ran(g: Geometry, ops: seq<Op>, codes: seq<int>, views: seq<View>, k: nat)
    requires g.Ok()
  {
    && k == |codes| <= |ops| && |views| == k + 1
    && forall i :: 0 <= i < k ==> Did(g, ops[i], views[i], codes[i], views[i + 1])
  }

  lemma RanOneMore(g: Geometry, ops: seq<Op>, codes: seq<int>, views: seq<View>, k: nat, code: int, view: View)
    requires g.Ok() && k < |ops| && Ran(g, ops, codes, views, k) && Did(g, ops[k], views[k], code, view)
    ensures Ran(g, ops, codes + [code], views + [view], k + 1)
  {
    var codes', views' := codes + [code], views + [view];
    forall i | 0 <= i < k + 1 ensures Did(g, ops[i], views'[i], codes'[i], views'[i + 1]) {
      if i < k {
        assert Did(g, ops[i], views[i], codes[i], views[i + 1]);
      }
    }
  }

  /** Nothing the operations owe, one after the other, leads to one that would be given a slot without sectors. */
  ghost predicate AllServed(g: Geometry, ops: seq<Op>, start: View)
    requires g.Ok()
  {
    forall codes, views, k :: 0 <= k < |ops| && Ran(g, ops, codes, views, k) && views[0] == start ==> Served(g, ops[k], views[k])
  }

  /** Any sequence of operations keeps the volume well formed, and each does what it owes. */
  method Run(v: Volume, ops: seq<Op>) returns (codes: seq<int>, ghost views: seq<View>)
    requires Valid(v) && v.g.Ok() && (forall i :: 0 <= i < |ops| ==> Callable(ops[i])) && AllServed(v.g, ops, ViewOf(v.img, v.layout))
    modifies v
    ensures Valid(v) && v.g.Ok() && Ran(v.g, ops, codes, views, |ops|)
    ensures views[0] == old(ViewOf(v.img, v.layout)) && views[|ops|] == ViewOf(v.img, v.layout)
  {
    ghost var start := ViewOf(v.img, v.layout);
    ghost var view := start;
    codes, views := [], [start];
    var i := 0;
    while i < |ops|
      invariant 0 <= i <= |ops| && Valid(v) && v.g.Ok() && Ran(v.g, ops, codes, views, i)
      invariant views[0] == start && views[i] == view == ViewOf(v.img, v.layout)
    {
      assert Served(v.g, ops[i], views[i]);
      var code := Apply(v, ops[i]);
      view := ViewOf(v.img, v.layout);
      RanOneMore(v.g, ops, codes, views, i, code, view);
      codes, views, i := codes + [code], views + [view], i + 1;
    }
  }

  // ---- enough room ----

  /** The most an operation can take. */
  function Demand(g: Geometry, op: Op): nat
    requires g.Ok()
  {
    match op
    case Write(_, src) => CeilDiv(|src|, g.ClusterBytes())
    case WriteAt(_, _, src) => CeilDiv(|src|, g.ClusterBytes())
    case Append(_, src) => CeilDiv(|src|, g.ClusterBytes())
    case Mkdir(_) => 1
    case _ => 0
  }

  function Demands(g: Geometry, ops: seq<Op>, n: nat): nat
    requires g.Ok() && n <= |ops|
  {
    if n == 0 then 0 else Demands(g, ops, n - 1) + Demand(g, ops[n - 1])
  }

  lemma {:induction false} CeilDivSum(a: nat, b: nat, d: nat)
    requires d > 0
    ensures CeilDiv(a + b, d) <= CeilDiv(a, d) + CeilDiv(b, d)
    decreases a
  {
    if a > d {
      CeilDivSum(a - d, b, d);
    } else if a > 0 {
      CeilDivMonotone(a + b, b + d, d);
    }
  }

  lemma ExtraDemand(size: nat, at: nat, len: nat, d: nat)
    requires d > 0 && at <= size
    ensures Extra(size, at + len, d) <= CeilDiv(len, d)
  {
    CeilDivSum(size, len, d);
    CeilDivMonotone(Max(size, at + len), size + len, d);
  }

  lemma WriteAtDemand(t: Tree, g: Geometry, path: Text, offset: nat, len: nat)
    requires g.Ok()
    ensures WriteAtTakes(t, g, path, offset, len) <= CeilDiv(len, g.ClusterBytes())
  {
    var at := Locate(t, path);
    if at.Parent? && t[at.d][at.leaf].File? && offset <= |t[at.d][at.leaf].content| {
      ExtraDemand(|t[at.d][at.leaf].content|, offset, len, g.ClusterBytes());
    }
  }

  lemma TakesDemand(g: Geometry, op: Op, a: View)
    requires g.Ok()
    ensures Takes(g, op, a) <= Demand(g, op)
  {
    match op
    case WriteAt(p, offset, src) => WriteAtDemand(a.tree, g, p, offset, |src|);
    case Append(p, src) =>
      var at := Locate(a.tree, p);
      if at.Parent? && a.tree[at.d][at.leaf].File? {
        WriteAtDemand(a.tree, g, p, |a.tree[at.d][at.leaf].content|, |src|);
      }
    case _ =>
  }

  lemma FreeAfterAppend(g: Geometry, t: Tree, free: nat, path: Text, src: seq<byte>, t': Tree, free': nat)
    requires g.Ok() && Appends(t, free, g, path, src, FAT_OK, t', free')
    ensures free' + AppendTakes(t, g, path, |src|) >= free
  {
    LocateFails(t, path);
  }

  lemma FreeAfterWriteAt(g: Geometry, t: Tree, free: nat, path: Text, offset: nat, src: seq<byte>, t': Tree, free': nat)
    requires g.Ok() && WritesAt(t, free, g, path, offset, src, FAT_OK, t', free')
    ensures free' + WriteAtTakes(t, g, path, offset, |src|) >= free
  {
    LocateFails(t, path);
  }

  lemma FreeAfterWrite(g: Geometry, t: Tree, free: nat, path: Text, src: seq<byte>, t': Tree, free': nat)
    requires g.Ok() && Writes(t, free, g, path, src, FAT_OK, t', free')
    ensures free' + WriteTakes(t, g, path, |src|) >= free
  {
    LocateFails(t, path);
  }

  lemma FreeAfterOther(g: Geometry, op: Op, a: View, b: View)
    requires g.Ok() && Does(g, op, a, FAT_OK, b) && !op.Write? && !op.WriteAt? && !op.Append?
    ensures b.free + Takes(g, op, a) >= a.free
  {
    LocateFails(a.tree, op.path);
  }

  /** An operation leaves at least what it does not take. */
  lemma FreeAfter(g: Geometry, op: Op, a: View, code: int, b: View)
    requires g.Ok() && Does(g, op, a, code, b)
    ensures b.free + Takes(g, op, a) >= a.free
  {
    if code == FAT_OK {
      match op
      case Write(p, src) => FreeAfterWrite(g, a.tree, a.free, p, src, b.tree, b.free);
      case WriteAt(p, offset, src) => FreeAfterWriteAt(g, a.tree, a.free, p, offset, src, b.tree, b.free);
      case Append(p, src) => FreeAfterAppend(g, a.tree, a.free, p, src, b.tree, b.free);
      case _ => FreeAfterOther(g, op, a, b);
    }
  }

  lemma {:induction false} FreeThrough(g: Geometry, ops: seq<Op>, codes: seq<int>, views: seq<View>, k: nat)
    requires g.Ok() && Ran(g, ops, codes, views, k)
    ensures views[k].free + Demands(g, ops, k) >= views[0].free
    decreases k
  {
    if k > 0 {
      assert Ran(g, ops, codes[..k - 1], views[..k], k - 1) by {
        forall i | 0 <= i < k - 1 ensures Did(g, ops[i], views[..k][i], codes[..k - 1][i], views[..k][i + 1]) {
          assert Did(g, ops[i], views[i], codes[i], views[i + 1]);
        }
      }
      FreeThrough(g, ops, codes[..k - 1], views[..k], k - 1);
      DidDoes(g, ops[k - 1], views[k - 1], codes[k - 1], views[k]);
      FreeAfter(g, ops[k - 1], views[k - 1], codes[k - 1], views[k]);
      TakesDemand(g, ops[k - 1], views[k - 1]);
    }
  }

  lemma {:induction false} DemandsMore(g: Geometry, ops: seq<Op>, k: nat, n: nat)
    requires g.Ok() && k <= n <= |ops|
    ensures Demands(g, ops, k) <= Demands(g, ops, n)
    decreases n
  {
    if k < n {
      DemandsMore(g, ops, k, n - 1);
    }
  }

  /** Operations that ask for no more clusters in all than there are free ones with sectors are all served. */
  lemma EnoughServed(g: Geometry, ops: seq<Op>, start: View)
    requires g.Ok() && Demands(g, ops, |ops|) + g.Missing() <= start.free
    ensures AllServed(g, ops, start)
  {
    forall codes, views, k | 0 <= k < |ops| && Ran(g, ops, codes, views, k) && views[0] == start ensures Served(g, ops[k], views[k]) {
      FreeThrough(g, ops, codes, views, k);
      TakesDemand(g, ops[k], views[k]);
      DemandsMore(g, ops, k + 1, |ops|);
    }
  }

  // ---- a formatted disk ----

  /** Freshly formatted: no cluster in use and nothing but end markers in the root directory. */
  ghost predicate Blank(img: Image) {
    img.Shape() && (forall c :: 2 <= c < |img.fat| ==> img.fat[c] == 0) && forall j :: 0 <= j < |DirOf(img.region[0])| ==> DirOf(img.region[0])[j].IsEnd()
  }

  const NO_FILES: Layout := Layout(map[0 := 0], map[], map[])

  lemma EndsAreFree(es: seq<Entry>)
    requires forall j :: 0 <= j < |es| ==> es[j].IsEnd()
    ensures DirOk(es) && NoneOwned(es)
  {
  }

  lemma BlankMeta(m: Meta)
    requires m.Shape() && 0 < |m.dirs| && (forall c :: 2 <= c < |m.fat| ==> m.fat[c] == 0) && DirOk(m.dirs[0]) && NoneOwned(m.dirs[0])
    ensures VolumeOk(m, NO_FILES)
  {
    forall s ensures s in NO_FILES.chain <==> s.d in NO_FILES.rank && m.Has(s) && m.At(s).Owns() {
      if s.d in NO_FILES.rank && m.Has(s) {
        assert s.d == 0 && !m.dirs[0][s.j].Owns();
      }
    }
  }

  lemma BlankTree(m: Meta, region: seq<seq<Sector>>)
    requires 0 < |m.dirs| && NoneOwned(m.dirs[0])
    ensures TreeOf(m, region, NO_FILES) == map[0 := map[]]
  {
    EmptyDirMap(m.DirAt(0), NodesOf(m, region, NO_FILES, 0));
  }

  /** An empty root directory, every cluster and every slot of the root directory free. */
  ghost function BlankView(img: Image): View
    requires img.Shape()
  {
    View(map[0 := map[]], |img.fat| - 2, map[0 := 16 * img.g.rootSectors])
  }

  lemma EndsAreRoom(m: Meta)
    requires 0 < |m.dirs| && forall j :: 0 <= j < |m.dirs[0]| ==> m.dirs[0][j].IsEnd()
    ensures RoomsOf(m, NO_FILES) == map[0 := |m.dirs[0]|]
  {
    RoomAll(m.dirs[0]);
  }

  lemma BlankRooms(img: Image)
    requires Blank(img)
    ensures Rooms(img, NO_FILES) == map[0 := 16 * img.g.rootSectors]
  {
    RoomsAre(img, NO_FILES);
    assert MetaOf(img).dirs[0] == DirOf(img.region[0]);
    EndsAreRoom(MetaOf(img));
  }

  lemma BlankOk(img: Image)
    requires Blank(img)
    ensures VolumeOk(MetaOf(img), NO_FILES) && ViewOf(img, NO_FILES) == BlankView(img)
  {
    EndsAreFree(DirOf(img.region[0]));
    assert MetaOf(img).dirs[0] == DirOf(img.region[0]);
    BlankMeta(MetaOf(img));
    TreeIs(img, NO_FILES);
    BlankTree(MetaOf(img), img.region);
    AllFree(img.fat, 2);
    BlankRooms(img);
  }

  /** The boot sector says where everything is, and is not part of the FATs. */
  ghost predicate Boots(disk: seq<Sector>, g: Geometry) {
    |disk| > 0 && U16At(disk[0], 0x0B) > 0 && g == GeometryOf(disk[0], |disk|) && g.fatStart > 0
  }

  /** fs_init. */
  method FsInit(disk: seq<Sector>, ghost img: Image, ghost L: Layout) returns (v: Volume)
    requires Boots(disk, img.g) && Represents(disk, img) && VolumeOk(MetaOf(img), L)
    ensures fresh(v) && Valid(v) && v.disk == v.start == disk && v.img == img && v.layout == L
  {
    v := new Volume(GeometryOf(disk[0], |disk|), disk, img, L);
  }

  /** fs_init on a formatted disk. */
  method InitBlank(disk: seq<Sector>, ghost img: Image) returns (v: Volume)
    requires Boots(disk, img.g) && Represents(disk, img) && Blank(img)
    ensures fresh(v) && Valid(v) && v.disk == v.start == disk && v.g == img.g && ViewOf(v.img, v.layout) == BlankView(img)
  {
    BlankOk(img);
    v := FsInit(disk, img, NO_FILES);
  }

  /** Nothing an operation does reaches the boot sector, so fs_init on the disk as it is finds the same volume again. */
  method Reboot(v: Volume) returns (w: Volume)
    requires Valid(v) && Boots(v.start, v.g)
    ensures fresh(w) && Valid(w) && w.g == v.g && w.disk == v.disk && Boots(w.start, w.g) && ViewOf(w.img, w.layout) == ViewOf(v.img, v.layout)
  {
    UnfoldDisk(v.disk, v.img);
    KeptBoot(v.g, v.start, v.disk);
    w := FsInit(v.disk, v.img, v.layout);
  }

  lemma KeptBoot(g: Geometry, start: seq<Sector>, disk: seq<Sector>)
    requires FoldedKept(g, start, disk) && Boots(start, g)
    ensures Boots(disk, g)
  {
    assert Looked(0);
  }

  /** What a run leads to is there again after fs_init. */
  method RunAndReboot(v: Volume, ops: seq<Op>) returns (w: Volume, codes: seq<int>, ghost views: seq<View>)
    requires Valid(v) && v.g.Ok() && Boots(v.start, v.g) && forall i :: 0 <= i < |ops| ==> Callable(ops[i])
    requires AllServed(v.g, ops, ViewOf(v.img, v.layout))
    modifies v
    ensures fresh(w) && Valid(w) && w.g == v.g && w.disk == v.disk && Boots(w.start, w.g) && w.g.Ok() && Ran(w.g, ops, codes, views, |ops|)
    ensures views[0] == old(ViewOf(v.img, v.layout)) && views[|ops|] == ViewOf(w.img, w.layout)
  {
    codes, views := Run(v, ops);
    w := Reboot(v);
  }

  /** Every sequence of operations on a formatted disk is a run from the empty tree. */
  method RunFormatted(disk: seq<Sector>, ops: seq<Op>, ghost img: Image) returns (w: Volume, codes: seq<int>, ghost views: seq<View>)
    requires Boots(disk, img.g) && Represents(disk, img) && Blank(img)
    requires (forall i :: 0 <= i < |ops| ==> Callable(ops[i])) && AllServed(img.g, ops, BlankView(img))
    ensures Valid(w) && w.g.Ok() && w.g == img.g && Ran(w.g, ops, codes, views, |ops|)
    ensures views[0] == BlankView(img) && views[|ops|] == ViewOf(w.img, w.layout)
  {
    var v := InitBlank(disk, img);
    w, codes, views := RunAndReboot(v, ops);
  }

  // ---- a write that is not atomic ----

  /** Name n of directory d stands for a file with content c. */
  ghost predicate Holds(t: Tree, d: nat, n: Name, c: seq<byte>) {
    d in t && n in t[d] && t[d][n] == File(c)
  }

  /** The path "A". */
  const PATH_A: Text := [0x41]

  lemma ResolvesA(t: Tree)
    ensures Resolve(t, PATH_A) == Parent(0, To83(PATH_A))
  {
    assert Components(PATH_A, 1) == [];
    assert PATH_A[0..1] == PATH_A;
    assert Components(PATH_A, 0) == [PATH_A];
    assert Base(PATH_A) == PATH_A && Ext(PATH_A) == [];
  }

  lemma LinksOfA(t: Tree, g: Geometry, c: seq<byte>)
    requires g.Ok() && Holds(t, 0, To83(PATH_A), c)
    ensures Locate(t, PATH_A) == Parent(0, To83(PATH_A)) && LinksAt(t, g, PATH_A) == CeilDiv(|c|, g.ClusterBytes())
  {
    ResolvesA(t);
  }

  lemma CreatedA(t: Tree, room: map<nat, nat>, code: int, t': Tree, room': map<nat, nat>)
    requires t == map[0 := map[]] && !Full(room, 0) && Creates(t, room, PATH_A, code, t', room')
    ensures code == FAT_OK && Holds(t', 0, To83(PATH_A), [])
  {
    ResolvesA(t);
  }

  lemma WrittenA(t: Tree, free: nat, g: Geometry, c: seq<byte>, src: seq<byte>, code: int, t': Tree, free': nat)
    requires g.Ok() && Holds(t, 0, To83(PATH_A), c) && |src| <= 1 && free > 0 && Writes(t, free, g, PATH_A, src, code, t', free')
    ensures code == FAT_OK && Holds(t', 0, To83(PATH_A), src)
  {
    LinksOfA(t, g, c);
    CeilDivZero(|src|, g.ClusterBytes());
  }

  /** Creates A and writes one byte to it. */
  method MakeA(v: Volume)
    requires Valid(v) && TreeAt(v.img, v.layout) == map[0 := map[]] && !Full(Rooms(v.img, v.layout), 0)
    requires FreeCount(v.img.fat) > v.g.Missing()
    modifies v
    ensures Valid(v) && Holds(TreeAt(v.img, v.layout), 0, To83(PATH_A), [1])
  {
    ghost var t, room := TreeAt(v.img, v.layout), Rooms(v.img, v.layout);
    var code := FatCreateFile(v, PATH_A);
    CreatedA(t, room, code, TreeAt(v.img, v.layout), Rooms(v.img, v.layout));
    ghost var t1, free, release := TreeAt(v.img, v.layout), FreeCount(v.img.fat), 0;
    code, release := FatWriteFile(v, PATH_A, [1]);
    WrittenA(t1, free, v.g, [], [1], code, TreeAt(v.img, v.layout), FreeCount(v.img.fat));
  }

  method EmptyA(v: Volume) returns (ghost k: nat)
    requires Valid(v) && Holds(TreeAt(v.img, v.layout), 0, To83(PATH_A), [1])
    modifies v
    ensures Valid(v) && k < |v.trace| && Unreadable(v.g, v.trace[k])
  {
    LinksOfA(TreeAt(v.img, v.layout), v.g, [1]);
    CeilDivZero(1, v.g.ClusterBytes());
    CeilDivZero(0, v.g.ClusterBytes());
    var code;
    code, k := FatWriteFile(v, PATH_A, []);
  }

  /** On a formatted disk: create A, write a byte to it, empty it. The first disk that last write leaves reads as no tree. */
  method TornWrite(disk: seq<Sector>, ghost img: Image) returns (v: Volume, ghost k: nat)
    requires Boots(disk, img.g) && Represents(disk, img) && Blank(img) && img.g.rootSectors > 0 && img.g.backed > 2
    ensures Valid(v) && k < |v.trace| && Unreadable(v.g, v.trace[k])
  {
    v := InitBlank(disk, img);
    MakeA(v);
    k := EmptyA(v);
  }

  /** The operation, started in view a, names entry n of directory d. */
  ghost predicate Touches(op: Op, a: View, d: nat, n: Name) {
    Resolve(a.tree, op.path) == Parent(d, n) || (op.Rename? && Resolve(a.tree, op.newPath) == Parent(d, n))
  }

  lemma PutKeeps(t: Tree, d': nat, n': Name, node: Node, d: nat, n: Name, c: seq<byte>)
    requires d' in t && Holds(t, d, n, c) && (d', n') != (d, n)
    ensures Holds(Put(t, d', n', node), d, n, c)
  {
  }

  lemma DropKeeps(t: Tree, d': nat, n': Name, d: nat, n: Name, c: seq<byte>)
    requires d' in t && Holds(t, d, n, c) && (d', n') != (d, n)
    ensures Holds(Drop(t, d', n'), d, n, c)
  {
  }

  lemma CreateKeeps(a: View, path: Text, b: View, d: nat, n: Name, c: seq<byte>)
    requires Creates(a.tree, a.room, path, FAT_OK, b.tree, b.room) && Resolve(a.tree, path) != Parent(d, n) && Holds(a.tree, d, n, c)
    ensures Holds(b.tree, d, n, c)
  {
    LocateFails(a.tree, path);
    var at := Resolve(a.tree, path);
    PutKeeps(a.tree, at.d, at.leaf, File([]), d, n, c);
  }

  lemma WriteKeeps(g: Geometry, a: View, path: Text, src: seq<byte>, b: View, d: nat, n: Name, c: seq<byte>)
    requires g.Ok() && Writes(a.tree, a.free, g, path, src, FAT_OK, b.tree, b.free)
    requires Resolve(a.tree, path) != Parent(d, n) && Holds(a.tree, d, n, c)
    ensures Holds(b.tree, d, n, c)
  {
    LocateFails(a.tree, path);
    var at := Locate(a.tree, path);
    PutKeeps(a.tree, at.d, at.leaf, File(src), d, n, c);
  }

  lemma WriteAtKeeps(g: Geometry, a: View, path: Text, offset: nat, src: seq<byte>, b: View, d: nat, n: Name, c: seq<byte>)
    requires g.Ok() && WritesAt(a.tree, a.free, g, path, offset, src, FAT_OK, b.tree, b.free)
    requires Resolve(a.tree, path) != Parent(d, n) && Holds(a.tree, d, n, c)
    ensures Holds(b.tree, d, n, c)
  {
    if src != [] {
      LocateFails(a.tree, path);
      var at := Locate(a.tree, path);
      PutKeeps(a.tree, at.d, at.leaf, File(Splice(a.tree[at.d][at.leaf].content, offset, src)), d, n, c);
    }
  }

  lemma AppendKeeps(g: Geometry, a: View, path: Text, src: seq<byte>, b: View, d: nat, n: Name, c: seq<byte>)
    requires g.Ok() && Appends(a.tree, a.free, g, path, src, FAT_OK, b.tree, b.free)
    requires Resolve(a.tree, path) != Parent(d, n) && Holds(a.tree, d, n, c)
    ensures Holds(b.tree, d, n, c)
  {
    LocateFails(a.tree, path);
    var at := Locate(a.tree, path);
    PutKeeps(a.tree, at.d, at.leaf, File(a.tree[at.d][at.leaf].content + src), d, n, c);
  }

  lemma DeleteKeeps(g: Geometry, a: View, path: Text, b: View, d: nat, n: Name, c: seq<byte>)
    requires g.Ok() && Deletes(a.tree, a.free, a.room, g, path, FAT_OK, b.tree, b.free, b.room)
    requires Resolve(a.tree, path) != Parent(d, n) && Holds(a.tree, d, n, c)
    ensures Holds(b.tree, d, n, c)
  {
    LocateFails(a.tree, path);
    var at := Locate(a.tree, path);
    DropKeeps(a.tree, at.d, at.leaf, d, n, c);
  }

  lemma RenameKeeps(a: View, path: Text, newPath: Text, b: View, d: nat, n: Name, c: seq<byte>)
    requires Renames(a.tree, path, newPath, FAT_OK, b.tree) && Holds(a.tree, d, n, c)
    requires Resolve(a.tree, path) != Parent(d, n) && Resolve(a.tree, newPath) != Parent(d, n)
    ensures Holds(b.tree, d, n, c)
  {
    LocateFails(a.tree, path);
    LocateFails(a.tree, newPath);
    var at, goal := Resolve(a.tree, path), Resolve(a.tree, newPath);
    DropKeeps(a.tree, at.d, at.leaf, d, n, c);
    PutKeeps(Drop(a.tree, at.d, at.leaf), at.d, goal.leaf, a.tree[at.d][at.leaf], d, n, c);
  }

  /** A new directory takes the place of no other. */
  lemma MkdirKeeps(g: Geometry, a: View, path: Text, b: View, id: nat, d: nat, n: Name, c: seq<byte>)
    requires g.Ok() && Makes(a.tree, a.free, a.room, g, path, FAT_OK, b.tree, b.free, b.room, id)
    requires Resolve(a.tree, path) != Parent(d, n) && Holds(a.tree, d, n, c)
    ensures Holds(b.tree, d, n, c)
  {
    LocateFails(a.tree, path);
    var at := Resolve(a.tree, path);
    PutKeeps(a.tree, at.d, at.leaf, Dir(id), d, n, c);
  }

  /** A directory that goes was empty. */
  lemma RmdirKeeps(a: View, path: Text, b: View, d: nat, n: Name, c: seq<byte>)
    requires Unmakes(a.tree, a.free, a.room, path, FAT_OK, b.tree, b.free, b.room)
    requires Resolve(a.tree, path) != Parent(d, n) && Holds(a.tree, d, n, c)
    ensures Holds(b.tree, d, n, c)
  {
    LocateFails(a.tree, path);
    var at := Locate(a.tree, path);
    DropKeeps(a.tree, at.d, at.leaf, d, n, c);
  }

  lemma StepKeeps(g: Geometry, op: Op, a: View, code: int, b: View, d: nat, n: Name, c: seq<byte>)
    requires g.Ok() && Does(g, op, a, code, b) && !Touches(op, a, d, n) && Holds(a.tree, d, n, c)
    ensures Holds(b.tree, d, n, c)
  {
    if code == FAT_OK {
      match op
      case Create(p) => CreateKeeps(a, p, b, d, n, c);
      case Write(p, src) => WriteKeeps(g, a, p, src, b, d, n, c);
      case WriteAt(p, offset, src) => WriteAtKeeps(g, a, p, offset, src, b, d, n, c);
      case Append(p, src) => AppendKeeps(g, a, p, src, b, d, n, c);
      case Delete(p) => DeleteKeeps(g, a, p, b, d, n, c);
      case Rename(p, q) => RenameKeeps(a, p, q, b, d, n, c);
      case Mkdir(p) =>
        var id :| Makes(a.tree, a.free, a.room, g, p, code, b.tree, b.free, b.room, id);
        MkdirKeeps(g, a, p, b, id, d, n, c);
      case Rmdir(p) => RmdirKeeps(a, p, b, d, n, c);
    }
  }

  /** Over any run, a file that no operation names keeps its place and its content. */
  lemma {:induction false} RunKeeps(g: Geometry, ops: seq<Op>, codes: seq<int>, views: seq<View>, k: nat, d: nat, n: Name, c: seq<byte>)
    requires g.Ok() && k <= |ops| && Ran(g, ops, codes, views, |ops|)
    requires Holds(views[0].tree, d, n, c) && forall i :: 0 <= i < k ==> !Touches(ops[i], views[i], d, n)
    ensures Holds(views[k].tree, d, n, c)
  {
    if k > 0 {
      RunKeeps(g, ops, codes, views, k - 1, d, n, c);
      DidDoes(g, ops[k - 1], views[k - 1], codes[k - 1], views[k]);
      StepKeeps(g, ops[k - 1], views[k - 1], codes[k - 1], views[k], d, n, c);
    }
  }
}
