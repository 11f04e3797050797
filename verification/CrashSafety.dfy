/** What can be read from a volume when a write stops half way. */
module CrashSafety {
  import opened Bytes
  import opened Disk
  import opened Fat
  import opened Directory
  import opened Names
  import opened WellFormed
  import opened Tree
  import opened FileSystem

  /** Slots in use in img, and the directories, are the same in img2. */
  lemma SparedDir(img: Image, L: Layout, img2: Image, d: nat)
    requires img.Shape() && VolumeOk(MetaOf(img), L) && Spares(img.fat, img, img2) && d in L.rank
    ensures d < |img.region| && img2.region[d] == img.region[d] && MetaOf(img2).dirs[d] == MetaOf(img).dirs[d]
  {
    DirInUse(MetaOf(img), L, d);
  }

  lemma SparedChain(img: Image, L: Layout, img2: Image, s: Slot, i: nat)
    requires img.Shape() && VolumeOk(MetaOf(img), L) && Spares(img.fat, img, img2) && s in L.chain && i < |L.chain[s]|
    ensures
      var c := L.chain[s][i];
      2 <= c < |img.fat| && img2.fat[c] == img.fat[c] && img2.region[c] == img.region[c]
  {
    OwnedInUse(MetaOf(img), L, s, i);
  }

  lemma SparedEntry(img: Image, L: Layout, img2: Image, s: Slot)
    requires img.Shape() && VolumeOk(MetaOf(img), L) && Spares(img.fat, img, img2) && s in L.chain
    ensures s.d in L.rank && MetaOf(img2).Has(s) && MetaOf(img2).At(s) == MetaOf(img).At(s)
    ensures MetaOf(img2).Shape() && EntryOk(MetaOf(img2), L, s)
  {
    SparedDir(img, L, img2, s.d);
    assert EntryOk(MetaOf(img), L, s);
    forall i | 0 <= i < |L.chain[s]| ensures 2 <= L.chain[s][i] < |img.fat| && img2.fat[L.chain[s][i]] == img.fat[L.chain[s][i]] {
      SparedChain(img, L, img2, s, i);
    }
  }

  lemma SparedDirs(img: Image, L: Layout, img2: Image)
    requires img.Shape() && VolumeOk(MetaOf(img), L) && Spares(img.fat, img, img2)
    ensures MetaOf(img2).Shape() && DirsOk(MetaOf(img2), L)
  {
    forall d | d in L.rank ensures d < |MetaOf(img2).dirs| && MetaOf(img2).dirs[d] == MetaOf(img).dirs[d] {
      SparedDir(img, L, img2, d);
    }
    forall d | d in L.rank && d != 0
      ensures d in L.owner && MetaOf(img2).Has(L.owner[d].s) && MetaOf(img2).At(L.owner[d].s) == MetaOf(img).At(L.owner[d].s)
    {
      DirHome(MetaOf(img), L, d);
      SparedEntry(img, L, img2, L.owner[d].s);
    }
  }

  lemma SparedSlots(img: Image, L: Layout, img2: Image)
    requires img.Shape() && VolumeOk(MetaOf(img), L) && Spares(img.fat, img, img2)
    ensures SlotsOk(MetaOf(img2), L)
  {
    forall s ensures s in L.chain <==> s.d in L.rank && MetaOf(img2).Has(s) && MetaOf(img2).At(s).Owns() {
      if s.d in L.rank {
        SparedDir(img, L, img2, s.d);
      }
    }
  }

  lemma SparedReadOk(img: Image, L: Layout, img2: Image)
    requires img.Shape() && VolumeOk(MetaOf(img), L) && Spares(img.fat, img, img2)
    ensures ReadOk(MetaOf(img2), L)
  {
    SparedDirs(img, L, img2);
    SparedSlots(img, L, img2);
    forall s | s in L.chain ensures EntryOk(MetaOf(img2), L, s) {
      SparedEntry(img, L, img2, s);
    }
  }

  lemma SparedNode(img: Image, L: Layout, img2: Image, s: Slot)
    requires img.Shape() && VolumeOk(MetaOf(img), L) && Spares(img.fat, img, img2) && s in L.chain
    ensures NodeAt(MetaOf(img2), img2.region, L, s) == NodeAt(MetaOf(img), img.region, L, s)
  {
    SparedEntry(img, L, img2, s);
    forall c | c in L.chain[s] ensures c < |img.region| && img2.region[c] == img.region[c] {
      var i :| 0 <= i < |L.chain[s]| && L.chain[s][i] == c;
      SparedChain(img, L, img2, s, i);
    }
    NodeSame(MetaOf(img), L, img.region, MetaOf(img2), L, img2.region, s);
  }

  lemma SparedDirMap(img: Image, L: Layout, img2: Image, d: nat)
    requires img.Shape() && VolumeOk(MetaOf(img), L) && Spares(img.fat, img, img2) && d in L.rank
    ensures
      var m, m2 := MetaOf(img), MetaOf(img2);
      DirMap(m2.DirAt(d), NodesOf(m2, img2.region, L, d)) == DirMap(m.DirAt(d), NodesOf(m, img.region, L, d))
  {
    var m, m2 := MetaOf(img), MetaOf(img2);
    SparedDir(img, L, img2, d);
    var es, a, b := m.DirAt(d), NodesOf(m, img.region, L, d), NodesOf(m2, img2.region, L, d);
    forall k | 0 <= k < |es| && es[k].Owns() ensures b[k] == a[k] {
      SlotOwned(m, L, Slot(d, k));
      SparedNode(img, L, img2, Slot(d, k));
    }
    DirMapSame(es, a, b);
  }

  /** An image that differs from a well-formed one only in free slots and their clusters can be read, and reads the same:
      every directory and every file is as it was. */
  lemma ReadsAsBefore(img: Image, L: Layout, img2: Image)
    requires img.Shape() && VolumeOk(MetaOf(img), L) && Spares(img.fat, img, img2)
    ensures ReadOk(MetaOf(img2), L) && TreeAt(img2, L) == TreeAt(img, L)
  {
    SparedReadOk(img, L, img2);
    TreeIs(img, L);
    TreeIs(img2, L);
    forall d | d in L.rank
      ensures DirMap(MetaOf(img2).DirAt(d), NodesOf(MetaOf(img2), img2.region, L, d))
           == DirMap(MetaOf(img).DirAt(d), NodesOf(MetaOf(img), img.region, L, d))
    {
      SparedDirMap(img, L, img2, d);
    }
  }

  /** A disk from which the tree t can be read. */
  ghost predicate ReadsAs(g: Geometry, disk: seq<Sector>, t: Tree) {
    exists img, L :: Shows(disk, img) && img.g == g && ReadOk(MetaOf(img), L) && TreeAt(img, L) == t
  }

  lemma SparedDisk(img: Image, L: Layout, disk: seq<Sector>)
    requires img.Shape() && VolumeOk(MetaOf(img), L) && DiskSpares(img.fat, img, disk)
    ensures ReadsAs(img.g, disk, TreeAt(img, L))
  {
    var img2 :| Shows(disk, img2) && Spares(img.fat, img, img2);
    ReadsAsBefore(img, L, img2);
  }

  /** Of the disks written since `base`, those before position `release` all read as t. */
  ghost predicate SafeUntil(g: Geometry, t: Tree, base: seq<seq<Sector>>, trace: seq<seq<Sector>>, release: nat) {
    base <= trace && |base| <= release <= |trace| && forall k :: |base| <= k < release ==> ReadsAs(g, trace[k], t)
  }

  /** As long as writes go to free slots and their clusters only, a crash loses nothing. */
  lemma TraceSafe(img: Image, L: Layout, base: seq<seq<Sector>>, trace: seq<seq<Sector>>, later: seq<seq<Sector>>)
    requires img.Shape() && VolumeOk(MetaOf(img), L) && TraceSpares(img.fat, img, base, trace) && trace <= later
    ensures SafeUntil(img.g, TreeAt(img, L), base, later, |trace|)
  {
    forall k | |base| <= k < |trace| ensures ReadsAs(img.g, later[k], TreeAt(img, L)) {
      assert later[k] == trace[k];
      SparedDisk(img, L, trace[k]);
    }
  }

  // ---- a disk that reads as nothing ----

  /** No tree can be read from the disk. */
  ghost predicate Unreadable(g: Geometry, disk: seq<Sector>) {
    forall t :: !ReadsAs(g, disk, t)
  }

  /** A disk shows one image. */
  lemma ShowsOne(disk: seq<Sector>, a: Image, b: Image)
    requires Shows(disk, a) && Shows(disk, b) && a.g == b.g
    ensures a == b
  {
    forall r | 0 <= r < |a.region| ensures a.region[r] == b.region[r] {
      forall k | 0 <= k < |a.region[r]| ensures a.region[r][k] == b.region[r][k] {
        assert RegionSector(a.g, disk, r, k) == a.region[r][k];
        assert RegionSector(b.g, disk, r, k) == b.region[r][k];
      }
    }
  }

  /** The directories of m hold in m2 what they hold in m. */
  ghost predicate SameEntries(m: Meta, L: Layout, m2: Meta) {
    forall d :: d in L.rank ==> m2.DirAt(d) == m.DirAt(d)
  }

  /** Whatever account m2 has, the directories of m are in it. */
  lemma {:induction false} DirsStay(m: Meta, L: Layout, m2: Meta, L2: Layout, d: nat)
    requires VolumeOk(m, L) && ReadOk(m2, L2) && SameEntries(m, L, m2) && d in L.rank
    ensures d in L2.rank
    decreases L.rank[d]
  {
    if d != 0 {
      DirHome(m, L, d);
      var s := L.owner[d].s;
      assert EntryOk(m, L, s);
      DirsStay(m, L, m2, L2, s.d);
      assert m2.DirAt(s.d) == m.DirAt(s.d);
      SlotOwned(m2, L2, s);
      assert EntryOk(m2, L2, s);
    }
  }

  lemma FirstInUse(m: Meta, L: Layout, s: Slot)
    requires ReadOk(m, L) && s in L.chain && m.At(s).size > 0 && !m.At(s).IsDir()
    ensures 2 <= m.At(s).first < |m.fat| && m.fat[m.At(s).first] != 0
  {
    assert EntryOk(m, L, s);
    CeilDivZero(m.At(s).size, m.g.ClusterBytes());
    ChainInUse(m.fat, m.At(s).first, L.chain[s], m.At(s).first);
  }

  /** A file with a size needs its first link. */
  lemma LinkNeeded(m: Meta, L: Layout, m2: Meta, L2: Layout, s: Slot)
    requires VolumeOk(m, L) && s in L.chain && m.At(s).size > 0 && !m.At(s).IsDir()
    requires ReadOk(m2, L2) && SameEntries(m, L, m2)
    ensures m2.At(s) == m.At(s) && m.At(s).first < |m2.fat| && m2.fat[m.At(s).first] != 0
  {
    DirsStay(m, L, m2, L2, s.d);
    assert m2.DirAt(s.d) == m.DirAt(s.d);
    SlotOwned(m2, L2, s);
    FirstInUse(m2, L2, s);
  }

  lemma ClearedEntries(img: Image, L: Layout, img1: Image, c: nat)
    requires img.Shape() && VolumeOk(MetaOf(img), L) && Spares(img.fat, img, img1) && c < |img1.fat|
    ensures SameEntries(MetaOf(img), L, MetaOf(img1.WithFat(c, 0)))
  {
    forall d | d in L.rank ensures MetaOf(img1.WithFat(c, 0)).DirAt(d) == MetaOf(img).DirAt(d) {
      SparedDir(img, L, img1, d);
    }
  }

  lemma TornAccount(img: Image, L: Layout, img1: Image, s: Slot, L2: Layout)
    requires img.Shape() && VolumeOk(MetaOf(img), L) && s in L.chain && MetaOf(img).At(s).size > 0 && !MetaOf(img).At(s).IsDir()
    requires Spares(img.fat, img, img1) && MetaOf(img).At(s).first < |img1.fat|
    ensures !ReadOk(MetaOf(img1.WithFat(MetaOf(img).At(s).first, 0)), L2)
  {
    var torn := img1.WithFat(MetaOf(img).At(s).first, 0);
    ClearedEntries(img, L, img1, MetaOf(img).At(s).first);
    if ReadOk(MetaOf(torn), L2) {
      LinkNeeded(MetaOf(img), L, MetaOf(torn), L2, s);
    }
  }

  /** A disk that shows an image of which there is no account reads as nothing. */
  lemma NoAccount(disk: seq<Sector>, img: Image)
    requires Shows(disk, img) && forall L :: !ReadOk(MetaOf(img), L)
    ensures Unreadable(img.g, disk)
  {
    forall t ensures !ReadsAs(img.g, disk, t) {
      if ReadsAs(img.g, disk, t) {
        var img2, L2 :| Shows(disk, img2) && img2.g == img.g && ReadOk(MetaOf(img2), L2) && TreeAt(img2, L2) == t;
        ShowsOne(disk, img, img2);
      }
    }
  }

  /** Once the first link of a file with a size is cleared while its entry still stands, the disk reads as no tree. */
  lemma TornDisk(img: Image, L: Layout, img1: Image, s: Slot, disk: seq<Sector>)
    requires img.Shape() && VolumeOk(MetaOf(img), L) && s in L.chain && MetaOf(img).At(s).size > 0 && !MetaOf(img).At(s).IsDir()
    requires Spares(img.fat, img, img1) && MetaOf(img).At(s).first < |img1.fat|
    requires Shows(disk, img1.WithFat(MetaOf(img).At(s).first, 0))
    ensures Unreadable(img.g, disk)
  {
    forall L2 ensures !ReadOk(MetaOf(img1.WithFat(MetaOf(img).At(s).first, 0)), L2) {
      TornAccount(img, L, img1, s, L2);
    }
    NoAccount(disk, img1.WithFat(MetaOf(img).At(s).first, 0));
  }

  /** Every disk since `base` reads as the tree before or as the tree after. */
  ghost predicate Atomic(g: Geometry, t: Tree, t': Tree, base: seq<seq<Sector>>, trace: seq<seq<Sector>>) {
    base <= trace && forall k :: |base| <= k < |trace| ==> ReadsAs(g, trace[k], t) || ReadsAs(g, trace[k], t')
  }

  /** A well-formed volume reads as its tree. */
  lemma ValidReads(v: Volume)
    requires Valid(v)
    ensures ReadsAs(v.g, v.disk, TreeAt(v.img, v.layout))
  {
    UnfoldShows(v.disk, v.img);
  }

  lemma TornNotAtomic(g: Geometry, t: Tree, t': Tree, base: seq<seq<Sector>>, trace: seq<seq<Sector>>, k: nat)
    requires |base| <= k < |trace| && Unreadable(g, trace[k])
    ensures !Atomic(g, t, t', base, trace)
  {
  }

  /** One write after the last safe disk is atomic if it leads to the tree after. */
  lemma LastAtomic(g: Geometry, t: Tree, t': Tree, base: seq<seq<Sector>>, trace: seq<seq<Sector>>, release: nat)
    requires SafeUntil(g, t, base, trace, release) && |trace| <= release + 1
    requires release < |trace| ==> ReadsAs(g, trace[release], t')
    ensures Atomic(g, t, t', base, trace)
  {
  }
}
