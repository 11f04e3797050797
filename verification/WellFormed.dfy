/** Well-formed volumes: what the account of the clusters has to say about the table and the directories,
    and why changing one directory entry together with its chain keeps it true. */
module WellFormed {
  import opened Sequences
  import opened Bytes
  import opened Folding
  import opened Disk
  import opened Fat
  import opened Directory

  const NO_NAME: Name := [0, 0, 0, 0, 0, 0, 0, 0, 0, 0, 0]
  const NO_ENTRY := Entry(NO_NAME, 0, NO_RESERVED, 0, 0)

  /** The part of an image that says which clusters are whose; dirs[r] is region r read as a directory. */
  datatype Meta = Meta(g: Geometry, fat: seq<u16>, dirs: seq<seq<Entry>>)
  {
    predicate Shape() {
      g.Ok() && |fat| == g.Slots() && |dirs| == g.backed
    }

    /** The entries of a directory; none where there is no region. */
    function DirAt(d: nat): seq<Entry> {
      if d < |dirs| then dirs[d] else []
    }

    predicate Has(s: Slot) {
      s.d < |dirs| && s.j < |dirs[s.d]|
    }

    /** The entry of a slot; an end marker where there is none. */
    function At(s: Slot): Entry {
      if Has(s) then dirs[s.d][s.j] else NO_ENTRY
    }
  }

  function MetaOf(img: Image): Meta {
    Meta(img.g, img.fat, seq(|img.region|, r requires 0 <= r < |img.region| => DirOf(img.region[r])))
  }

  ghost predicate NoneOwned(es: seq<Entry>) {
    forall j :: 0 <= j < |es| ==> !es[j].Owns()
  }

  /** The directories form a tree rooted at 0: each other one is owned by an entry of a directory of lower rank. */
  ghost predicate DirsOk(m: Meta, L: Layout) {
    && 0 in L.rank
    && (forall d :: d in L.rank ==> d < |m.dirs| && d != 1 && DirOk(m.dirs[d]))
    && (forall d :: d in L.rank && d != 0 ==>
          d in L.owner && m.Has(L.owner[d].s) && m.At(L.owner[d].s).IsDir() && m.At(L.owner[d].s).first == d)
  }

  /** Chains are recorded for exactly the owning entries of the directories. */
  ghost predicate SlotsOk(m: Meta, L: Layout) {
    forall s :: s in L.chain <==> s.d in L.rank && m.Has(s) && m.At(s).Owns()
  }

  /** Every cluster of the chain has data sectors. */
  ghost predicate BackedChain(g: Geometry, ch: seq<nat>) {
    forall i :: 0 <= i < |ch| ==> ch[i] < g.backed
  }

  /** A directory is one cluster; a file has as many clusters as its size takes. All of them are on the disk. */
  ghost predicate EntryOk(m: Meta, L: Layout, s: Slot)
    requires m.Shape() && m.Has(s) && s in L.chain && s.d in L.rank
  {
    var e := m.At(s);
    && Chain(m.fat, e.first, L.chain[s]) && BackedChain(m.g, L.chain[s])
    && (e.IsDir() ==> |L.chain[s]| == 1 && e.first in L.rank && L.rank[s.d] < L.rank[e.first])
    && (!e.IsDir() ==> |L.chain[s]| == CeilDiv(e.size, m.g.ClusterBytes()))
  }

  /** No cluster is in two chains, or twice in one. */
  ghost predicate OwnersOk(L: Layout) {
    && (forall s, i :: s in L.chain && 0 <= i < |L.chain[s]| ==>
          L.chain[s][i] in L.owner && L.owner[L.chain[s][i]] == Owner(s, i))
    && (forall c :: c in L.owner ==>
          L.owner[c].s in L.chain && L.owner[c].i < |L.chain[L.owner[c].s]| && L.chain[L.owner[c].s][L.owner[c].i] == c)
  }

  /** The used slots are exactly the owned ones: nothing is lost, nothing in use counts as free. */
  ghost predicate UsedExactly(fat: seq<u16>, L: Layout) {
    forall c :: 2 <= c < |fat| ==> (fat[c] != 0 <==> c in L.owner)
  }

  /** What reading relies on: the tree of directories and the chains of its entries. */
  ghost predicate ReadOk(m: Meta, L: Layout) {
    var directories := m.Shape() && DirsOk(m, L) && SlotsOk(m, L);
    var entries := directories && forall s :: s in L.chain ==> EntryOk(m, L, s);
    directories && entries && OwnersOk(L)
  }

  /** And no slot is lost. */
  ghost predicate VolumeOk(m: Meta, L: Layout) {
    ReadOk(m, L) && UsedExactly(m.fat, L)
  }

  /** An entry that owns has a chain on record. */
  lemma SlotOwned(m: Meta, L: Layout, s: Slot)
    requires SlotsOk(m, L) && s.d in L.rank && m.Has(s) && m.At(s).Owns()
    ensures s in L.chain
  {
  }

  ghost function ChainOf(L: Layout, s: Slot): seq<nat> {
    if s in L.chain then L.chain[s] else []
  }

  ghost function NextOwner(owner: map<nat, Owner>, s: Slot, ch: seq<nat>): map<nat, Owner> {
    map c | c in owner.Keys + (set x | x in ch) && (c in ch || owner[c].s != s) ::
      if c in ch then Owner(s, IndexOf(ch, c)) else owner[c]
  }

  /** The account after entry s became e with chain ch. */
  ghost function NextLayout(m: Meta, L: Layout, s: Slot, e: Entry, ch: seq<nat>): Layout
  {
    var gone := if s in L.chain && m.At(s).IsDir() then {m.At(s).first as int} else {};
    var rank, depth := L.rank - gone, if s.d in L.rank then L.rank[s.d] else 0;
    Layout(if e.Owns() && e.IsDir() then rank[e.first := depth + 1] else rank,
           if e.Owns() then L.chain[s := ch] else L.chain - {s},
           NextOwner(L.owner, s, ch))
  }

  /** Only the table slots of the chains s had (was) and has (ch) change; ch draws on clusters of was and free ones,
      and what it does not keep is released. */
  ghost predicate FatStep(fat: seq<u16>, fat': seq<u16>, was: seq<nat>, ch: seq<nat>) {
    && |fat'| == |fat|
    && (forall c :: 2 <= c < |fat| && c !in was && c !in ch ==> fat'[c] == fat[c])
    && (forall c :: c in was && c !in ch ==> c < |fat| && fat'[c] == 0)
    && (forall c :: c in ch ==> c in was || (2 <= c < |fat| && fat[c] == 0))
  }

  /** Entry s becomes e; the other directories stay, except the clusters of the chains of s. */
  ghost predicate DirStep(m: Meta, L: Layout, m': Meta, s: Slot, e: Entry, ch: seq<nat>)
  {
    && m.Has(s) && |m'.dirs| == |m.dirs|
    && (forall r :: r in L.rank && r != s.d && r !in ChainOf(L, s) && r !in ch ==> r < |m.dirs| && m'.dirs[r] == m.dirs[r])
    && m'.dirs[s.d] == m.dirs[s.d][s.j := e]
    && DirOk(m'.dirs[s.d])
  }

  /** A new file entry has the chain its size takes. A directory entry only appears where there was none, with one
      cluster that holds an empty directory, and only disappears when its directory is empty. */
  ghost predicate KindStep(m: Meta, L: Layout, m': Meta, s: Slot, e: Entry, ch: seq<nat>)
    requires m.Shape() && |m'.dirs| == |m.dirs|
  {
    && (if e.Owns() then Chain(m'.fat, e.first, ch) && BackedChain(m.g, ch) else ch == [])
    && (e.Owns() && !e.IsDir() ==> |ch| == CeilDiv(e.size, m.g.ClusterBytes()))
    && (e.Owns() && e.IsDir() ==>
          s !in L.chain && |ch| == 1 && e.first < |m.dirs| && DirOk(m'.dirs[e.first]) && NoneOwned(m'.dirs[e.first]))
    && (s in L.chain && m.At(s).IsDir() ==> !e.Owns() && m.At(s).first < |m.dirs| && NoneOwned(m.dirs[m.At(s).first]))
  }

  ghost predicate Step(m: Meta, L: Layout, m': Meta, L': Layout, s: Slot, e: Entry, ch: seq<nat>) {
    && VolumeOk(m, L) && s.d in L.rank && m.Has(s)
    && m'.g == m.g && m'.Shape()
    && FatStep(m.fat, m'.fat, ChainOf(L, s), ch)
    && DirStep(m, L, m', s, e, ch)
    && KindStep(m, L, m', s, e, ch)
    && L' == NextLayout(m, L, s, e, ch)
  }

  /** The same, for lemmas that only pass it on. */
  ghost predicate FoldedStep(m: Meta, L: Layout, m': Meta, L': Layout, s: Slot, e: Entry, ch: seq<nat>) {
    forall k :: Asked(k) ==> Step(m, L, m', L', s, e, ch)
  }

  // ---- what a step leaves alone ----

  lemma OwnedOnce(L: Layout, s: Slot, t: Slot, i: nat)
    requires OwnersOk(L) && t in L.chain && t != s && i < |L.chain[t]|
    ensures L.chain[t][i] !in ChainOf(L, s)
  {
    var c := L.chain[t][i];
    assert L.owner[c] == Owner(t, i);
  }

  lemma OwnedInUse(m: Meta, L: Layout, t: Slot, i: nat)
    requires VolumeOk(m, L) && t in L.chain && i < |L.chain[t]|
    ensures 2 <= L.chain[t][i] < |m.dirs| && m.fat[L.chain[t][i]] != 0
  {
    assert EntryOk(m, L, t);
    assert L.chain[t][i] in L.owner;
  }

  /** A cluster of another entry is neither given up nor taken over. */
  lemma OtherChainApart(m: Meta, L: Layout, fat': seq<u16>, s: Slot, ch: seq<nat>, t: Slot, i: nat)
    requires VolumeOk(m, L) && FatStep(m.fat, fat', ChainOf(L, s), ch)
    requires t in L.chain && t != s && i < |L.chain[t]|
    ensures L.chain[t][i] !in ChainOf(L, s) && L.chain[t][i] !in ch
    ensures 2 <= L.chain[t][i] < |m.fat| && fat'[L.chain[t][i]] == m.fat[L.chain[t][i]]
  {
    OwnedOnce(L, s, t, i);
    OwnedInUse(m, L, t, i);
  }

  /** Directory r is the one cluster of the entry that owns it. */
  lemma DirHome(m: Meta, L: Layout, r: nat)
    requires VolumeOk(m, L) && r in L.rank && r != 0
    ensures r in L.owner && L.owner[r].s in L.chain && m.Has(L.owner[r].s)
    ensures L.chain[L.owner[r].s] == [r] && m.At(L.owner[r].s).IsDir() && m.At(L.owner[r].s).first == r
  {
    assert EntryOk(m, L, L.owner[r].s);
  }

  lemma DirInUse(m: Meta, L: Layout, d: nat)
    requires VolumeOk(m, L) && d in L.rank
    ensures d == 0 || (2 <= d < |m.fat| && m.fat[d] != 0)
  {
    if d != 0 {
      DirHome(m, L, d);
      OwnedInUse(m, L, L.owner[d].s, 0);
    }
  }

  /** A directory other than the one s stands for keeps its sectors apart from the chains of s. */
  lemma DirApart(m: Meta, L: Layout, fat': seq<u16>, s: Slot, ch: seq<nat>, r: nat)
    requires VolumeOk(m, L) && FatStep(m.fat, fat', ChainOf(L, s), ch)
    requires r in L.rank && !(s in L.chain && m.At(s).IsDir() && m.At(s).first == r)
    ensures r !in ChainOf(L, s) && r !in ch
  {
    if r != 0 {
      DirHome(m, L, r);
      OtherChainApart(m, L, fat', s, ch, L.owner[r].s, 0);
    } else if s in L.chain {
      forall i | 0 <= i < |L.chain[s]| ensures L.chain[s][i] != 0 {
        OwnedInUse(m, L, s, i);
      }
    }
  }

  // ---- a step keeps the volume well formed ----

  lemma NextOwnersOk(L: Layout, L': Layout, s: Slot, ch: seq<nat>)
    requires OwnersOk(L) && NoDup(ch)
    requires forall t, i :: t in L.chain && t != s && 0 <= i < |L.chain[t]| ==> L.chain[t][i] !in ch
    requires L'.chain == L.chain[s := ch] || (L'.chain == L.chain - {s} && ch == [])
    requires L'.owner == NextOwner(L.owner, s, ch)
    ensures OwnersOk(L')
  {
    forall t, i | t in L'.chain && 0 <= i < |L'.chain[t]|
      ensures L'.chain[t][i] in L'.owner && L'.owner[L'.chain[t][i]] == Owner(t, i)
    {
      var c := L'.chain[t][i];
      if t == s {
        assert ch[IndexOf(ch, c)] == ch[i];
      } else {
        assert c !in ch && L.owner[c] == Owner(t, i);
      }
    }
  }

  lemma StepOwners(m: Meta, L: Layout, m': Meta, L': Layout, s: Slot, e: Entry, ch: seq<nat>)
    requires FoldedStep(m, L, m', L', s, e, ch)
    ensures OwnersOk(L')
  {
    assert Asked(0);
    if e.Owns() {
      ChainNoDup(m'.fat, e.first, ch);
    }
    forall t, i | t in L.chain && t != s && 0 <= i < |L.chain[t]| ensures L.chain[t][i] !in ch {
      OtherChainApart(m, L, m'.fat, s, ch, t, i);
    }
    NextOwnersOk(L, L', s, ch);
  }

  lemma NextUsed(fat: seq<u16>, fat': seq<u16>, L: Layout, L': Layout, s: Slot, ch: seq<nat>)
    requires OwnersOk(L) && UsedExactly(fat, L) && FatStep(fat, fat', ChainOf(L, s), ch)
    requires forall c :: c in ch ==> c < |fat| && fat'[c] != 0
    requires L'.owner == NextOwner(L.owner, s, ch)
    ensures UsedExactly(fat', L')
  {
    forall c | 2 <= c < |fat| ensures fat'[c] != 0 <==> c in L'.owner {
      if c !in ch && c in ChainOf(L, s) {
        var i :| 0 <= i < |ChainOf(L, s)| && ChainOf(L, s)[i] == c;
        assert L.owner[c] == Owner(s, i);
      }
    }
  }

  lemma StepUsed(m: Meta, L: Layout, m': Meta, L': Layout, s: Slot, e: Entry, ch: seq<nat>)
    requires FoldedStep(m, L, m', L', s, e, ch)
    ensures UsedExactly(m'.fat, L')
  {
    assert Asked(0);
    forall c | c in ch ensures c < |m.fat| && m'.fat[c] != 0 {
      ChainInUse(m'.fat, e.first, ch, c);
    }
    NextUsed(m.fat, m'.fat, L, L', s, ch);
  }

  /** The directories after the step: the old ones except a removed one, and perhaps a new one. */
  lemma StepRank(m: Meta, L: Layout, m': Meta, L': Layout, s: Slot, e: Entry, ch: seq<nat>, r: nat)
    requires FoldedStep(m, L, m', L', s, e, ch) && r in L'.rank
    ensures r in L.rank || (e.Owns() && e.IsDir() && r == e.first)
    ensures r in L.rank ==> !(e.Owns() && e.IsDir() && r == e.first) && L'.rank[r] == L.rank[r]
    ensures r in L.rank && r != s.d ==> r < |m.dirs| && r < |m'.dirs| && m'.dirs[r] == m.dirs[r]
    ensures m.Has(s) && (r in L.rank ==> !(s in L.chain && m.At(s).IsDir() && m.At(s).first == r))
  {
    assert Asked(0);
    if r in L.rank {
      if e.Owns() && e.IsDir() {
        assert ch[0] == e.first;
      }
      DirApart(m, L, m'.fat, s, ch, r);
    }
  }

  lemma RankKept(m: Meta, L: Layout, L': Layout, s: Slot, e: Entry, ch: seq<nat>, r: nat)
    requires L' == NextLayout(m, L, s, e, ch) && r in L.rank && !(s in L.chain && m.At(s).IsDir() && m.At(s).first == r)
    ensures r in L'.rank
  {
  }

  lemma NotInEmpty(m: Meta, L: Layout, t: Slot, r: nat)
    requires SlotsOk(m, L) && t in L.chain && r < |m.dirs| && NoneOwned(m.dirs[r])
    ensures t.d != r
  {
  }

  lemma EntryStays(m: Meta, m': Meta, s: Slot, e: Entry, t: Slot)
    requires m.Has(s) && m.Has(t) && t != s && |m'.dirs| == |m.dirs| && m'.dirs[s.d] == m.dirs[s.d][s.j := e]
    requires t.d != s.d ==> m'.dirs[t.d] == m.dirs[t.d]
    ensures m'.Has(t) && m'.At(t) == m.At(t)
  {
  }

  /** The entries other than s stay as they are. */
  lemma StepSlotKept(m: Meta, L: Layout, m': Meta, L': Layout, s: Slot, e: Entry, ch: seq<nat>, t: Slot)
    requires FoldedStep(m, L, m', L', s, e, ch) && t in L.chain && t != s
    ensures t.d in L'.rank && m'.Has(t) && m'.At(t) == m.At(t)
  {
    assert Asked(0);
    if s in L.chain && m.At(s).IsDir() {
      NotInEmpty(m, L, t, m.At(s).first);
    }
    RankKept(m, L, L', s, e, ch, t.d);
    StepRank(m, L, m', L', s, e, ch, t.d);
    EntryStays(m, m', s, e, t);
  }

  lemma NextOwnerKeeps(owner: map<nat, Owner>, s: Slot, ch: seq<nat>, c: nat)
    requires c in owner && c !in ch && owner[c].s != s
    ensures c in NextOwner(owner, s, ch) && NextOwner(owner, s, ch)[c] == owner[c]
  {
  }

  lemma StepDirKept(m: Meta, L: Layout, m': Meta, L': Layout, s: Slot, e: Entry, ch: seq<nat>, r: nat)
    requires FoldedStep(m, L, m', L', s, e, ch) && r in L.rank && r in L'.rank && r != 0
    ensures
        r in L'.owner && m'.Has(L'.owner[r].s) && m'.At(L'.owner[r].s).IsDir() && m'.At(L'.owner[r].s).first == r
  {
    assert Asked(0);
    StepRank(m, L, m', L', s, e, ch, r);
    DirHome(m, L, r);
    var t := L.owner[r].s;
    OtherChainApart(m, L, m'.fat, s, ch, t, 0);
    NextOwnerKeeps(L.owner, s, ch, r);
    StepSlotKept(m, L, m', L', s, e, ch, t);
  }

  lemma StepDirNew(m: Meta, L: Layout, m': Meta, L': Layout, s: Slot, e: Entry, ch: seq<nat>)
    requires Step(m, L, m', L', s, e, ch) && e.Owns() && e.IsDir()
    ensures
      var r := e.first;
      && 2 <= r < |m'.dirs| && DirOk(m'.dirs[r])
      && r in L'.owner && m'.Has(L'.owner[r].s) && m'.At(L'.owner[r].s).IsDir() && m'.At(L'.owner[r].s).first == r
  {
    assert ch == [e.first as int];
    NextOwnerNew(L.owner, s, ch, e.first);
  }

  lemma NextOwnerNew(owner: map<nat, Owner>, s: Slot, ch: seq<nat>, c: nat)
    requires c in ch
    ensures c in NextOwner(owner, s, ch) && NextOwner(owner, s, ch)[c].s == s
  {
  }

  lemma StepDir(m: Meta, L: Layout, m': Meta, L': Layout, s: Slot, e: Entry, ch: seq<nat>, r: nat)
    requires FoldedStep(m, L, m', L', s, e, ch) && r in L'.rank
    ensures r < |m'.dirs| && r != 1 && DirOk(m'.dirs[r])
  {
    assert Asked(0);
    StepRank(m, L, m', L', s, e, ch, r);
    if r !in L.rank {
      StepDirNew(m, L, m', L', s, e, ch);
    }
  }

  lemma StepHome(m: Meta, L: Layout, m': Meta, L': Layout, s: Slot, e: Entry, ch: seq<nat>, r: nat)
    requires FoldedStep(m, L, m', L', s, e, ch) && r in L'.rank && r != 0
    ensures r in L'.owner && m'.Has(L'.owner[r].s) && m'.At(L'.owner[r].s).IsDir() && m'.At(L'.owner[r].s).first == r
  {
    assert Asked(0);
    StepRank(m, L, m', L', s, e, ch, r);
    if r in L.rank {
      StepDirKept(m, L, m', L', s, e, ch, r);
    } else {
      StepDirNew(m, L, m', L', s, e, ch);
    }
  }

  lemma StepRoot(m: Meta, L: Layout, m': Meta, L': Layout, s: Slot, e: Entry, ch: seq<nat>)
    requires FoldedStep(m, L, m', L', s, e, ch)
    ensures 0 in L'.rank
  {
    assert Asked(0);
  }

  lemma StepDirs(m: Meta, L: Layout, m': Meta, L': Layout, s: Slot, e: Entry, ch: seq<nat>)
    requires FoldedStep(m, L, m', L', s, e, ch)
    ensures DirsOk(m', L')
  {
    StepRoot(m, L, m', L', s, e, ch);
    forall r | r in L'.rank ensures r < |m'.dirs| && r != 1 && DirOk(m'.dirs[r]) {
      StepDir(m, L, m', L', s, e, ch, r);
    }
    forall r | r in L'.rank && r != 0
      ensures r in L'.owner && m'.Has(L'.owner[r].s) && m'.At(L'.owner[r].s).IsDir() && m'.At(L'.owner[r].s).first == r
    {
      StepHome(m, L, m', L', s, e, ch, r);
    }
  }

  lemma StepEntryNew(m: Meta, L: Layout, m': Meta, L': Layout, s: Slot, e: Entry, ch: seq<nat>)
    requires FoldedStep(m, L, m', L', s, e, ch) && e.Owns()
    ensures
        m'.Shape() && s.d in L'.rank && m'.Has(s) && s in L'.chain && EntryOk(m', L', s)
  {
    assert Asked(0);
    assert s in L.chain ==> EntryOk(m, L, s);
    RankKept(m, L, L', s, e, ch, s.d);
    StepRank(m, L, m', L', s, e, ch, s.d);
  }

  lemma StepSlotSelf(m: Meta, L: Layout, m': Meta, L': Layout, s: Slot, e: Entry, ch: seq<nat>)
    requires FoldedStep(m, L, m', L', s, e, ch)
    ensures m'.Has(s) && m'.At(s) == e && (s in L'.chain <==> e.Owns()) && (e.Owns() ==> s.d in L'.rank)
  {
    assert Asked(0);
    if e.Owns() {
      StepEntryNew(m, L, m', L', s, e, ch);
    }
  }

  /** No other entry comes to own a chain. */
  lemma StepSlotOther(m: Meta, L: Layout, m': Meta, L': Layout, s: Slot, e: Entry, ch: seq<nat>, t: Slot)
    requires FoldedStep(m, L, m', L', s, e, ch) && t !in L.chain && t != s && t.d in L'.rank && m'.Has(t)
    ensures !m'.At(t).Owns()
  {
    StepRank(m, L, m', L', s, e, ch, t.d);
    assert Asked(0);
    if t.d in L.rank {
      assert m.Has(t) && m'.At(t) == m.At(t);
    }
  }

  lemma NextChains(m: Meta, L: Layout, L': Layout, s: Slot, e: Entry, ch: seq<nat>, t: Slot)
    requires L' == NextLayout(m, L, s, e, ch) && t != s
    ensures (t in L'.chain <==> t in L.chain) && (t in L.chain ==> L'.chain[t] == L.chain[t])
  {
  }

  lemma StepChains(m: Meta, L: Layout, m': Meta, L': Layout, s: Slot, e: Entry, ch: seq<nat>, t: Slot)
    requires FoldedStep(m, L, m', L', s, e, ch) && t != s
    ensures (t in L'.chain <==> t in L.chain) && ChainOf(L', t) == ChainOf(L, t)
    ensures t in L.chain ==> m.Has(t) && m.At(t).Owns()
  {
    assert Asked(0);
    NextChains(m, L, L', s, e, ch, t);
  }

  lemma StepSlot(m: Meta, L: Layout, m': Meta, L': Layout, s: Slot, e: Entry, ch: seq<nat>, t: Slot)
    requires FoldedStep(m, L, m', L', s, e, ch)
    ensures t in L'.chain <==> t.d in L'.rank && m'.Has(t) && m'.At(t).Owns()
  {
    if t == s {
      StepSlotSelf(m, L, m', L', s, e, ch);
    } else {
      StepChains(m, L, m', L', s, e, ch, t);
      if t in L.chain {
        StepSlotKept(m, L, m', L', s, e, ch, t);
      } else if t.d in L'.rank && m'.Has(t) {
        StepSlotOther(m, L, m', L', s, e, ch, t);
      }
    }
  }

  lemma StepSlots(m: Meta, L: Layout, m': Meta, L': Layout, s: Slot, e: Entry, ch: seq<nat>)
    requires FoldedStep(m, L, m', L', s, e, ch)
    ensures SlotsOk(m', L')
  {
    forall t ensures t in L'.chain <==> t.d in L'.rank && m'.Has(t) && m'.At(t).Owns() {
      StepSlot(m, L, m', L', s, e, ch, t);
    }
  }

  lemma StepEntry(m: Meta, L: Layout, m': Meta, L': Layout, s: Slot, e: Entry, ch: seq<nat>, t: Slot)
    requires FoldedStep(m, L, m', L', s, e, ch) && t in L.chain && t != s
    ensures
        m'.Shape() && t.d in L'.rank && m'.Has(t) && t in L'.chain && EntryOk(m', L', t)
  {
    assert Asked(0);
    StepSlotKept(m, L, m', L', s, e, ch, t);
    assert EntryOk(m, L, t);
    NextChains(m, L, L', s, e, ch, t);
    StepChainKept(m, L, m', L', s, e, ch, t);
    StepRank(m, L, m', L', s, e, ch, t.d);
    if m.At(t).IsDir() {
      StepSubdir(m, L, m', L', s, e, ch, t);
    }
  }

  /** The directory another entry stands for keeps its rank. */
  lemma StepSubdir(m: Meta, L: Layout, m': Meta, L': Layout, s: Slot, e: Entry, ch: seq<nat>, t: Slot)
    requires FoldedStep(m, L, m', L', s, e, ch) && t in L.chain && t != s && m.At(t).IsDir()
    ensures m.At(t).first in L.rank && m.At(t).first in L'.rank && L'.rank[m.At(t).first] == L.rank[m.At(t).first]
  {
    assert Asked(0);
    assert EntryOk(m, L, t);
    OwnedOnce(L, s, t, 0);
    assert s in L.chain ==> EntryOk(m, L, s);
    RankKept(m, L, L', s, e, ch, m.At(t).first);
    StepRank(m, L, m', L', s, e, ch, m.At(t).first);
  }

  lemma StepChainKept(m: Meta, L: Layout, m': Meta, L': Layout, s: Slot, e: Entry, ch: seq<nat>, t: Slot)
    requires FoldedStep(m, L, m', L', s, e, ch) && t in L.chain && t != s
    ensures m.Has(t) && Chain(m'.fat, m.At(t).first, L.chain[t])
  {
    assert Asked(0);
    assert EntryOk(m, L, t);
    forall i | 0 <= i < |L.chain[t]|
      ensures 2 <= L.chain[t][i] < |m.fat| && m'.fat[L.chain[t][i]] == m.fat[L.chain[t][i]]
    {
      OtherChainApart(m, L, m'.fat, s, ch, t, i);
    }
  }

  /** The one argument behind every operation: a step keeps the volume well formed. */
  lemma StepWellFormed(m: Meta, L: Layout, m': Meta, L': Layout, s: Slot, e: Entry, ch: seq<nat>)
    requires Step(m, L, m', L', s, e, ch)
    ensures VolumeOk(m', L')
  {
    StepDirs(m, L, m', L', s, e, ch);
    StepSlots(m, L, m', L', s, e, ch);
    StepOwners(m, L, m', L', s, e, ch);
    StepUsed(m, L, m', L', s, e, ch);
    forall t | t in L'.chain ensures EntryOk(m', L', t) {
      if t == s {
        StepEntryNew(m, L, m', L', s, e, ch);
      } else {
        StepEntry(m, L, m', L', s, e, ch, t);
      }
    }
  }

  /** Free-cluster accounting: a step gives back the old chain and takes the new one. */
  lemma StepFree(m: Meta, L: Layout, m': Meta, L': Layout, s: Slot, e: Entry, ch: seq<nat>)
    requires Step(m, L, m', L', s, e, ch)
    ensures FreeCount(m'.fat) + |ch| == FreeCount(m.fat) + |ChainOf(L, s)|
  {
    var was := ChainOf(L, s);
    if s in L.chain {
      assert EntryOk(m, L, s);
      ChainNoDup(m.fat, m.At(s).first, was);
      forall i | 0 <= i < |was| ensures 2 <= was[i] < |m.fat| && m.fat[was[i]] != 0 {
        ChainInUse(m.fat, m.At(s).first, was, was[i]);
      }
    }
    if e.Owns() {
      ChainNoDup(m'.fat, e.first, ch);
      forall i | 0 <= i < |ch| ensures 2 <= ch[i] < |m.fat| && m'.fat[ch[i]] != 0 {
        ChainInUse(m'.fat, e.first, ch, ch[i]);
      }
    }
    ZeroedCount(m.fat, was);
    ZeroedCount(m'.fat, ch);
    FreeListSame(Zeroed(m.fat, was), Zeroed(m'.fat, ch), 2);
  }

  // ---- slots without sectors ----

  /** With `free` free slots: the first n of them have data sectors, or there are fewer than n. */
  predicate Backs(g: Geometry, free: nat, n: nat) {
    n == 0 || n + g.Missing() <= free || n > free
  }

  /** No entry owns a slot without sectors. */
  lemma MissingFree(m: Meta, L: Layout)
    requires VolumeOk(m, L)
    ensures |FreeList(m.fat, m.g.backed)| == m.g.Missing()
  {
    forall c | m.g.backed <= c < |m.fat| ensures m.fat[c] == 0 {
      if m.fat[c] != 0 {
        OwnedInUse(m, L, L.owner[c].s, L.owner[c].i);
      }
    }
    AllFree(m.fat, m.g.backed);
  }

  /** So the slots fat_find_free gives have sectors as long as it is not asked for the last ones. */
  lemma FreesBacked(m: Meta, L: Layout, n: nat)
    requires VolumeOk(m, L) && n <= FreeCount(m.fat) && Backs(m.g, FreeCount(m.fat), n)
    ensures BackedChain(m.g, FreeList(m.fat, 2)[..n])
  {
    if n > 0 {
      MissingFree(m, L);
      FreeListBelow(m.fat, 2, m.g.backed);
    }
  }
}
