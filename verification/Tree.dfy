/** What a well-formed volume means to its users: a map from directories to maps from 8.3 names to files
    and subdirectories. Directory 0 is the root; the others are known by their cluster. */
module Tree {
  import opened Bytes
  import opened Folding
  import opened Disk
  import opened Fat
  import opened Directory
  import opened WellFormed

  datatype Option<T> = None | Some(value: T)

  datatype Node = File(content: seq<byte>) | Dir(id: nat)

  type Tree = map<nat, map<Name, Node>>

  // ---- the bytes of a chain ----

  /** The sectors of a chain, in order. */
  function Sectors(region: seq<seq<Sector>>, ch: seq<nat>): seq<Sector> {
    if ch == [] then [] else (if ch[0] < |region| then region[ch[0]] else []) + Sectors(region, ch[1..])
  }

  function Flat(secs: seq<Sector>): (b: seq<byte>)
    ensures |b| == 512 * |secs|
  {
    if secs == [] then [] else secs[0] + Flat(secs[1..])
  }

  function Content(region: seq<seq<Sector>>, ch: seq<nat>, size: nat): seq<byte> {
    var b := Flat(Sectors(region, ch));
    b[..Min(size, |b|)]
  }

  lemma {:induction false} SectorsSame(region: seq<seq<Sector>>, region': seq<seq<Sector>>, ch: seq<nat>)
    requires |region| == |region'|
    requires forall i :: 0 <= i < |ch| ==> ch[i] < |region| && region[ch[i]] == region'[ch[i]]
    ensures Sectors(region, ch) == Sectors(region', ch)
    decreases |ch|
  {
    if ch != [] {
      SectorsSame(region, region', ch[1..]);
    }
  }

  // ---- the tree ----

  ghost function OwnedNames(es: seq<Entry>): set<Name> {
    set j | 0 <= j < |es| && es[j].Owns() :: es[j].name
  }

  ghost function NodeAt(m: Meta, region: seq<seq<Sector>>, L: Layout, s: Slot): Node {
    if !m.Has(s) then File([])
    else if m.At(s).IsDir() then Dir(m.At(s).first)
    else File(Content(region, ChainOf(L, s), m.At(s).size))
  }

  ghost function NodesOf(m: Meta, region: seq<seq<Sector>>, L: Layout, d: nat): (nodes: seq<Node>)
    ensures |nodes| == |m.DirAt(d)|
  {
    seq(|m.DirAt(d)|, j requires 0 <= j < |m.DirAt(d)| => NodeAt(m, region, L, Slot(d, j)))
  }

  /** A directory whose entry j stands for nodes[j]. */
  ghost function DirMap(es: seq<Entry>, nodes: seq<Node>): map<Name, Node>
    requires |nodes| == |es|
  {
    map n | n in OwnedNames(es) :: if Find(es, n, 0) < |es| then nodes[Find(es, n, 0)] else File([])
  }

  ghost function TreeOf(m: Meta, region: seq<seq<Sector>>, L: Layout): Tree
  {
    map d | d in L.rank :: DirMap(m.DirAt(d), NodesOf(m, region, L, d))
  }

  /** The tree with name n of directory d standing for a node. */
  ghost function Put(t: Tree, d: nat, n: Name, node: Node): Tree
    requires d in t
  {
    var dm: map<Name, Node> := t[d][n := node];
    t[d := dm]
  }

  /** The tree without name n in directory d. */
  ghost function Drop(t: Tree, d: nat, n: Name): Tree
    requires d in t
  {
    t[d := t[d] - {n}]
  }

  /** Entry `gone` leaves directory d, then `come` enters it; a subdirectory goes and comes with its entry. */
  ghost function TreeStep(t: Tree, d: nat, gone: Option<Name>, come: Option<(Name, Node)>): Tree
    requires d in t && (gone.Some? ==> gone.value in t[d])
  {
    var t1 := if gone.Some? && t[d][gone.value].Dir? then t - {t[d][gone.value].id} else t;
    var dm := if gone.Some? then t[d] - {gone.value} else t[d];
    var t2 := t1[d := if come.Some? then dm[come.value.0 := come.value.1] else dm];
    if come.Some? && come.value.1.Dir? then t2[come.value.1.id := map[]] else t2
  }

  lemma StepIsPut(t: Tree, d: nat, gone: Option<Name>, n: Name, node: Node)
    requires d in t && node.File?
    requires gone.Some? ==> gone.value == n && n in t[d] && t[d][n].File?
    ensures TreeStep(t, d, gone, Some((n, node))) == Put(t, d, n, node)
  {
    if gone.Some? {
      assert (t[d] - {n})[n := node] == t[d][n := node];
    }
  }

  lemma StepIsDrop(t: Tree, d: nat, n: Name)
    requires d in t && n in t[d] && t[d][n].File?
    ensures TreeStep(t, d, Some(n), None) == Drop(t, d, n)
  {
  }

  lemma StepIsNewDir(t: Tree, d: nat, n: Name, id: nat)
    requires d in t
    ensures TreeStep(t, d, None, Some((n, Dir(id)))) == Put(t, d, n, Dir(id))[id := map[]]
  {
  }

  lemma StepIsRmdir(t: Tree, d: nat, n: Name, id: nat)
    requires d in t && n in t[d] && t[d][n] == Dir(id) && id != d
    ensures TreeStep(t, d, Some(n), None) == Drop(t, d, n) - {id}
  {
  }

  lemma StepIsMove(t: Tree, d: nat, n: Name, n': Name)
    requires d in t && n in t[d] && t[d][n].File?
    ensures TreeStep(t, d, Some(n), Some((n', t[d][n]))) == Put(Drop(t, d, n), d, n', t[d][n])
  {
  }

  /** Regions of no chain of s, other than the directory of s, are left alone. */
  ghost predicate RegionStep(region: seq<seq<Sector>>, region': seq<seq<Sector>>, d: nat, was: seq<nat>, ch: seq<nat>) {
    |region'| == |region| && forall r :: 0 <= r < |region| && r != d && r !in was && r !in ch ==> region'[r] == region[r]
  }

  lemma NamesExact(es: seq<Entry>, n: Name)
    requires DirOk(es) && n in OwnedNames(es)
    ensures var j := Find(es, n, 0); j < |es| && es[j].Owns() && es[j].name == n
  {
    FindExact(es, n);
  }

  lemma NodeSame(m: Meta, L: Layout, region: seq<seq<Sector>>, m': Meta, L': Layout, region': seq<seq<Sector>>, t: Slot)
    requires m.Has(t) && m'.Has(t) && m'.At(t) == m.At(t) && ChainOf(L', t) == ChainOf(L, t) && |region'| == |region|
    requires !m.At(t).IsDir() ==> forall c :: c in ChainOf(L, t) ==> c < |region| && region'[c] == region[c]
    ensures NodeAt(m', region', L', t) == NodeAt(m, region, L, t)
  {
    if !m.At(t).IsDir() {
      var ch := ChainOf(L, t);
      assert forall i :: 0 <= i < |ch| ==> ch[i] in ch;
      SectorsSame(region, region', ch);
    }
  }

  lemma RegionKept(m: Meta, L: Layout, fat': seq<u16>, s: Slot, ch: seq<nat>, region: seq<seq<Sector>>, region': seq<seq<Sector>>, t: Slot, c: nat)
    requires VolumeOk(m, L) && FatStep(m.fat, fat', ChainOf(L, s), ch) && s.d in L.rank
    requires t in L.chain && t != s && !m.At(t).IsDir() && c in L.chain[t]
    requires |region| == |m.dirs| && RegionStep(region, region', s.d, ChainOf(L, s), ch)
    ensures c < |region| && region'[c] == region[c]
  {
    var i :| 0 <= i < |L.chain[t]| && L.chain[t][i] == c;
    OtherChainApart(m, L, fat', s, ch, t, i);
    FileNotDir(m, L, t, i, s.d);
  }

  lemma RegionStays(m: Meta, L: Layout, m': Meta, L': Layout, s: Slot, e: Entry, ch: seq<nat>, region: seq<seq<Sector>>, region': seq<seq<Sector>>, t: Slot, c: nat)
    requires FoldedStep(m, L, m', L', s, e, ch) && t in L.chain && t != s && !m.At(t).IsDir() && c in L.chain[t]
    requires |region| == |m.dirs| && RegionStep(region, region', s.d, ChainOf(L, s), ch)
    ensures c < |region| && region'[c] == region[c]
  {
    assert Asked(0);
    RegionKept(m, L, m'.fat, s, ch, region, region', t, c);
  }

  lemma NodeKept(m: Meta, L: Layout, m': Meta, L': Layout, s: Slot, e: Entry, ch: seq<nat>, region: seq<seq<Sector>>, region': seq<seq<Sector>>, t: Slot)
    requires FoldedStep(m, L, m', L', s, e, ch) && t in L.chain && t != s
    requires |region| == |m.dirs| && RegionStep(region, region', s.d, ChainOf(L, s), ch)
    ensures NodeAt(m', region', L', t) == NodeAt(m, region, L, t)
  {
    StepSlotKept(m, L, m', L', s, e, ch, t);
    StepChains(m, L, m', L', s, e, ch, t);
    if !m.At(t).IsDir() {
      forall c | c in L.chain[t] ensures c < |region| && region'[c] == region[c] {
        RegionStays(m, L, m', L', s, e, ch, region, region', t, c);
      }
    }
    NodeSame(m, L, region, m', L', region', t);
  }

  /** A file's clusters are not directories. */
  lemma FileNotDir(m: Meta, L: Layout, t: Slot, i: nat, d: nat)
    requires VolumeOk(m, L) && t in L.chain && !m.At(t).IsDir() && i < |L.chain[t]| && d in L.rank
    ensures L.chain[t][i] != d
  {
    OwnedInUse(m, L, t, i);
    if d != 0 {
      DirHome(m, L, d);
      OwnedOnce(L, L.owner[d].s, t, i);
    }
  }

  /** The names after entry j of a directory became e. */
  lemma NamesStep(es: seq<Entry>, j: nat, e: Entry, n: Name)
    requires j < |es| && DirOk(es) && DirOk(es[j := e])
    ensures n in OwnedNames(es[j := e]) <==> (e.Owns() && n == e.name) || (n in OwnedNames(es) && !(es[j].Owns() && n == es[j].name))
  {
    var es' := es[j := e];
    if n in OwnedNames(es') {
      var k :| 0 <= k < |es'| && es'[k].Owns() && es'[k].name == n;
      if k != j {
        assert es[k] == es'[k];
      }
    }
    if es[j].Owns() {
      UniqueName(es, j);
    }
    if n in OwnedNames(es) && !(es[j].Owns() && n == es[j].name) {
      var k :| 0 <= k < |es| && es[k].Owns() && es[k].name == n;
      assert es'[k] == es[k];
    }
    if e.Owns() {
      assert es'[j] == e;
    }
  }

  /** Where a name is found after entry j of a directory became e. */
  lemma FindStep(es: seq<Entry>, j: nat, e: Entry, n: Name)
    requires j < |es| && DirOk(es) && DirOk(es[j := e]) && n in OwnedNames(es[j := e])
    ensures
      var k := Find(es[j := e], n, 0);
      && k < |es|
      && (k == j ==> e.Owns() && n == e.name)
      && (k != j ==> es[k].Owns() && Find(es, n, 0) == k && n in OwnedNames(es) && !(e.Owns() && n == e.name))
  {
    var es' := es[j := e];
    NamesExact(es', n);
    var k := Find(es', n, 0);
    if k != j {
      FindExact(es, n);
      assert es'[k] == es[k] && es'[j] == e;
      UniqueName(es', k);
    }
  }

  /** A directory without the name of entry j, then with that of e. */
  ghost function DirStepMap(es: seq<Entry>, nodes: seq<Node>, j: nat, e: Entry, node: Node): map<Name, Node>
    requires |nodes| == |es| && j < |es|
  {
    var dm := if es[j].Owns() then DirMap(es, nodes) - {es[j].name} else DirMap(es, nodes);
    if e.Owns() then dm[e.name := node] else dm
  }

  lemma DirMapKey(es: seq<Entry>, nodes: seq<Node>, j: nat, e: Entry, nodes': seq<Node>, n: Name)
    requires |nodes| == |nodes'| == |es| && j < |es| && DirOk(es) && DirOk(es[j := e])
    ensures n in DirMap(es[j := e], nodes') <==> n in DirStepMap(es, nodes, j, e, nodes'[j])
  {
    NamesStep(es, j, e, n);
  }

  lemma DirMapValue(es: seq<Entry>, nodes: seq<Node>, j: nat, e: Entry, nodes': seq<Node>, n: Name)
    requires |nodes| == |nodes'| == |es| && j < |es| && DirOk(es) && DirOk(es[j := e])
    requires forall k :: 0 <= k < |es| && k != j && es[k].Owns() ==> nodes'[k] == nodes[k]
    requires n in DirMap(es[j := e], nodes') && n in DirStepMap(es, nodes, j, e, nodes'[j])
    ensures DirMap(es[j := e], nodes')[n] == DirStepMap(es, nodes, j, e, nodes'[j])[n]
  {
    FindStep(es, j, e, n);
  }

  ghost predicate AgreeAt(a: map<Name, Node>, b: map<Name, Node>, n: Name) {
    if n in a then n in b && a[n] == b[n] else n !in b
  }

  lemma AgreeEverywhere(a: map<Name, Node>, b: map<Name, Node>)
    requires forall n :: AgreeAt(a, b, n)
    ensures a == b
  {
    assert forall n :: n in a ==> AgreeAt(a, b, n);
    assert forall n :: n in b ==> AgreeAt(a, b, n);
  }

  /** One entry of a directory changes, the nodes of the others stay. */
  lemma DirMapUpdate(es: seq<Entry>, nodes: seq<Node>, j: nat, e: Entry, nodes': seq<Node>)
    requires |nodes| == |nodes'| == |es| && j < |es| && DirOk(es) && DirOk(es[j := e])
    requires forall k :: 0 <= k < |es| && k != j && es[k].Owns() ==> nodes'[k] == nodes[k]
    ensures DirMap(es[j := e], nodes') == DirStepMap(es, nodes, j, e, nodes'[j])
  {
    var dm', want := DirMap(es[j := e], nodes'), DirStepMap(es, nodes, j, e, nodes'[j]);
    forall n ensures AgreeAt(dm', want, n) {
      DirMapKey(es, nodes, j, e, nodes', n);
      if n in dm' {
        DirMapValue(es, nodes, j, e, nodes', n);
      }
    }
    AgreeEverywhere(dm', want);
  }

  lemma DirMapSame(es: seq<Entry>, nodes: seq<Node>, nodes': seq<Node>)
    requires |nodes| == |nodes'| == |es| && DirOk(es)
    requires forall k :: 0 <= k < |es| && es[k].Owns() ==> nodes'[k] == nodes[k]
    ensures DirMap(es, nodes) == DirMap(es, nodes')
  {
    forall n | n in OwnedNames(es) ensures DirMap(es, nodes)[n] == DirMap(es, nodes')[n] {
      NamesExact(es, n);
    }
  }

  /** The nodes of all entries but s are the same. */
  ghost predicate NodesKept(m: Meta, L: Layout, region: seq<seq<Sector>>, m': Meta, L': Layout, region': seq<seq<Sector>>, s: Slot) {
    forall t :: t in L.chain && t != s ==> NodeAt(m', region', L', t) == NodeAt(m, region, L, t)
  }

  lemma StepNodesKept(m: Meta, L: Layout, m': Meta, L': Layout, s: Slot, e: Entry, ch: seq<nat>, region: seq<seq<Sector>>, region': seq<seq<Sector>>)
    requires Step(m, L, m', L', s, e, ch)
    requires |region| == |m.dirs| && RegionStep(region, region', s.d, ChainOf(L, s), ch)
    ensures NodesKept(m, L, region, m', L', region', s)
  {
    forall t | t in L.chain && t != s
      ensures NodeAt(m', region', L', t) == NodeAt(m, region, L, t)
    {
      NodeKept(m, L, m', L', s, e, ch, region, region', t);
    }
  }

  lemma DirMapKept(m: Meta, L: Layout, region: seq<seq<Sector>>, m': Meta, L': Layout, region': seq<seq<Sector>>, s: Slot, r: nat)
    requires SlotsOk(m, L) && NodesKept(m, L, region, m', L', region', s)
    requires r in L.rank && r != s.d && r < |m.dirs| && r < |m'.dirs| && m'.dirs[r] == m.dirs[r] && DirOk(m.dirs[r])
    ensures DirMap(m'.dirs[r], NodesOf(m', region', L', r)) == DirMap(m.dirs[r], NodesOf(m, region, L, r))
  {
    forall k | 0 <= k < |m.dirs[r]| && m.dirs[r][k].Owns()
      ensures NodesOf(m', region', L', r)[k] == NodesOf(m, region, L, r)[k]
    {
      assert Slot(r, k) in L.chain;
    }
    DirMapSame(m.dirs[r], NodesOf(m, region, L, r), NodesOf(m', region', L', r));
  }

  lemma DirMapStep(m: Meta, L: Layout, region: seq<seq<Sector>>, m': Meta, L': Layout, region': seq<seq<Sector>>, s: Slot, e: Entry)
    requires SlotsOk(m, L) && NodesKept(m, L, region, m', L', region', s)
    requires s.d in L.rank && m.Has(s) && s.d < |m'.dirs| && m'.dirs[s.d] == m.dirs[s.d][s.j := e]
    requires DirOk(m.dirs[s.d]) && DirOk(m'.dirs[s.d])
    ensures
      var dm := DirMap(m.dirs[s.d], NodesOf(m, region, L, s.d));
      var dm1 := if s in L.chain then dm - {m.At(s).name} else dm;
      DirMap(m'.dirs[s.d], NodesOf(m', region', L', s.d)) ==
        if e.Owns() then dm1[e.name := NodeAt(m', region', L', s)] else dm1
  {
    forall k | 0 <= k < |m.dirs[s.d]| && k != s.j && m.dirs[s.d][k].Owns()
      ensures NodesOf(m', region', L', s.d)[k] == NodesOf(m, region, L, s.d)[k]
    {
      assert Slot(s.d, k) in L.chain;
    }
    DirMapUpdate(m.dirs[s.d], NodesOf(m, region, L, s.d), s.j, e, NodesOf(m', region', L', s.d));
    assert s == Slot(s.d, s.j);
  }

  ghost function Gone(m: Meta, L: Layout, s: Slot): Option<Name> {
    if s in L.chain then Some(m.At(s).name) else None
  }

  ghost function Come(e: Entry, node: Node): Option<(Name, Node)> {
    if e.Owns() then Some((e.name, node)) else None
  }

  /** TreeStep, directory by directory. */
  lemma TreeStepIs(t: Tree, t': Tree, d: nat, gone: Option<Name>, come: Option<(Name, Node)>)
    requires d in t && (gone.Some? ==> gone.value in t[d]) && d in t'
    requires
      var dm := if gone.Some? then t[d] - {gone.value} else t[d];
      t'[d] == if come.Some? then dm[come.value.0 := come.value.1] else dm
    requires forall r :: r in t && r != d ==>
               (r in t' <==> !(gone.Some? && t[d][gone.value] == Dir(r)) || (come.Some? && come.value.1 == Dir(r)))
    requires forall r :: r in t && r in t' && r != d && !(come.Some? && come.value.1 == Dir(r)) ==> t'[r] == t[r]
    requires forall r :: r in t' && r !in t ==> come.Some? && come.value.1 == Dir(r)
    requires come.Some? && come.value.1.Dir? ==> come.value.1.id != d && come.value.1.id in t' && t'[come.value.1.id] == map[]
    ensures t' == TreeStep(t, d, gone, come)
  {
  }

  lemma EmptyDirMap(es: seq<Entry>, nodes: seq<Node>)
    requires |nodes| == |es| && NoneOwned(es)
    ensures DirMap(es, nodes) == map[]
  {
  }

  /** Which directories there are after a step, and which of them are as before. */
  ghost predicate RankStep(m: Meta, L: Layout, m': Meta, L': Layout, s: Slot, e: Entry) {
    && |m'.dirs| == |m.dirs| && s.d in L'.rank
    && (forall r :: r in L.rank && r != s.d ==>
          (r in L'.rank <==> !(s in L.chain && m.At(s).IsDir() && m.At(s).first == r)))
    && (forall r :: r in L.rank && r in L'.rank && r != s.d ==> r < |m.dirs| && m'.dirs[r] == m.dirs[r])
    && (forall r :: r in L'.rank && r !in L.rank ==> e.Owns() && e.IsDir() && r == e.first)
    && (e.Owns() && e.IsDir() ==>
          e.first in L'.rank && e.first !in L.rank && e.first < |m'.dirs| && NoneOwned(m'.dirs[e.first]))
  }

  lemma StepRankNew(m: Meta, L: Layout, m': Meta, L': Layout, s: Slot, e: Entry, ch: seq<nat>)
    requires Step(m, L, m', L', s, e, ch) && e.Owns() && e.IsDir()
    ensures e.first in L'.rank && e.first !in L.rank
  {
    StepRank(m, L, m', L', s, e, ch, e.first);
  }

  lemma StepRankAll(m: Meta, L: Layout, m': Meta, L': Layout, s: Slot, e: Entry, ch: seq<nat>)
    requires Step(m, L, m', L', s, e, ch)
    ensures RankStep(m, L, m', L', s, e)
  {
    assert s in L.chain ==> EntryOk(m, L, s);
    RankKept(m, L, L', s, e, ch, s.d);
    if e.Owns() && e.IsDir() {
      StepRankNew(m, L, m', L', s, e, ch);
    }
    forall r | r in L'.rank
      ensures r !in L.rank ==> e.Owns() && e.IsDir() && r == e.first
      ensures r in L.rank ==> !(s in L.chain && m.At(s).IsDir() && m.At(s).first == r)
      ensures r in L.rank && r != s.d ==> r < |m.dirs| && m'.dirs[r] == m.dirs[r]
    {
      StepRank(m, L, m', L', s, e, ch, r);
    }
    forall r | r in L.rank && !(s in L.chain && m.At(s).IsDir() && m.At(s).first == r) ensures r in L'.rank {
      RankKept(m, L, L', s, e, ch, r);
    }
  }

  lemma TreeDirKept(m: Meta, L: Layout, m': Meta, L': Layout, s: Slot, e: Entry, region: seq<seq<Sector>>, region': seq<seq<Sector>>, r: nat)
    requires DirsOk(m, L) && DirsOk(m', L') && SlotsOk(m, L) && RankStep(m, L, m', L', s, e)
    requires NodesKept(m, L, region, m', L', region', s)
    requires r in L.rank && r in L'.rank && r != s.d
    ensures TreeOf(m', region', L')[r] == TreeOf(m, region, L)[r]
  {
    DirMapKept(m, L, region, m', L', region', s, r);
  }

  lemma TreeDirNew(m: Meta, L: Layout, m': Meta, L': Layout, s: Slot, e: Entry, region': seq<seq<Sector>>)
    requires DirsOk(m', L') && RankStep(m, L, m', L', s, e) && e.Owns() && e.IsDir()
    ensures TreeOf(m', region', L')[e.first] == map[]
  {
    EmptyDirMap(m'.dirs[e.first], NodesOf(m', region', L', e.first));
  }

  lemma NodeIsDir(m: Meta, region: seq<seq<Sector>>, L: Layout, s: Slot, r: nat)
    requires m.Has(s)
    ensures NodeAt(m, region, L, s) == Dir(r) <==> m.At(s).IsDir() && m.At(s).first == r
  {
  }

  lemma TreeOfStep(m: Meta, L: Layout, m': Meta, L': Layout, s: Slot, e: Entry, region: seq<seq<Sector>>, region': seq<seq<Sector>>)
    requires DirsOk(m, L) && DirsOk(m', L') && SlotsOk(m, L) && RankStep(m, L, m', L', s, e)
    requires NodesKept(m, L, region, m', L', region', s)
    requires s.d in L.rank && m.Has(s) && m'.dirs[s.d] == m.dirs[s.d][s.j := e]
    requires
      var t := TreeOf(m, region, L);
      s in L.chain ==> m.At(s).name in t[s.d] && t[s.d][m.At(s).name] == NodeAt(m, region, L, s)
    ensures TreeOf(m', region', L') == TreeStep(TreeOf(m, region, L), s.d, Gone(m, L, s), Come(e, NodeAt(m', region', L', s)))
  {
    var t, t' := TreeOf(m, region, L), TreeOf(m', region', L');
    DirMapStep(m, L, region, m', L', region', s, e);
    forall r | r in t && r in t' && r != s.d ensures t'[r] == t[r] {
      TreeDirKept(m, L, m', L', s, e, region, region', r);
    }
    if e.Owns() && e.IsDir() {
      TreeDirNew(m, L, m', L', s, e, region');
    }
    var node, node' := NodeAt(m, region, L, s), NodeAt(m', region', L', s);
    forall r: nat
      ensures node == Dir(r) <==> m.At(s).IsDir() && m.At(s).first == r
      ensures node' == Dir(r) <==> e.IsDir() && e.first == r
    {
      NodeIsDir(m, region, L, s, r);
      NodeIsDir(m', region', L', s, r);
    }
    TreeStepIs(t, t', s.d, Gone(m, L, s), Come(e, node'));
  }

  /** A step changes the tree in one place. */
  lemma StepTree(m: Meta, L: Layout, m': Meta, L': Layout, s: Slot, e: Entry, ch: seq<nat>, region: seq<seq<Sector>>, region': seq<seq<Sector>>)
    requires Step(m, L, m', L', s, e, ch)
    requires |region| == |m.dirs| && RegionStep(region, region', s.d, ChainOf(L, s), ch)
    ensures VolumeOk(m', L')
    ensures
      var t := TreeOf(m, region, L);
      && s.d in t && (s in L.chain ==> m.At(s).name in t[s.d])
      && TreeOf(m', region', L') == TreeStep(t, s.d, Gone(m, L, s), Come(e, NodeAt(m', region', L', s)))
  {
    StepWellFormed(m, L, m', L', s, e, ch);
    if s in L.chain {
      EntryInTree(m, region, L, s);
    }
    StepNodesKept(m, L, m', L', s, e, ch, region, region');
    StepRankAll(m, L, m', L', s, e, ch);
    TreeOfStep(m, L, m', L', s, e, region, region');
  }

  /** An entry that owns is found under its name. */
  lemma DirMapAt(es: seq<Entry>, nodes: seq<Node>, j: nat)
    requires |nodes| == |es| && DirOk(es) && j < |es| && es[j].Owns()
    ensures es[j].name in DirMap(es, nodes) && DirMap(es, nodes)[es[j].name] == nodes[j]
  {
    FindExact(es, es[j].name);
  }

  /** Looking an entry's name up in the tree gives what the entry stands for. */
  lemma EntryInTree(m: Meta, region: seq<seq<Sector>>, L: Layout, s: Slot)
    requires ReadOk(m, L) && s in L.chain
    ensures
      var t := TreeOf(m, region, L);
      s.d in t && m.At(s).name in t[s.d] && t[s.d][m.At(s).name] == NodeAt(m, region, L, s)
  {
    DirMapAt(m.DirAt(s.d), NodesOf(m, region, L, s.d), s.j);
  }
}
