/** Taking clusters: a fresh chain for fat_write_file, and growing a chain for fat_append_file and
    fat_write_file_at. Both take the first free slots in order. */
module Allocation {
  import opened Sequences
  import opened Bytes
  import opened Disk
  import opened Fat

  /** The table with every slot of ch marked as an end of chain. */
  ghost function Marked(fat: seq<u16>, ch: seq<nat>): seq<u16> {
    seq(|fat|, c requires 0 <= c < |fat| => if c in ch then LAST else fat[c])
  }

  /** The first n free slots. */
  ghost function FirstFrees(fat: seq<u16>, n: nat): seq<nat>
    requires n <= FreeCount(fat)
  {
    FreeList(fat, 2)[..n]
  }

  lemma FreesAreFree(fat: seq<u16>, n: nat)
    requires n <= FreeCount(fat)
    ensures NoDup(FirstFrees(fat, n))
    ensures forall c :: c in FirstFrees(fat, n) ==> 2 <= c < |fat| && fat[c] == 0
  {
    FreeListExact(fat, 2);
    assert forall c :: c in FirstFrees(fat, n) ==> c in FreeList(fat, 2);
  }

  lemma MarkOne(fat: seq<u16>, ch: seq<nat>, c: nat)
    requires c < |fat|
    ensures Marked(fat, ch + [c]) == Marked(fat, ch)[c := LAST]
  {
  }

  lemma UnmarkOne(fat: seq<u16>, ch: seq<nat>, j: nat)
    requires j < |ch| && NoDup(ch) && ch[j] < |fat| && fat[ch[j]] == 0
    ensures Marked(fat, ch[j..])[ch[j] := 0] == Marked(fat, ch[j + 1..])
  {
    assert ch[j..] == [ch[j]] + ch[j + 1..];
    assert ch[j] !in ch[j + 1..];
  }

  /** Writes that show an image in which only slots free in `fat` differ. */
  lemma TraceGrows(fat: seq<u16>, a: Image, base: seq<seq<Sector>>, trace: seq<seq<Sector>>, trace': seq<seq<Sector>>, b: Image)
    requires TraceSpares(fat, a, base, trace) && Showed(trace, trace', b) && Spares(fat, a, b)
    ensures TraceSpares(fat, a, base, trace')
  {
    forall k | |base| <= k < |trace'| ensures DiskSpares(fat, a, trace'[k]) {
      if k < |trace| {
        assert trace'[k] == trace[k];
      }
    }
  }

  lemma MarkedSpares(a: Image, ch: seq<nat>)
    requires a.Shape() && forall c :: c in ch ==> 2 <= c < |a.fat| && a.fat[c] == 0
    ensures Spares(a.fat, a, a.(fat := Marked(a.fat, ch)))
  {
  }

  /** The first loop of fat_write_file: claim `needed` clusters, or give them all back. */
  method ClaimClusters(v: Volume, needed: nat) returns (ok: bool, chain: seq<nat>)
    requires v.Mounted()
    modifies v`disk, v`img, v`trace
    ensures v.Mounted()
    ensures ok <==> needed <= old(FreeCount(v.img.fat))
    ensures ok ==> chain == FirstFrees(old(v.img.fat), needed)
    ensures ok ==> v.img == old(v.img).(fat := Marked(old(v.img.fat), chain))
    ensures !ok ==> v.img == old(v.img)
    ensures TraceSpares(old(v.img.fat), old(v.img), old(v.trace), v.trace)
  {
    ghost var img, fat, base := v.img, v.img.fat, v.trace;
    ghost var frees := FreeList(fat, 2);
    chain := [];
    assert Marked(fat, []) == fat;
    while |chain| < needed
      invariant v.Mounted() && |chain| <= needed && |chain| <= |frees| && chain == frees[..|chain|]
      invariant v.img == img.(fat := Marked(fat, chain))
      invariant FreeList(v.img.fat, 2) == frees[|chain|..]
      invariant TraceSpares(fat, img, base, v.trace)
    {
      var clus := FatFindFree(v);
      if clus == 0 {
        ReleaseClusters(v, chain, img, base);
        return false, chain;
      }
      FreeListTake(v.img.fat, 2, LAST);
      ClaimOne(v, chain, clus, img, base);
      chain := chain + [clus];
    }
    ok := true;
  }

  /** A free cluster is marked as the last one claimed. */
  method ClaimOne(v: Volume, chain: seq<nat>, clus: u16, ghost img: Image, ghost base: seq<seq<Sector>>)
    requires v.Mounted() && img.Shape() && v.img == img.(fat := Marked(img.fat, chain)) && TraceSpares(img.fat, img, base, v.trace)
    requires |chain| < FreeCount(img.fat) && chain == FirstFrees(img.fat, |chain|) && clus == FreeList(img.fat, 2)[|chain|] && clus < |img.fat|
    modifies v`disk, v`img, v`trace
    ensures v.Mounted() && v.img == img.(fat := Marked(img.fat, chain + [clus])) && TraceSpares(img.fat, img, base, v.trace)
    ensures v.img.fat == old(v.img.fat)[clus := LAST]
  {
    FreesAreFree(img.fat, |chain| + 1);
    assert FirstFrees(img.fat, |chain| + 1) == chain + [clus as int];
    assert clus as int in chain + [clus as int];
    MarkOne(img.fat, chain, clus);
    MarkedSpares(img, chain + [clus]);
    FatSetEntry(v, clus, LAST);
    TraceGrows(img.fat, img, base, old(v.trace), v.trace, v.img);
  }

  lemma RestSpare(fat: seq<u16>, chain: seq<nat>, j: nat)
    requires Spare(fat, chain) && j <= |chain|
    ensures forall c :: c in chain[j..] ==> 2 <= c < |fat| && fat[c] == 0
  {
    forall c | c in chain[j..] ensures c in chain {
    }
  }

  /** The rollback loop of fat_write_file. */
  method ReleaseClusters(v: Volume, chain: seq<nat>, ghost img: Image, ghost base: seq<seq<Sector>>)
    requires v.Mounted() && img.Shape() && v.img == img.(fat := Marked(img.fat, chain)) && TraceSpares(img.fat, img, base, v.trace)
    requires |chain| <= FreeCount(img.fat) && chain == FirstFrees(img.fat, |chain|)
    modifies v`disk, v`img, v`trace
    ensures v.Mounted() && v.img == img && TraceSpares(img.fat, img, base, v.trace)
  {
    ghost var fat := img.fat;
    FreesAreFree(fat, |chain|);
    assert Spare(fat, chain);
    var j := 0;
    while j < |chain|
      invariant v.Mounted() && j <= |chain| && Spare(fat, chain)
      invariant v.img == img.(fat := Marked(fat, chain[j..])) && TraceSpares(fat, img, base, v.trace)
    {
      assert chain[j] in chain;
      UnmarkOne(fat, chain, j);
      RestSpare(fat, chain, j + 1);
      MarkedSpares(img, chain[j + 1..]);
      ghost var trace := v.trace;
      FatSetEntry(v, chain[j], 0);
      TraceGrows(fat, img, base, trace, v.trace, v.img);
      j := j + 1;
    }
    assert Marked(fat, chain[|chain|..]) == fat;
  }

  /** The slots of ch hold their successors up to link n, end marks from there on; the others are as in fat. */
  ghost predicate LinkedTo(fat: seq<u16>, fat': seq<u16>, ch: seq<nat>, n: nat) {
    && |fat'| == |fat|
    && (forall c :: 0 <= c < |fat| && c !in ch ==> fat'[c] == fat[c])
    && (forall k :: 0 <= k < |ch| ==> ch[k] < |fat|)
    && (forall k :: 0 <= k < n && k + 1 < |ch| ==> fat'[ch[k]] == ch[k + 1])
    && (forall k :: n <= k < |ch| ==> fat'[ch[k]] == LAST)
  }

  lemma LinkedSpares(a: Image, b: Image, ch: seq<nat>, n: nat)
    requires a.Shape() && b == a.(fat := b.fat) && LinkedTo(a.fat, b.fat, ch, n)
    requires forall c :: c in ch ==> 2 <= c < |a.fat| && a.fat[c] == 0
    ensures Spares(a.fat, a, b)
  {
  }

  /** The linking loop of fat_write_file, on clusters claimed since img. */
  method LinkClusters(v: Volume, chain: seq<nat>, ghost img: Image, ghost base: seq<seq<Sector>>)
    requires v.Mounted() && img.Shape() && img.g == v.g && chain != [] && Spare(img.fat, chain)
    requires v.img == img.(fat := Marked(img.fat, chain)) && TraceSpares(img.fat, img, base, v.trace)
    modifies v`disk, v`img, v`trace
    ensures v.Mounted() && v.img == img.(fat := v.img.fat) && TraceSpares(img.fat, img, base, v.trace)
    ensures LinkedTo(img.fat, v.img.fat, chain, |chain| - 1)
  {
    assert forall k :: 0 <= k < |chain| ==> chain[k] in chain;
    var i := 0;
    while i < |chain| - 1
      invariant v.Mounted() && 0 <= i <= |chain| - 1 && v.img == img.(fat := v.img.fat)
      invariant LinkedTo(img.fat, v.img.fat, chain, i) && TraceSpares(img.fat, img, base, v.trace)
    {
      LinkOne(v, chain, i, img, base);
      i := i + 1;
    }
    LinkLast(v, chain, img, base);
  }

  method LinkOne(v: Volume, chain: seq<nat>, i: nat, ghost img: Image, ghost base: seq<seq<Sector>>)
    requires v.Mounted() && img.Shape() && img.g == v.g && i < |chain| - 1 && Spare(img.fat, chain)
    requires v.img == img.(fat := v.img.fat) && LinkedTo(img.fat, v.img.fat, chain, i) && TraceSpares(img.fat, img, base, v.trace)
    modifies v`disk, v`img, v`trace
    ensures v.Mounted() && v.img == img.(fat := v.img.fat) && LinkedTo(img.fat, v.img.fat, chain, i + 1)
    ensures TraceSpares(img.fat, img, base, v.trace)
  {
    assert chain[i] in chain && chain[i + 1] in chain;
    FatSetEntry(v, chain[i], chain[i + 1]);
    LinkedSpares(img, v.img, chain, i + 1);
    TraceGrows(img.fat, img, base, old(v.trace), v.trace, v.img);
  }

  method LinkLast(v: Volume, chain: seq<nat>, ghost img: Image, ghost base: seq<seq<Sector>>)
    requires v.Mounted() && img.Shape() && img.g == v.g && chain != [] && Spare(img.fat, chain)
    requires v.img == img.(fat := v.img.fat) && LinkedTo(img.fat, v.img.fat, chain, |chain| - 1) && TraceSpares(img.fat, img, base, v.trace)
    modifies v`disk, v`img, v`trace
    ensures v.Mounted() && v.img == img.(fat := v.img.fat) && LinkedTo(img.fat, v.img.fat, chain, |chain| - 1)
    ensures TraceSpares(img.fat, img, base, v.trace)
  {
    assert chain[|chain| - 1] in chain;
    FatSetEntry(v, chain[|chain| - 1], LAST);
    LinkedSpares(img, v.img, chain, |chain| - 1);
    TraceGrows(img.fat, img, base, old(v.trace), v.trace, v.img);
  }

  // ---- growing a chain ----

  /** Appends `more` after cluster `last`, one by one. */
  ghost function Extended(fat: seq<u16>, last: nat, more: seq<nat>): (r: seq<u16>)
    requires last < |fat| <= EOC && forall c :: c in more ==> c < |fat|
    ensures |r| == |fat|
    decreases |more|
  {
    if more == [] then fat
    else
      assert more[0] in more && forall c :: c in more[1..] ==> c in more;
      Extended(fat[last := more[0]][more[0] := LAST], more[0], more[1..])
  }

  ghost function LastOf(last: nat, more: seq<nat>): nat {
    if more == [] then last else more[|more| - 1]
  }

  lemma {:induction false} ExtendedSnoc(fat: seq<u16>, last: nat, more: seq<nat>, c: nat)
    requires last < |fat| <= EOC && (forall x :: x in more ==> x < |fat|) && c < |fat|
    ensures forall x :: x in more + [c] ==> x < |fat|
    ensures LastOf(last, more) < |fat|
    ensures Extended(fat, last, more + [c]) == Extended(fat, last, more)[LastOf(last, more) := c][c := LAST]
    decreases |more|
  {
    assert forall x :: x in more + [c] ==> x in more || x == c;
    if more != [] {
      assert more[0] in more && more[|more| - 1] in more && forall x :: x in more[1..] ==> x in more;
      ExtendedSnoc(fat[last := more[0]][more[0] := LAST], more[0], more[1..], c);
      assert (more + [c])[1..] == more[1..] + [c];
      assert LastOf(more[0], more[1..]) == LastOf(last, more);
    } else {
      assert (more + [c])[1..] == [];
    }
  }

  /** Clusters that extend a chain: distinct and free. */
  ghost predicate Spare(fat: seq<u16>, more: seq<nat>) {
    NoDup(more) && forall c :: c in more ==> 2 <= c < |fat| && fat[c] == 0
  }

  lemma AttachedChain(fat: seq<u16>, first: nat, ch: seq<nat>, c: nat)
    requires |fat| <= EOC && Chain(fat, first, ch) && ch != [] && 2 <= c < |fat| && fat[c] == 0
    ensures Chain(fat[ch[|ch| - 1] := c][c := LAST], first, ch + [c])
  {
    var last, fat', ch' := ch[|ch| - 1], fat[ch[|ch| - 1] := c][c := LAST], ch + [c];
    ChainNoDup(fat, first, ch);
    forall i | 0 <= i < |ch| ensures ch[i] != c {
      ChainInUse(fat, first, ch, ch[i]);
    }
    forall i | 0 <= i < |ch'| - 1 ensures fat'[ch'[i]] == ch'[i + 1] {
      if i < |ch| - 1 {
        assert fat[ch[i]] == ch[i + 1];
      }
    }
  }

  /** Growing a chain by spare clusters gives the longer chain and touches no other slot. */
  lemma {:induction false} ExtendedChain(fat: seq<u16>, first: nat, ch: seq<nat>, more: seq<nat>)
    requires |fat| <= EOC && Chain(fat, first, ch) && ch != [] && Spare(fat, more)
    ensures ch[|ch| - 1] < |fat|
    ensures Chain(Extended(fat, ch[|ch| - 1], more), first, ch + more)
    ensures forall c :: 0 <= c < |fat| && c !in ch && c !in more ==> Extended(fat, ch[|ch| - 1], more)[c] == fat[c]
    decreases |more|
  {
    if more == [] {
      assert ch + more == ch;
    } else {
      var last, c := ch[|ch| - 1], more[0];
      assert c in more;
      var fat' := fat[last := c][c := LAST];
      AttachedChain(fat, first, ch, c);
      ChainInUse(fat, first, ch, last);
      forall x | x in more[1..] ensures 2 <= x < |fat| && fat'[x] == 0 {
        var i :| 1 <= i < |more| && more[i] == x;
        assert x in more && x != c && x != last;
      }
      ExtendedChain(fat', first, ch + [c], more[1..]);
      assert (ch + [c]) + more[1..] == ch + more;
      assert (ch + [c])[|ch + [c]| - 1] == c;
      forall x | 0 <= x < |fat| && x !in ch && x !in more ensures Extended(fat, last, more)[x] == fat[x] {
        assert last in ch && x !in ch + [c] && x !in more[1..];
      }
    }
  }

  /** The body of the growing loops: find a free cluster, hang it after `last`, end the chain there. */
  method Attach(v: Volume, last: nat) returns (c: u16)
    requires v.Mounted() && 2 <= last < v.g.Slots() && v.img.fat[last] != 0 && FreeCount(v.img.fat) > 0
    modifies v`disk, v`img, v`trace
    ensures v.Mounted() && c == old(FreeList(v.img.fat, 2))[0] && 2 <= c < v.g.Slots() && old(v.img.fat)[c] == 0
    ensures v.img == old(v.img).(fat := old(v.img.fat)[last := c][c := LAST])
    ensures FreeList(v.img.fat, 2) == old(FreeList(v.img.fat, 2))[1..]
  {
    c := FatFindFree(v);
    ghost var fat := v.img.fat;
    FreeListSame(fat, fat[last := c], 2);
    FreeListTake(fat[last := c], 2, LAST);
    FatSetEntry(v, last, c);
    FatSetEntry(v, c, LAST);
  }

  /** The growing loop of fat_write_file_at. Its out-of-space return is not reached. */
  method GrowChain(v: Volume, last: nat, extra: nat)
    requires v.Mounted() && 2 <= last < v.g.Slots() && v.img.fat[last] != 0 && extra <= FreeCount(v.img.fat)
    modifies v`disk, v`img, v`trace
    ensures v.Mounted() && Spare(old(v.img.fat), FirstFrees(old(v.img.fat), extra))
    ensures v.img == old(v.img).(fat := Extended(old(v.img.fat), last, FirstFrees(old(v.img.fat), extra)))
    ensures FreeList(v.img.fat, 2) == old(FreeList(v.img.fat, 2))[extra..]
  {
    ghost var fat, frees := v.img.fat, FreeList(v.img.fat, 2);
    FreesAreFree(fat, extra);
    var i, cur := 0, last;
    while i < extra
      invariant v.Mounted() && 0 <= i <= extra
      invariant 2 <= cur < v.g.Slots() && v.img.fat[cur] != 0 && cur == LastOf(last, frees[..i])
      invariant forall x :: x in frees[..i] ==> x < |fat|
      invariant v.img == old(v.img).(fat := Extended(fat, last, frees[..i]))
      invariant FreeList(v.img.fat, 2) == frees[i..]
    {
      var c := Attach(v, cur);
      ExtendedSnoc(fat, last, frees[..i], c);
      assert frees[..i] + [c as int] == frees[..i + 1];
      i, cur := i + 1, c;
    }
  }

  lemma EndOfChain(fat: seq<u16>, first: nat, ch: seq<nat>, i: nat)
    requires |fat| <= EOC && Chain(fat, first, ch) && i < |ch|
    ensures 2 <= ch[i] < |fat| && (fat[ch[i]] >= EOC <==> i == |ch| - 1)
    ensures i < |ch| - 1 ==> fat[ch[i]] == ch[i + 1]
  {
    assert i < |ch| - 1 ==> ch[i + 1] < |fat|;
  }

  /** The walk to the end of a chain. */
  method LastCluster(v: Volume, first: u16, ghost ch: seq<nat>) returns (last: u16)
    requires v.Readable() && Chain(v.img.fat, first, ch) && ch != []
    ensures last == ch[|ch| - 1]
  {
    last := first;
    ghost var i := 0;
    EndOfChain(v.img.fat, first, ch, 0);
    var next := FatEntry(v, last);
    while next < EOC
      invariant 0 <= i < |ch| && last == ch[i] && next == v.img.fat[last]
      invariant next >= EOC <==> i == |ch| - 1
      decreases |ch| - i
    {
      EndOfChain(v.img.fat, first, ch, i);
      EndOfChain(v.img.fat, first, ch, i + 1);
      last, i := next, i + 1;
      next := FatEntry(v, last);
    }
  }

  /** The walk to link `index`. Its error return is not reached on a chain that is long enough. */
  method WalkTo(v: Volume, first: u16, index: nat, ghost ch: seq<nat>) returns (cluster: u16)
    requires v.Readable() && Chain(v.img.fat, first, ch) && index < |ch|
    ensures cluster == ch[index]
  {
    cluster := first;
    for i := 0 to index
      invariant cluster == ch[i]
    {
      cluster := FatEntry(v, cluster);
      assert 2 <= ch[i + 1] < EOC;
    }
  }
}
