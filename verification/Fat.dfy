/** The allocation table: first-fit search, free-slot accounting, cluster chains and their release. */
module Fat {
  import opened Sequences
  import opened Bytes
  import opened Disk

  const EOC: u16 := 0xFFF8
  const LAST: u16 := 0xFFFF

  /** The free slots from `from` up, in the order fat_find_free meets them. */
  function FreeList(fat: seq<u16>, from: nat): seq<nat>
    decreases |fat| - from
  {
    if from >= |fat| then []
    else if fat[from] == 0 then [from] + FreeList(fat, from + 1)
    else FreeList(fat, from + 1)
  }

  function FirstFree(fat: seq<u16>): nat {
    if FreeList(fat, 2) == [] then 0 else FreeList(fat, 2)[0]
  }

  function FreeCount(fat: seq<u16>): nat {
    |FreeList(fat, 2)|
  }

  lemma {:induction false} FreeListExact(fat: seq<u16>, from: nat)
    ensures forall c :: c in FreeList(fat, from) <==> from <= c < |fat| && fat[c] == 0
    ensures forall i, j :: 0 <= i < j < |FreeList(fat, from)| ==> FreeList(fat, from)[i] < FreeList(fat, from)[j]
    ensures from <= |fat| ==> |FreeList(fat, from)| <= |fat| - from
    decreases |fat| - from
  {
    if from < |fat| {
      FreeListExact(fat, from + 1);
      var rest := FreeList(fat, from + 1);
      forall i | 0 <= i < |rest| ensures rest[i] > from {
        assert rest[i] in rest;
      }
    }
  }

  /** Which slots are zero decides the free list. */
  lemma {:induction false} FreeListSame(fat: seq<u16>, fat': seq<u16>, from: nat)
    requires |fat| == |fat'|
    requires forall c :: from <= c < |fat| ==> (fat[c] == 0 <==> fat'[c] == 0)
    ensures FreeList(fat, from) == FreeList(fat', from)
    decreases |fat| - from
  {
    if from < |fat| {
      FreeListSame(fat, fat', from + 1);
    }
  }

  /** Claiming the first free slot removes exactly it from the list. */
  lemma {:induction false} FreeListTake(fat: seq<u16>, from: nat, v: u16)
    requires v != 0 && FreeList(fat, from) != []
    ensures FreeList(fat, from)[0] < |fat|
    ensures FreeList(fat[FreeList(fat, from)[0] := v], from) == FreeList(fat, from)[1..]
    decreases |fat| - from
  {
    var c := FreeList(fat, from)[0];
    if fat[from] == 0 {
      FreeListSame(fat, fat[c := v], from + 1);
    } else {
      FreeListTake(fat, from + 1, v);
    }
  }

  /** Releasing a used slot adds exactly one. */
  lemma {:induction false} FreeListRelease(fat: seq<u16>, from: nat, c: nat)
    requires from <= c < |fat| && fat[c] != 0
    ensures |FreeList(fat[c := 0], from)| == |FreeList(fat, from)| + 1
    decreases c - from
  {
    if c == from {
      FreeListSame(fat, fat[c := 0], from + 1);
    } else {
      FreeListRelease(fat, from + 1, c);
    }
  }

  /** `ch` is the whole chain of a directory entry whose first_cluster is `first`. */
  ghost predicate Chain(fat: seq<u16>, first: nat, ch: seq<nat>) {
    if ch == [] then first == 0 else
    && ch[0] == first
    && (forall i :: 0 <= i < |ch| ==> 2 <= ch[i] < |fat|)
    && (forall i :: 0 <= i < |ch| - 1 ==> fat[ch[i]] == ch[i + 1])
    && fat[ch[|ch| - 1]] >= EOC
  }

  /** In the words of the table: each link names the next, the last one holds a mark from 0xFFF8 on. */
  lemma ChainWords(fat: seq<u16>, ch: seq<nat>)
    requires ch != []
    ensures Chain(fat, ch[0], ch) <==>
      && (forall i :: 0 <= i < |ch| ==> 2 <= ch[i] < |fat|)
      && (forall i :: 0 <= i < |ch| - 1 ==> fat[ch[i]] == ch[i + 1]) && 0xFFF8 <= fat[ch[|ch| - 1]]
  {
  }

  lemma {:induction false} ChainDistinct(fat: seq<u16>, first: nat, ch: seq<nat>, i: nat, j: nat)
    requires |fat| <= EOC && Chain(fat, first, ch) && i < j < |ch|
    ensures ch[i] != ch[j]
    decreases |ch| - j
  {
    assert fat[ch[i]] == ch[i + 1] && ch[i + 1] < |fat|;
    if j + 1 < |ch| {
      ChainDistinct(fat, first, ch, i + 1, j + 1);
      assert fat[ch[j]] == ch[j + 1];
    }
  }

  /** A chain that ends is acyclic. */
  lemma ChainNoDup(fat: seq<u16>, first: nat, ch: seq<nat>)
    requires |fat| <= EOC && Chain(fat, first, ch)
    ensures NoDup(ch)
  {
    forall i, j | 0 <= i < j < |ch| ensures ch[i] != ch[j] {
      ChainDistinct(fat, first, ch, i, j);
    }
  }

  lemma ChainInUse(fat: seq<u16>, first: nat, ch: seq<nat>, c: nat)
    requires Chain(fat, first, ch) && c in ch
    ensures 2 <= c < |fat| && fat[c] != 0
  {
    var i :| 0 <= i < |ch| && ch[i] == c;
    assert i < |ch| - 1 ==> 2 <= ch[i + 1];
  }

  lemma {:induction false} ChainAgree(fat: seq<u16>, first: nat, a: seq<nat>, b: seq<nat>, i: nat)
    requires |fat| <= EOC && Chain(fat, first, a) && Chain(fat, first, b)
    requires i < |a|
    ensures i < |b| && a[i] == b[i]
  {
    if i > 0 {
      ChainAgree(fat, first, a, b, i - 1);
      assert fat[a[i - 1]] == a[i] && a[i] < |fat|;
    } else {
      assert 2 <= a[0];
    }
  }

  /** The table and the first cluster determine the chain. */
  lemma ChainUnique(fat: seq<u16>, first: nat, a: seq<nat>, b: seq<nat>)
    requires |fat| <= EOC && Chain(fat, first, a) && Chain(fat, first, b)
    ensures a == b
  {
    forall i | 0 <= i < |a| ensures i < |b| && a[i] == b[i] {
      ChainAgree(fat, first, a, b, i);
    }
    if |b| > 0 {
      ChainAgree(fat, first, b, a, |b| - 1);
    }
    if |a| > 0 {
      ChainAgree(fat, first, a, b, |a| - 1);
    }
  }

  /** Every link leads to a slot of the table, to 0 or 1, or to an end mark. */
  ghost predicate InRange(fat: seq<u16>) {
    |fat| <= EOC && forall c :: 2 <= c < |fat| ==> fat[c] < |fat| || fat[c] >= EOC
  }

  /** A step of free_chain clears a used slot, or it is the last one. */
  lemma WalkDown(fat: seq<u16>, c: nat)
    requires 2 <= c < |fat|
    ensures FreeCount(fat[c := 0]) <= |fat| && (fat[c] != 0 ==> FreeCount(fat) < FreeCount(fat[c := 0]))
    ensures fat[c] == 0 ==> fat[c := 0] == fat
  {
    FreeListExact(fat, 2);
    FreeListExact(fat[c := 0], 2);
    if fat[c] != 0 {
      FreeListRelease(fat, 2, c);
    }
  }

  /** The table free_chain leaves, on any table whose links stay in range, cyclic ones included:
      the number of used slots goes down until the walk meets a slot it has freed. */
  ghost function FreeWalk(fat: seq<u16>, c: u16): (r: seq<u16>)
    requires InRange(fat) && (c < |fat| || c >= EOC)
    ensures |r| == |fat|
    decreases |fat| - FreeCount(fat), if c < 2 then 0 else 1
  {
    if c < 2 || c >= EOC then fat
    else
      WalkDown(fat, c);
      FreeWalk(fat[c := 0], fat[c])
  }

  /** How many slots free_chain clears, counting one it meets twice. */
  ghost function WalkSteps(fat: seq<u16>, c: u16): nat
    requires InRange(fat) && (c < |fat| || c >= EOC)
    decreases |fat| - FreeCount(fat), if c < 2 then 0 else 1
  {
    if c < 2 || c >= EOC then 0
    else
      WalkDown(fat, c);
      1 + WalkSteps(fat[c := 0], fat[c])
  }

  function Zeroed(fat: seq<u16>, ch: seq<nat>): seq<u16> {
    seq(|fat|, c requires 0 <= c < |fat| => if c in ch then 0 else fat[c])
  }

  /** Clearing n distinct used slots adds exactly n free ones. */
  lemma {:induction false} ZeroedCount(fat: seq<u16>, ch: seq<nat>)
    requires NoDup(ch) && forall i :: 0 <= i < |ch| ==> 2 <= ch[i] < |fat| && fat[ch[i]] != 0
    ensures FreeCount(Zeroed(fat, ch)) == FreeCount(fat) + |ch|
    decreases |ch|
  {
    if ch == [] {
      assert Zeroed(fat, ch) == fat;
    } else {
      var fat' := fat[ch[0] := 0];
      assert forall i :: 1 <= i < |ch| ==> fat'[ch[i]] == fat[ch[i]];
      ZeroedCount(fat', ch[1..]);
      assert Zeroed(fat', ch[1..]) == Zeroed(fat, ch);
      FreeListRelease(fat, 2, ch[0]);
    }
  }

  lemma {:induction false} FreeWalkFrom(fat: seq<u16>, c: u16, ch: seq<nat>)
    requires InRange(fat) && NoDup(ch) && (c < |fat| || c >= EOC)
    requires if ch == [] then c < 2 || c >= EOC else Chain(fat, c, ch)
    ensures FreeWalk(fat, c) == Zeroed(fat, ch) && WalkSteps(fat, c) == |ch|
    decreases |ch|
  {
    if ch == [] {
      assert Zeroed(fat, ch) == fat;
    } else {
      var fat' := fat[c := 0];
      assert forall i :: 1 <= i < |ch| ==> ch[i] != c && fat'[ch[i]] == fat[ch[i]];
      FreeWalkFrom(fat', fat[c], ch[1..]);
      assert Zeroed(fat', ch[1..]) == Zeroed(fat, ch);
    }
  }

  /** free_chain on an entry's chain frees exactly its clusters. */
  lemma FreeWalkChain(fat: seq<u16>, first: u16, ch: seq<nat>)
    requires InRange(fat) && |fat| > 0 && Chain(fat, first, ch)
    ensures first < |fat|
    ensures FreeWalk(fat, first) == Zeroed(fat, ch) && WalkSteps(fat, first) == |ch|
    ensures FreeCount(Zeroed(fat, ch)) == FreeCount(fat) + |ch|
  {
    ChainNoDup(fat, first, ch);
    FreeWalkFrom(fat, first, ch);
    forall i | 0 <= i < |ch| ensures 2 <= ch[i] < |fat| && fat[ch[i]] != 0 {
      ChainInUse(fat, first, ch, ch[i]);
    }
    ZeroedCount(fat, ch);
  }

  /** The free slots below b come first in the list. */
  lemma {:induction false} FreeListBelow(fat: seq<u16>, from: nat, b: nat)
    requires from <= b <= |fat|
    ensures |FreeList(fat, b)| <= |FreeList(fat, from)|
    ensures forall i :: 0 <= i < |FreeList(fat, from)| - |FreeList(fat, b)| ==> FreeList(fat, from)[i] < b
    decreases b - from
  {
    if from < b {
      FreeListBelow(fat, from + 1, b);
    }
  }

  lemma {:induction false} AllFree(fat: seq<u16>, from: nat)
    requires from <= |fat| && forall c :: from <= c < |fat| ==> fat[c] == 0
    ensures |FreeList(fat, from)| == |fat| - from
    decreases |fat| - from
  {
    if from < |fat| {
      AllFree(fat, from + 1);
    }
  }

  /** fat_find_free; 0 means the table is full. */
  method FatFindFree(v: Volume) returns (c: nat)
    requires v.Readable()
    ensures c == FirstFree(v.img.fat)
    ensures c == 0 <==> FreeCount(v.img.fat) == 0
    ensures c != 0 ==> 2 <= c < v.g.Slots() && v.img.fat[c] == 0
  {
    var totalSlots := v.g.sectorsPerFat * 512 / 2;
    c := 2;
    while c < totalSlots
      invariant 2 <= c <= totalSlots
      invariant FreeList(v.img.fat, c) == FreeList(v.img.fat, 2)
    {
      var value := FatEntry(v, c);
      if value == 0 {
        return;
      }
      c := c + 1;
    }
    c := 0;
  }

  /** count_free_clusters. */
  method CountFreeClusters(v: Volume) returns (n: nat)
    requires v.Readable()
    ensures n == FreeCount(v.img.fat)
  {
    n := 0;
    var totalSlots := v.g.sectorsPerFat * 512 / 2;
    var c := 2;
    while c < totalSlots
      invariant 2 <= c <= totalSlots
      invariant n + |FreeList(v.img.fat, c)| == FreeCount(v.img.fat)
    {
      var value := FatEntry(v, c);
      if value == 0 {
        n := n + 1;
      }
      c := c + 1;
    }
  }

  /** Position k of the trace is the disk after slot c was cleared in the first FAT copy. */
  ghost predicate Cleared(trace: seq<seq<Sector>>, k: nat, img: Image, c: nat) {
    k < |trace| && c < |img.fat| && FoldedShows(trace[k], img.WithFat(c, 0))
  }

  /** One round of free_chain. */
  method FreeLink(v: Volume, c: nat) returns (next: u16)
    requires v.Mounted() && c < v.g.Slots()
    modifies v`disk, v`img, v`trace
    ensures v.Mounted() && next == old(v.img.fat)[c] && v.img == old(v.img).WithFat(c, 0)
    ensures old(v.trace) <= v.trace && |v.trace| == |old(v.trace)| + v.g.numFats && Cleared(v.trace, |old(v.trace)|, old(v.img), c)
  {
    next := FatEntry(v, c);
    FatSetEntry(v, c, 0);
    assert Shows(v.trace[|old(v.trace)|], v.img);
  }

  /** free_chain: the table of the walk, in as many writes; the first of them clears the first link. */
  method FreeChain(v: Volume, first: u16)
    requires v.Mounted() && InRange(v.img.fat) && (first < v.g.Slots() || first >= EOC)
    modifies v`disk, v`img, v`trace
    ensures v.Mounted()
    ensures v.img == old(v.img).(fat := FreeWalk(old(v.img.fat), first))
    ensures old(v.trace) <= v.trace && |v.trace| == |old(v.trace)| + WalkSteps(old(v.img.fat), first) * v.g.numFats
    ensures 2 <= first < EOC ==> Cleared(v.trace, |old(v.trace)|, old(v.img), first)
  {
    var c: u16 := first;
    ghost var done: nat := 0;
    while c < EOC && c >= 2
      invariant v.Mounted() && InRange(v.img.fat) && (c < v.g.Slots() || c >= EOC)
      invariant v.img == old(v.img).(fat := v.img.fat)
      invariant FreeWalk(v.img.fat, c) == FreeWalk(old(v.img.fat), first)
      invariant done + WalkSteps(v.img.fat, c) == WalkSteps(old(v.img.fat), first)
      invariant old(v.trace) <= v.trace && |v.trace| == |old(v.trace)| + done * v.g.numFats
      invariant if done == 0 then c == first && v.img == old(v.img) && v.trace == old(v.trace) else Cleared(v.trace, |old(v.trace)|, old(v.img), first)
      decreases |v.img.fat| - FreeCount(v.img.fat), if c < 2 then 0 else 1
    {
      WalkDown(v.img.fat, c);
      var next := FreeLink(v, c);
      MulSucc(done, v.g.numFats);
      c, done := next, done + 1;
    }
  }
}
