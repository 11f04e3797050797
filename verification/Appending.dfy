/** fat_append_file: the tail of the last cluster is filled first, then whole clusters are hung on. */
module Appending {
  import opened Bytes
  import opened Folding
  import opened Disk
  import opened Fat
  import opened Directory
  import opened Names
  import opened WellFormed
  import opened Tree
  import opened FileSystem
  import opened FileData
  import opened Allocation
  import opened ChainIO
  import opened Namespace
  import opened Files
  import opened Growing

  // ---- how many clusters ----

  lemma CeilDivPast(q: nat, x: nat, d: nat)
    requires d > 0
    ensures 0 <= q * d && CeilDiv(q * d + x, d) == q + CeilDiv(x, d)
  {
    MulLe(0, q, d);
    CeilDivBounds(x, d);
    var c := CeilDiv(x, d);
    assert (q + c) * d == q * d + c * d;
    assert (q + c - 1) * d == q * d + (c - 1) * d;
    CeilDivUnique(q * d + x, d, q + c);
  }

  /** The unused bytes in the last cluster of a file. */
  function FreeInTail(size: nat, d: nat): nat
    requires d > 0
  {
    if size % d == 0 then 0 else d - size % d
  }

  lemma TailFillsUp(size: nat, d: nat)
    requires d > 0
    ensures size + FreeInTail(size, d) == CeilDiv(size, d) * d
  {
    var q, r := size / d, size % d;
    assert size == q * d + r;
    CeilDivPast(q, r, d);
    MulSucc(q, d);
    CeilDivZero(r, d);
  }

  /** The count of fat_append_file, from the room in the tail, is that of fat_write_file_at, from the two sizes. */
  lemma ExtraFromTail(size: nat, len: nat, d: nat)
    requires d > 0
    ensures
      var tail := FreeInTail(size, d);
      Extra(size, size + len, d) == if len > tail then CeilDiv(len - tail, d) else 0
  {
    var tail, c := FreeInTail(size, d), CeilDiv(size, d);
    TailFillsUp(size, d);
    CeilDivBounds(size, d);
    if len > tail {
      CeilDivPast(c, len - tail, d);
      assert size + len == c * d + (len - tail);
    } else {
      CeilDivUnique(size + len, d, c);
    }
  }

  // ---- the file while it is being appended to ----

  /** The chain of s with the first k free clusters of img hung on. */
  ghost function LongChain(img: Image, L: Layout, s: Slot, k: nat): seq<nat>
    requires k <= FreeCount(img.fat)
  {
    ChainOf(L, s) + FirstFrees(img.fat, k)
  }

  /** Since img, k clusters were hung on the chain of s, which now starts with c; the free slots left are the others. */
  ghost predicate Underway(img: Image, L: Layout, img2: Image, s: Slot, k: nat, c: seq<byte>) {
    var laid := k <= FreeCount(img.fat) && Laid(img, L, img2, s, FirstFrees(img.fat, k), c);
    var rest := laid ==> FreeList(img2.fat, 2) == FreeList(img.fat, 2)[k..];
    Folded(img, L, s) && laid && rest
  }

  lemma UnderwayFacts(img: Image, L: Layout, img2: Image, s: Slot, k: nat, c: seq<byte>)
    requires Underway(img, L, img2, s, k, c)
    ensures
      var ch := LongChain(img, L, s, k);
      && ch != [] && Chain(img2.fat, MetaOf(img).At(s).first, ch) && DataChain(img.g, ch) && img2.g == img.g
      && |img2.fat| <= EOC && 2 <= ch[|ch| - 1] < |img2.fat| && img2.fat[ch[|ch| - 1]] != 0
      && OnlyRegions(img.(fat := img2.fat), img2, ch) && c <= Flat(Sectors(img2.region, ch))
  {
    FoldedGrowth(img, L, s, FirstFrees(img.fat, k));
    var ch := LongChain(img, L, s, k);
    EndOfChain(img2.fat, MetaOf(img).At(s).first, ch, |ch| - 1);
  }

  lemma FoldedGrowth(img: Image, L: Layout, s: Slot, more: seq<nat>)
    requires Folded(img, L, s) && Spare(img.fat, more) && BackedChain(img.g, more)
    ensures
      var ch := ChainOf(L, s);
      && ch != [] && Chain(GrownTable(img.fat, ch, more), MetaOf(img).At(s).first, ch + more)
      && DataChain(img.g, ch + more) && |img.fat| <= EOC
  {
    Unfold(img, L, s);
    GrowthFacts(img, L, s, more);
  }

  lemma AttachLaid(img: Image, L: Layout, img1: Image, img2: Image, s: Slot, more: seq<nat>, x: u16, c: seq<byte>)
    requires Laid(img, L, img1, s, more, c) && Spare(img.fat, more + [x]) && BackedChain(img.g, more + [x]) && |img1.fat| == |img.fat|
    requires
      var ch := ChainOf(L, s) + more;
      ch[|ch| - 1] < |img1.fat| && x < |img1.fat| && img2 == img1.(fat := img1.fat[ch[|ch| - 1] := x][x := LAST])
    ensures Laid(img, L, img2, s, more + [x], c)
  {
    var ch := ChainOf(L, s);
    assert x as int in more + [x as int];
    ExtendedSnoc(img.fat, ch[|ch| - 1], more, x);
    assert ch + (more + [x as int]) == (ch + more) + [x as int];
    ChainBytesPrefix(img2.region, ch + more, [x as int]);
  }

  lemma FewerBacked(g: Geometry, fat: seq<u16>, k: nat, n: nat)
    requires k <= n <= FreeCount(fat) && BackedChain(g, FirstFrees(fat, n))
    ensures BackedChain(g, FirstFrees(fat, k))
  {
    assert forall i :: 0 <= i < k ==> FirstFrees(fat, k)[i] == FirstFrees(fat, n)[i];
  }

  lemma FirstFreesSnoc(fat: seq<u16>, k: nat)
    requires k < FreeCount(fat)
    ensures FirstFrees(fat, k + 1) == FirstFrees(fat, k) + [FreeList(fat, 2)[k]]
    ensures Spare(fat, FirstFrees(fat, k + 1))
  {
    FreesAreFree(fat, k + 1);
  }

  /** Hangs one more cluster on: fat_find_free and the two fat_set_entry calls. */
  method AttachNext(v: Volume, cur: nat, ghost img: Image, ghost L: Layout, ghost s: Slot, ghost k: nat, ghost c: seq<byte>)
    returns (next: u16)
    requires v.Mounted() && Underway(img, L, v.img, s, k, c) && k < FreeCount(img.fat)
    requires cur == LongChain(img, L, s, k)[|LongChain(img, L, s, k)| - 1]
    requires BackedChain(img.g, FirstFrees(img.fat, k + 1))
    modifies v`disk, v`img, v`trace
    ensures v.Mounted() && Underway(img, L, v.img, s, k + 1, c)
    ensures next == LongChain(img, L, s, k + 1)[|LongChain(img, L, s, k + 1)| - 1]
  {
    ghost var img1 := v.img;
    UnderwayFacts(img, L, img1, s, k, c);
    next := Attach(v, cur);
    FirstFreesSnoc(img.fat, k);
    AttachLaid(img, L, img1, v.img, s, FirstFrees(img.fat, k), next, c);
  }

  /** Data writes within the chain keep the account. */
  lemma FilledUnderway(img: Image, L: Layout, img1: Image, img2: Image, s: Slot, k: nat, c: seq<byte>, c': seq<byte>)
    requires Underway(img, L, img1, s, k, c) && OnlyRegions(img1, img2, LongChain(img, L, s, k))
    requires c' <= Flat(Sectors(img2.region, LongChain(img, L, s, k)))
    ensures Underway(img, L, img2, s, k, c')
  {
  }

  lemma PatchedTail(was: seq<byte>, c: seq<byte>, src: seq<byte>, done: nat)
    requires c <= was && done <= |src| && |c| + done <= |was|
    ensures c + src[..done] <= Patch(was, |c|, src[..done])
  {
  }

  /** The first data loop of fat_append_file: from the end of the file to the end of its last cluster. */
  method FillTail(v: Volume, cur: nat, sector: nat, byteIn: nat, src: seq<byte>,
                  ghost img: Image, ghost L: Layout, ghost s: Slot, ghost k: nat, ghost c: seq<byte>, ghost base: nat)
    returns (done: nat)
    requires v.Mounted() && Underway(img, L, v.img, s, k, c) && img.g == v.g
    requires cur == LongChain(img, L, s, k)[|LongChain(img, L, s, k)| - 1]
    requires LongChain(img, L, s, k) != [] && base == SectorCount(|LongChain(img, L, s, k)| - 1, v.g.secPerClus)
    requires sector < v.g.secPerClus && byteIn < 512 && 512 * (base + sector) + byteIn == |c|
    modifies v`disk, v`img, v`trace
    ensures v.Mounted() && done == Min(|src|, 512 * (base + v.g.secPerClus) - |c|) && done >= 0
    ensures Underway(img, L, v.img, s, k, c + src[..done])
  {
    ghost var img1, ch := v.img, LongChain(img, L, s, k);
    ghost var was := Flat(Sectors(img1.region, ch));
    UnderwayFacts(img, L, img1, s, k, c);
    SectorCountIs(|ch| - 1, v.g.secPerClus);
    assert Patch(was, |c|, src[..0]) == was;
    done := OverwriteCluster(v, cur, sector, byteIn, src, 0, ch, |ch| - 1, base, was, |c|);
    PatchedTail(was, c, src, done);
    FilledUnderway(img, L, img1, v.img, s, k, c, c + src[..done]);
  }

  /** The last loop of fat_append_file on one fresh cluster. */
  method FillNext(v: Volume, cur: nat, src: seq<byte>, start: nat,
                  ghost img: Image, ghost L: Layout, ghost s: Slot, ghost k: nat, ghost c: seq<byte>, ghost base: nat)
    returns (done: nat)
    requires v.Mounted() && start <= |src| && Underway(img, L, v.img, s, k, c + src[..start]) && img.g == v.g
    requires cur == LongChain(img, L, s, k)[|LongChain(img, L, s, k)| - 1]
    requires LongChain(img, L, s, k) != [] && base == SectorCount(|LongChain(img, L, s, k)| - 1, v.g.secPerClus)
    requires |c| <= 512 * base && start == Min(|src|, 512 * base - |c|)
    modifies v`disk, v`img, v`trace
    ensures v.Mounted() && done == Min(|src|, 512 * (base + v.g.secPerClus) - |c|)
    ensures Underway(img, L, v.img, s, k, c + src[..done])
  {
    ghost var img1, ch := v.img, LongChain(img, L, s, k);
    UnderwayFacts(img, L, img1, s, k, c + src[..start]);
    SectorCountIs(|ch| - 1, v.g.secPerClus);
    done := FillCluster(v, cur, src, start, ch, |ch| - 1, base, c);
    FilledUnderway(img, L, img1, v.img, s, k, c + src[..start], c + src[..done]);
  }

  /** The sectors of n clusters. */
  ghost function SectorCount(n: nat, spc: nat): nat {
    if n == 0 then 0 else SectorCount(n - 1, spc) + spc
  }

  lemma {:induction false} SectorCountIs(n: nat, spc: nat)
    ensures SectorCount(n, spc) == n * spc
  {
    if n > 0 {
      SectorCountIs(n - 1, spc);
      MulSucc(n - 1, spc);
    }
  }

  lemma TooFew(n: nat, spc: nat, total: nat)
    requires 0 < spc && 512 * SectorCount(n, spc) < total
    ensures n < CeilDiv(total, spc * 512)
  {
    SectorCountIs(n, spc);
    MulSwap(n, spc, 512);
    CeilDivBounds(total, spc * 512);
    MulCancel(n, CeilDiv(total, spc * 512), spc * 512);
  }

  lemma JustEnough(n: nat, spc: nat, total: nat)
    requires 0 < spc && 0 < n && 512 * SectorCount(n - 1, spc) < total <= 512 * SectorCount(n, spc)
    ensures n == CeilDiv(total, spc * 512)
  {
    SectorCountIs(n, spc);
    SectorCountIs(n - 1, spc);
    MulSwap(n, spc, 512);
    MulSwap(n - 1, spc, 512);
    CeilDivUnique(total, spc * 512, n);
  }

  /** The state between two clusters: k hung on, `cur` the last of them; `done` bytes of src are in, as many as fit, and
      the last cluster was needed. */
  ghost predicate Reached(img: Image, L: Layout, img2: Image, s: Slot, k: nat, c: seq<byte>, src: seq<byte>, done: nat, cur: nat) {
    var under := done <= |src| && Underway(img, L, img2, s, k, c + src[..done]);
    under && AtEnd(LongChain(img, L, s, k), img.g.secPerClus, |c|, |src|, done, cur)
  }

  ghost predicate AtEnd(ch: seq<nat>, spc: nat, size: nat, len: nat, done: nat, cur: nat) {
    var n := |ch|;
    var full := n > 0 && done == Min(len, 512 * SectorCount(n, spc) - size) && 512 * SectorCount(n - 1, spc) < size + len;
    full && cur == ch[n - 1]
  }

  /** One round of the last loop of fat_append_file. */
  method AppendCluster(v: Volume, last: nat, src: seq<byte>, start: nat, ghost img: Image, ghost L: Layout, ghost s: Slot,
                       ghost k: nat, ghost c: seq<byte>, ghost extra: nat)
    returns (cur: u16, done: nat)
    requires v.Mounted() && img.g == v.g && v.g.Ok() && Reached(img, L, v.img, s, k, c, src, start, last)
    requires start < |src| && CeilDiv(|c| + |src|, v.g.ClusterBytes()) == |ChainOf(L, s)| + extra
    requires extra <= FreeCount(img.fat) && BackedChain(img.g, FirstFrees(img.fat, extra))
    modifies v`disk, v`img, v`trace
    ensures v.Mounted() && Reached(img, L, v.img, s, k + 1, c, src, done, cur) && done > start
  {
    ghost var n, spc := |LongChain(img, L, s, k)|, v.g.secPerClus;
    TooFew(n, spc, |c| + |src|);
    FewerBacked(img.g, img.fat, k + 1, extra);
    cur := AttachNext(v, last, img, L, s, k, c + src[..start]);
    done := FillNext(v, cur, src, start, img, L, s, k + 1, c, SectorCount(n, spc));
  }

  lemma EndCount(ch: seq<nat>, spc: nat, size: nat, len: nat, cur: nat)
    requires 0 < spc && AtEnd(ch, spc, size, len, len, cur)
    ensures |ch| == CeilDiv(size + len, spc * 512)
  {
    JustEnough(|ch|, spc, size + len);
  }

  lemma AllReached(img: Image, L: Layout, img2: Image, s: Slot, k: nat, c: seq<byte>, src: seq<byte>, cur: nat)
    requires Reached(img, L, img2, s, k, c, src, |src|, cur)
    ensures Underway(img, L, img2, s, k, c + src)
    ensures AtEnd(LongChain(img, L, s, k), img.g.secPerClus, |c|, |src|, |src|, cur)
  {
    assert src[..|src|] == src;
  }

  /** The last loop of fat_append_file. Its out-of-space return is not reached. */
  method AppendClusters(v: Volume, last: nat, src: seq<byte>, start: nat, ghost img: Image, ghost L: Layout, ghost s: Slot,
                        ghost k0: nat, ghost c: seq<byte>, ghost extra: nat)
    requires v.Mounted() && img.g == v.g && v.g.Ok() && Reached(img, L, v.img, s, k0, c, src, start, last)
    requires extra <= FreeCount(img.fat) && |ChainOf(L, s)| + extra == CeilDiv(|c| + |src|, v.g.ClusterBytes())
    requires BackedChain(img.g, FirstFrees(img.fat, extra))
    modifies v`disk, v`img, v`trace
    ensures v.Mounted() && Underway(img, L, v.img, s, extra, c + src)
  {
    var cur: nat, done: nat := last, start;
    ghost var k: nat := k0;
    while done < |src|
      invariant v.Mounted() && Reached(img, L, v.img, s, k, c, src, done, cur)
      decreases |src| - done
    {
      cur, done := AppendCluster(v, cur, src, done, img, L, s, k, c, extra);
      k := k + 1;
    }
    AllReached(img, L, v.img, s, k, c, src, cur);
    EndCount(LongChain(img, L, s, k), v.g.secPerClus, |c|, |src|, cur);
  }

  // ---- the whole operation ----

  /** Where the end of a file lies: in its last cluster, or at the start of the next one. */
  lemma TailPlace(size: nat, spc: nat, n: nat)
    requires 0 < spc && n == CeilDiv(size, spc * 512) + if size % (spc * 512) == 0 then 1 else 0
    ensures
      var inCluster := size % (spc * 512);
      n > 0 && inCluster / 512 < spc && 512 * (SectorCount(n - 1, spc) + inCluster / 512) + inCluster % 512 == size
  {
    var cb := spc * 512;
    TailFillsUp(size, cb);
    CeilDivZero(size, cb);
    MulSucc(n - 1, cb);
    MulSwap(n - 1, spc, 512);
    SectorCountIs(n - 1, spc);
    assert (n - 1) * cb + size % cb == size;
  }

  /** The cluster count of fat_append_file. */
  method TailExtra(size: nat, len: nat, clusterBytes: nat) returns (extra: nat)
    requires clusterBytes > 0
    ensures extra == Extra(size, size + len, clusterBytes)
    ensures size % clusterBytes == 0 && len > 0 ==> extra > 0
  {
    var freeInTail := 0;
    if size % clusterBytes != 0 {
      freeInTail := clusterBytes - size % clusterBytes;
    }
    extra := 0;
    if len > freeInTail {
      extra := RoundUp(len - freeInTail, clusterBytes);
      CeilDivZero(len - freeInTail, clusterBytes);
    }
    ExtraFromTail(size, len, clusterBytes);
  }

  lemma StartFacts(img: Image, L: Layout, s: Slot)
    requires Folded(img, L, s)
    ensures FileBytes(img, L, s) <= Flat(Sectors(img.region, ChainOf(L, s)))
    ensures ChainOf(L, s) != [] && |img.fat| <= EOC && forall x :: x in ChainOf(L, s) ==> x < |img.fat|
  {
    Unfold(img, L, s);
    GrowthFacts(img, L, s, []);
    FileFacts(img, L, s);
  }

  lemma StartUnderway(img: Image, L: Layout, s: Slot)
    requires Folded(img, L, s)
    ensures Underway(img, L, img, s, 0, FileBytes(img, L, s)) && LongChain(img, L, s, 0) == ChainOf(L, s)
  {
    StartFacts(img, L, s);
    var ch := ChainOf(L, s);
    assert ch + [] == ch && ch[|ch| - 1] in ch && FirstFrees(img.fat, 0) == [];
  }

  /** The start of fat_append_file's writes: a file that fills its last cluster gets another one. */
  method StartTail(v: Volume, last: nat, full: bool, ghost img: Image, ghost L: Layout, ghost s: Slot, ghost c: seq<byte>)
    returns (cur: nat, ghost k: nat)
    requires v.Mounted() && v.img == img && Folded(img, L, s) && c == FileBytes(img, L, s)
    requires ChainOf(L, s) != [] && last == ChainOf(L, s)[|ChainOf(L, s)| - 1] && (full ==> FreeCount(img.fat) > 0)
    requires full ==> BackedChain(img.g, FirstFrees(img.fat, 1))
    modifies v`disk, v`img, v`trace
    ensures k == (if full then 1 else 0) && v.Mounted() && Underway(img, L, v.img, s, k, c)
    ensures |LongChain(img, L, s, k)| == |ChainOf(L, s)| + k && cur == LongChain(img, L, s, k)[|LongChain(img, L, s, k)| - 1]
  {
    StartUnderway(img, L, s);
    cur, k := last, 0;
    if full {
      cur := AttachNext(v, cur, img, L, s, 0, c);
      k := 1;
    }
  }

  /** The bytes that still fit into the last cluster. */
  method FillFirst(v: Volume, cur: nat, inCluster: nat, src: seq<byte>,
                   ghost img: Image, ghost L: Layout, ghost s: Slot, ghost k: nat, ghost c: seq<byte>)
    returns (done: nat)
    requires v.Mounted() && Underway(img, L, v.img, s, k, c) && img.g == v.g && v.g.Ok() && 0 < |src|
    requires cur == LongChain(img, L, s, k)[|LongChain(img, L, s, k)| - 1] && inCluster == |c| % v.g.ClusterBytes()
    requires |LongChain(img, L, s, k)| == CeilDiv(|c|, v.g.ClusterBytes()) + if inCluster == 0 then 1 else 0
    modifies v`disk, v`img, v`trace
    ensures v.Mounted() && Reached(img, L, v.img, s, k, c, src, done, cur)
  {
    ghost var n, spc := |LongChain(img, L, s, k)|, v.g.secPerClus;
    TailPlace(|c|, spc, n);
    done := FillTail(v, cur, inCluster / 512, inCluster % 512, src, img, L, s, k, c, SectorCount(n - 1, spc));
  }

  /** fat_append_file between the space check and the directory update: `last` is the last cluster of the file. */
  method AppendData(v: Volume, last: nat, inCluster: nat, src: seq<byte>,
                    ghost img: Image, ghost L: Layout, ghost s: Slot, ghost c: seq<byte>, ghost extra: nat)
    requires v.Mounted() && v.img == img && Folded(img, L, s) && v.g.Ok() && c == FileBytes(img, L, s) && 0 < |src|
    requires ChainOf(L, s) != [] && last == ChainOf(L, s)[|ChainOf(L, s)| - 1]
    requires |ChainOf(L, s)| == CeilDiv(|c|, v.g.ClusterBytes()) && inCluster == |c| % v.g.ClusterBytes()
    requires extra <= FreeCount(img.fat) && |ChainOf(L, s)| + extra == CeilDiv(|c| + |src|, v.g.ClusterBytes())
    requires inCluster == 0 ==> extra > 0
    requires BackedChain(img.g, FirstFrees(img.fat, extra))
    modifies v`disk, v`img, v`trace
    ensures v.Mounted() && Underway(img, L, v.img, s, extra, c + src)
  {
    if inCluster == 0 {
      FewerBacked(img.g, img.fat, 1, extra);
    }
    var cur, k := StartTail(v, last, inCluster == 0, img, L, s, c);
    var done := FillFirst(v, cur, inCluster, src, img, L, s, k, c);
    AppendClusters(v, cur, src, done, img, L, s, k, c, extra);
  }

  lemma UnderwayPending(img: Image, L: Layout, img2: Image, s: Slot, extra: nat, c: seq<byte>)
    requires Underway(img, L, img2, s, extra, c) && img.g.Ok()
    requires |ChainOf(L, s)| + extra == CeilDiv(|c|, img.g.ClusterBytes())
    ensures Pending(img, L, img2, s, FirstFrees(img.fat, extra), c)
  {
  }

  /** The end of fat_append_file: the new size goes into the directory sector read at the start. */
  method AppendSize(v: Volume, lba: int, idx: nat, buff: Sector, newSize: u32,
                    ghost img: Image, ghost L: Layout, ghost s: Slot, ghost more: seq<nat>, ghost c: seq<byte>)
    requires v.Mounted() && v.g == img.g && img.Shape() && Pending(img, L, v.img, s, more, c) && newSize == |c|
    requires Located(v.g, lba, idx, s.d, s.j) && buff == img.region[s.d][s.j / 16]
    modifies v
    ensures Sealed(v) && Finished(img, L, v.img, v.layout, s, more, c)
  {
    ghost var img2 := v.img;
    PendingEntry(img, L, img2, s, more, c);
    WriteBackSize(v, lba, idx, buff, newSize, s);
    FinishGrown(v, img, L, img2, v.img, s, more, c, newSize);
  }

  lemma AppendFacts(img: Image, L: Layout, s: Slot, len: nat, extra: nat)
    requires Folded(img, L, s) && img.g.Ok()
    requires extra == Extra(MetaOf(img).At(s).size, MetaOf(img).At(s).size + len, img.g.ClusterBytes())
    ensures
      var e, ch, c := MetaOf(img).At(s), ChainOf(L, s), FileBytes(img, L, s);
      && ch != [] && Chain(img.fat, e.first, ch) && |c| == e.size && |ch| == CeilDiv(|c|, img.g.ClusterBytes())
      && |ch| + extra == CeilDiv(|c| + len, img.g.ClusterBytes())
  {
    UnfoldFacts(img, L, s);
  }

  /** fat_append_file with enough space. */
  method AppendGrown(v: Volume, lba: int, idx: nat, buff: Sector, first: u16, inCluster: nat, src: seq<byte>, newSize: u32,
                     ghost img: Image, ghost L: Layout, ghost s: Slot, ghost size: u32, ghost extra: nat)
    requires v.Mounted() && v.img == img && Folded(img, L, s) && v.g.Ok()
    requires first == MetaOf(img).At(s).first && size == MetaOf(img).At(s).size
    requires Located(v.g, lba, idx, s.d, s.j) && buff == img.region[s.d][s.j / 16]
    requires 0 < |src| && newSize == size + |src| && extra == Extra(size, newSize, v.g.ClusterBytes()) <= FreeCount(img.fat)
    requires inCluster == size % v.g.ClusterBytes() && (inCluster == 0 ==> extra > 0)
    requires Backs(v.g, FreeCount(img.fat), extra)
    modifies v
    ensures Sealed(v) && Finished(img, L, v.img, v.layout, s, FirstFrees(img.fat, extra), FileBytes(img, L, s) + src)
  {
    ghost var c := FileBytes(img, L, s);
    AppendFacts(img, L, s, |src|, extra);
    FreesOnDisk(img, L, s, extra);
    var last := LastCluster(v, first, ChainOf(L, s));
    AppendData(v, last, inCluster, src, img, L, s, c, extra);
    UnderwayPending(img, L, v.img, s, extra, c + src);
    AppendSize(v, lba, idx, buff, newSize, img, L, s, FirstFrees(img.fat, extra), c + src);
  }

  /** fat_append_file once its checks have passed and the file has clusters. */
  method AppendInto(v: Volume, lba: int, idx: nat, buff: Sector, first: u16, size: u32, src: seq<byte>, newSize: u32,
                    ghost img: Image, ghost L: Layout, ghost s: Slot)
    returns (code: int)
    requires v.Mounted() && v.img == img && v.layout == L && Folded(img, L, s) && v.g.Ok()
    requires first == MetaOf(img).At(s).first && size == MetaOf(img).At(s).size
    requires Located(v.g, lba, idx, s.d, s.j) && buff == img.region[s.d][s.j / 16]
    requires 0 < |src| && newSize == size + |src|
    requires Backs(v.g, FreeCount(img.fat), Extra(size, newSize, v.g.ClusterBytes()))
    modifies v
    ensures
      var extra := Extra(size, newSize, v.g.ClusterBytes());
      && code == (if extra > FreeCount(img.fat) then FAT_ERR_NO_SPACE else FAT_OK)
      && (code != FAT_OK ==> v.Mounted() && v.img == img && v.layout == L)
      && (code == FAT_OK ==>
            Sealed(v) && Finished(img, L, v.img, v.layout, s, FirstFrees(img.fat, extra), FileBytes(img, L, s) + src))
  {
    var extra := TailExtra(size, |src|, v.g.secPerClus * 512);
    var free := CountFreeClusters(v);
    if extra > free {
      code := FAT_ERR_NO_SPACE;
    } else {
      AppendGrown(v, lba, idx, buff, first, size % (v.g.secPerClus * 512), src, newSize, img, L, s, size, extra);
      code := FAT_OK;
    }
  }

  /** What an append owes on a file. */
  ghost predicate AppendsFile(t: Tree, free: nat, g: Geometry, d: nat, n: Name, src: seq<byte>, code: int, t': Tree, free': nat)
    requires g.Ok() && d in t && n in t[d] && t[d][n].File?
  {
    var c, cb := t[d][n].content, g.ClusterBytes();
    var needed := CeilDiv(|c| + |src|, cb) - CeilDiv(|c|, cb);
    var coded := code == (if src == [] then FAT_OK else if |c| + |src| > MAX_FILE_BYTES then FAT_ERR_TOO_BIG
                          else if needed > free then FAT_ERR_NO_SPACE else FAT_OK);
    var stored := code == FAT_OK ==> t' == (if src == [] then t else Put(t, d, n, File(c + src))) && free' + needed == free;
    coded && stored
  }

  ghost predicate Appends(t: Tree, free: nat, g: Geometry, path: Text, src: seq<byte>, code: int, t': Tree, free': nat)
    requires g.Ok()
  {
    match Locate(t, path)
    case Failed(c) => code == c
    case Parent(d, n) =>
      if t[d][n].Dir? then code == FAT_ERR_INVALID else AppendsFile(t, free, g, d, n, src, code, t', free')
  }

  /** The clusters an append takes; none if it fails before it counts them. */
  ghost function AppendTakes(t: Tree, g: Geometry, path: Text, len: nat): nat
    requires g.Ok()
  {
    match Locate(t, path)
    case Failed(_) => 0
    case Parent(d, n) => if t[d][n].Dir? then 0 else WriteAtTakes(t, g, path, |t[d][n].content|, len)
  }

  /** Appending is a positioned write at the end of the file: same code, same tree, same clusters taken. */
  lemma AppendIsWriteAt(t: Tree, free: nat, g: Geometry, d: nat, n: Name, src: seq<byte>, code: int, t': Tree, free': nat)
    requires g.Ok() && d in t && n in t[d] && t[d][n].File? && src != []
    ensures AppendsFile(t, free, g, d, n, src, code, t', free')
      <==> WritesFileAt(t, free, g, d, n, |t[d][n].content|, src, code, t', free')
  {
    var c := t[d][n].content;
    assert Splice(c, |c|, src) == c + src;
  }

  lemma SpliceAtEnd(c: seq<byte>, src: seq<byte>)
    ensures Splice(c, |c|, src) == c + src
  {
  }

  /** An append on a file with clusters, its checks passed. */
  method AppendChain(v: Volume, lba: int, idx: nat, e: Entry, buff: Sector, src: seq<byte>, newSize: u32,
                     ghost img: Image, ghost L: Layout, ghost s: Slot)
    returns (code: int)
    requires v.Mounted() && v.img == img && v.layout == L && Folded(img, L, s) && img.g.Ok()
    requires e == MetaOf(img).At(s) && Located(v.g, lba, idx, s.d, s.j) && buff == img.region[s.d][s.j / 16]
    requires e.first != 0 && 0 < |src| && newSize == e.size + |src| <= MAX_FILE_BYTES
    requires Backs(img.g, FreeCount(img.fat), Extra(e.size, newSize, img.g.ClusterBytes()))
    modifies v
    ensures if code == FAT_OK then Sealed(v) && FoldedStores(img, L, v.img, s, newSize) else v.Mounted() && v.img == img && v.layout == L
    ensures
      var t := TreeAt(img, L);
      && s.d in t && e.name in t[s.d] && t[s.d][e.name].File?
      && WritesFileAt(t, FreeCount(img.fat), img.g, s.d, e.name, e.size, src, code, TreeAt(v.img, v.layout), FreeCount(v.img.fat))
    ensures Rooms(v.img, v.layout) == Rooms(img, L)
  {
    code := AppendInto(v, lba, idx, buff, e.first, e.size, src, newSize, img, L, s);
    AppendIntoDone(img, L, v.img, v.layout, s, src, newSize, Extra(e.size, newSize, img.g.ClusterBytes()), code);
  }

  /** What AppendInto does is a write at the end of the file. */
  lemma AppendIntoDone(img: Image, L: Layout, img': Image, L': Layout, s: Slot, src: seq<byte>, newSize: nat, extra: nat, code: int)
    requires Folded(img, L, s) && img.g.Ok() && MetaOf(img).At(s).first != 0
    requires newSize == MetaOf(img).At(s).size + |src| <= MAX_FILE_BYTES && extra == Extra(MetaOf(img).At(s).size, newSize, img.g.ClusterBytes())
    requires code == if extra > FreeCount(img.fat) then FAT_ERR_NO_SPACE else FAT_OK
    requires code == FAT_OK ==> Finished(img, L, img', L', s, FirstFrees(img.fat, extra), FileBytes(img, L, s) + src)
    ensures code == FAT_OK ==> FoldedStores(img, L, img', s, newSize)
    ensures
      var t, n := TreeAt(img, L), MetaOf(img).At(s).name;
      && s.d in t && n in t[s.d] && t[s.d][n].File?
      && WritesFileAt(t, FreeCount(img.fat), img.g, s.d, n, MetaOf(img).At(s).size, src, code, TreeAt(img', L'), FreeCount(img'.fat))
  {
    UnfoldFacts(img, L, s);
    SpliceAtEnd(FileBytes(img, L, s), src);
    WriteIntoDone(img, L, img', L', s, MetaOf(img).At(s).size, src, extra, code);
    if code == FAT_OK {
      FinishedStores(img, L, img', L', s, MetaOf(img).At(s).size, src, extra, newSize);
    }
  }

  /** An append on an empty file, its checks passed. */
  method AppendEmpty(v: Volume, path: Text, src: seq<byte>, newSize: u32, ghost img: Image, ghost L: Layout, ghost s: Slot, ghost n: Name)
    returns (code: int)
    requires v.Mounted() && FoldedVolume(img, L) && v.img == img && v.layout == L && img.g.Ok() && src != [] && newSize == |src|
    requires EntryOf(img, L, path, s) && MetaOf(img).At(s).first == 0 && Locate(TreeAt(img, L), path) == Parent(s.d, n)
    requires TreeAt(img, L)[s.d][n] == File([])
    requires Backs(img.g, FreeCount(img.fat), CeilDiv(|src|, img.g.ClusterBytes()))
    modifies v
    ensures if code == FAT_OK then Sealed(v) && FoldedStores(img, L, v.img, s, newSize) else v.Mounted() && v.img == img && v.layout == L
    ensures WritesFileAt(TreeAt(img, L), FreeCount(img.fat), img.g, s.d, n, 0, src, code, TreeAt(v.img, v.layout), FreeCount(v.img.fat))
    ensures Rooms(v.img, v.layout) == Rooms(img, L)
  {
    code := WriteAtEmpty(v, path, src, newSize, img, L, s);
  }

  /** An append on a file, its checks passed. */
  method AppendFile(v: Volume, path: Text, lba: int, idx: nat, e: Entry, buff: Sector, src: seq<byte>, newSize: u32,
                    ghost img: Image, ghost L: Layout, ghost s: Slot)
    returns (code: int)
    requires v.Mounted() && FoldedVolume(img, L) && v.img == img && v.layout == L && img.Shape() && s in L.chain && !e.IsDir()
    requires e == MetaOf(img).At(s) && Located(v.g, lba, idx, s.d, s.j) && buff == img.region[s.d][s.j / 16]
    requires Locate(TreeAt(img, L), path) == Parent(s.d, e.name)
    requires 0 < |src| && newSize == e.size + |src| <= MAX_FILE_BYTES
    requires img.g.Ok() && GrowthBacked(img, e, e.size, newSize)
    modifies v
    ensures if code == FAT_OK then Sealed(v) && FoldedStores(img, L, v.img, s, newSize) else v.Mounted() && v.img == img && v.layout == L
    ensures
      var t := TreeAt(img, L);
      && s.d in t && e.name in t[s.d] && t[s.d][e.name].File? && |t[s.d][e.name].content| == e.size
      && WritesFileAt(t, FreeCount(img.fat), img.g, s.d, e.name, e.size, src, code, TreeAt(v.img, v.layout), FreeCount(v.img.fat))
    ensures Rooms(v.img, v.layout) == Rooms(img, L)
  {
    FoldedEntryFile(img, L, s);
    if e.first == 0 {
      code := AppendEmpty(v, path, src, newSize, img, L, s, e.name);
    } else {
      code := AppendChain(v, lba, idx, e, buff, src, newSize, img, L, s);
    }
  }

  /** Appends, folded. */
  ghost predicate FoldedAppends(t: Tree, free: nat, g: Geometry, path: Text, src: seq<byte>, code: int, t': Tree, free': nat)
    requires g.Ok()
  {
    forall k :: Owed(k) ==> Appends(t, free, g, path, src, code, t', free')
  }

  lemma AppendsNowhere(t: Tree, free: nat, g: Geometry, path: Text, src: seq<byte>, code: int)
    requires g.Ok() && Locate(t, path) == Failed(code)
    ensures FoldedAppends(t, free, g, path, src, code, t, free)
  {
  }

  lemma BacksAtEnd(img: Image, L: Layout, path: Text, s: Slot, len: nat, end: nat)
    requires img.Shape() && FoldedVolume(img, L) && s in L.chain && Locate(TreeAt(img, L), path) == Parent(s.d, MetaOf(img).At(s).name)
    requires Backs(img.g, FreeCount(img.fat), AppendTakes(TreeAt(img, L), img.g, path, len))
    ensures
      var e := MetaOf(img).At(s);
      0 < len && end == e.size + len ==> GrowthBacked(img, e, e.size, end)
  {
    if !MetaOf(img).At(s).IsDir() && 0 < len && end == MetaOf(img).At(s).size + len {
      FoldedEntryFile(img, L, s);
      BacksHere(img, L, path, s, MetaOf(img).At(s).size, len, end);
    }
  }

  lemma AppendsOnFile(t: Tree, free: nat, g: Geometry, path: Text, d: nat, n: Name, src: seq<byte>, code: int, t': Tree, free': nat)
    requires g.Ok() && src != [] && Locate(t, path) == Parent(d, n) && t[d][n].File?
    requires WritesFileAt(t, free, g, d, n, |t[d][n].content|, src, code, t', free')
    ensures FoldedAppends(t, free, g, path, src, code, t', free')
  {
    AppendIsWriteAt(t, free, g, d, n, src, code, t', free');
  }

  lemma AppendsNothing(t: Tree, free: nat, g: Geometry, path: Text, d: nat, n: Name, src: seq<byte>, code: int)
    requires g.Ok() && Locate(t, path) == Parent(d, n) && t[d][n].File?
    requires if src == [] then code == FAT_OK else |t[d][n].content| + |src| > MAX_FILE_BYTES && code == FAT_ERR_TOO_BIG
    ensures FoldedAppends(t, free, g, path, src, code, t, free)
  {
  }

  lemma AppendsToDir(t: Tree, free: nat, g: Geometry, path: Text, d: nat, n: Name, src: seq<byte>)
    requires g.Ok() && Locate(t, path) == Parent(d, n) && t[d][n].Dir?
    ensures FoldedAppends(t, free, g, path, src, FAT_ERR_INVALID, t, free)
  {
  }

  /** fat_append_file after the entry was found to be a file. */
  method AppendToFile(v: Volume, path: Text, lba: int, idx: nat, e: Entry, buff: Sector, src: seq<byte>,
                      ghost img: Image, ghost L: Layout, ghost s: Slot, ghost end: nat)
    returns (code: int)
    requires v.Mounted() && FoldedVolume(img, L) && v.img == img && v.layout == L && img.Shape() && s in L.chain && !e.IsDir()
    requires e == MetaOf(img).At(s) && Located(v.g, lba, idx, s.d, s.j) && buff == img.region[s.d][s.j / 16]
    requires Locate(TreeAt(img, L), path) == Parent(s.d, e.name) && |src| < U32_MOD && end == e.size + |src|
    requires img.g.Ok() && (0 < |src| ==> GrowthBacked(img, e, e.size, end))
    modifies v
    ensures Sealed(v)
    ensures code != FAT_OK ==> v.img == img && v.layout == L
    ensures code == FAT_OK && src != [] ==> FoldedStores(img, L, v.img, s, end)
    ensures FoldedAppends(TreeAt(img, L), FreeCount(img.fat), img.g, path, src, code, TreeAt(v.img, v.layout), FreeCount(v.img.fat))
    ensures Rooms(v.img, v.layout) == Rooms(img, L)
  {
    FoldedEntryFile(img, L, s);
    var big, newSize := CheckedSize(e.size, |src|);
    if |src| == 0 || big {
      code := if |src| == 0 then FAT_OK else FAT_ERR_TOO_BIG;
      AppendsNothing(TreeAt(img, L), FreeCount(img.fat), img.g, path, s.d, e.name, src, code);
    } else {
      assert newSize == end;
      code := AppendFile(v, path, lba, idx, e, buff, src, newSize, img, L, s);
      AppendsOnFile(TreeAt(img, L), FreeCount(img.fat), img.g, path, s.d, e.name, src, code, TreeAt(v.img, v.layout), FreeCount(v.img.fat));
    }
  }

  /** fat_append_file after the entry was found. */
  method AppendLocated(v: Volume, path: Text, lba: int, idx: nat, e: Entry, buff: Sector, src: seq<byte>,
                       ghost img: Image, ghost L: Layout, ghost s: Slot, ghost end: nat)
    returns (code: int)
    requires v.Mounted() && FoldedVolume(img, L) && v.img == img && v.layout == L && img.Shape() && s in L.chain
    requires e == MetaOf(img).At(s) && Located(v.g, lba, idx, s.d, s.j) && buff == img.region[s.d][s.j / 16]
    requires Locate(TreeAt(img, L), path) == Parent(s.d, e.name)
    requires e.IsDir() <==> TreeAt(img, L)[s.d][e.name].Dir?
    requires |src| < U32_MOD && end == e.size + |src|
    requires img.g.Ok()
    requires 0 < |src| ==> GrowthBacked(img, e, e.size, end)
    modifies v
    ensures Sealed(v) && (e.IsDir() ==> code == FAT_ERR_INVALID)
    ensures code != FAT_OK ==> v.img == img && v.layout == L
    ensures code == FAT_OK && src != [] ==> FoldedStores(img, L, v.img, s, end)
    ensures FoldedAppends(TreeAt(img, L), FreeCount(img.fat), img.g, path, src, code, TreeAt(v.img, v.layout), FreeCount(v.img.fat))
    ensures Rooms(v.img, v.layout) == Rooms(img, L)
  {
    if e.IsDir() {
      AppendsToDir(TreeAt(img, L), FreeCount(img.fat), img.g, path, s.d, e.name, src);
      code := FAT_ERR_INVALID;
    } else {
      code := AppendToFile(v, path, lba, idx, e, buff, src, img, L, s, end);
    }
  }

  /** `end` is where the file of a path ends after len more bytes. */
  ghost predicate EndsAt(t: Tree, path: Text, len: nat, end: nat) {
    var at := Locate(t, path);
    at.Parent? && t[at.d][at.leaf].File? ==> end == |t[at.d][at.leaf].content| + len
  }

  /** fat_append_file, for a volume that is not looked into. */
  method AppendPath(v: Volume, path: Text, src: seq<byte>, ghost img: Image, ghost L: Layout) returns (code: int, ghost end: nat)
    requires Sealed(v) && v.img == img && v.layout == L && img.g.Ok() && |src| < U32_MOD
    requires Backs(img.g, FreeCount(img.fat), AppendTakes(TreeAt(img, L), img.g, path, |src|))
    modifies v
    ensures Sealed(v) && (code != FAT_OK ==> v.img == img && v.layout == L)
    ensures FoldedAppends(TreeAt(img, L), FreeCount(img.fat), img.g, path, src, code, TreeAt(v.img, v.layout), FreeCount(v.img.fat))
    ensures code == FAT_OK && src != [] ==> StoresFor(img, L, v.img, path, end) && EndsAt(TreeAt(img, L), path, |src|, end)
    ensures Rooms(v.img, v.layout) == Rooms(img, L)
  {
    end := 0;
    var lba, idx, n83, e, buff;
    ghost var s;
    code, lba, idx, n83, e, buff, s := LocateFolded(v, path);
    if code != FAT_OK {
      AppendsNowhere(TreeAt(img, L), FreeCount(img.fat), img.g, path, src, code);
    } else {
      end := e.size + |src|;
      BacksAtEnd(img, L, path, s, |src|, end);
      code := AppendLocated(v, path, lba, idx, e, buff, src, img, L, s, end);
      if code == FAT_OK && src != [] {
        StoresForAll(img, L, v.img, path, s, end);
        FoldedEntryFile(img, L, s);
      }
    }
  }

  /** fat_append_file. */
  method FatAppendFile(v: Volume, path: Text, src: seq<byte>) returns (code: int, ghost end: nat)
    requires Valid(v) && v.g.Ok() && |src| < U32_MOD
    requires Backs(v.g, FreeCount(v.img.fat), AppendTakes(TreeAt(v.img, v.layout), v.g, path, |src|))
    modifies v
    ensures Valid(v) && v.g.Ok() && (code != FAT_OK ==> v.img == old(v.img) && v.layout == old(v.layout))
    ensures Appends(old(TreeAt(v.img, v.layout)), old(FreeCount(v.img.fat)), v.g, path, src, code,
                    TreeAt(v.img, v.layout), FreeCount(v.img.fat))
    ensures code == FAT_OK && src != [] ==>
      StoresFor(old(v.img), old(v.layout), v.img, path, end) && EndsAt(old(TreeAt(v.img, v.layout)), path, |src|, end)
    ensures Rooms(v.img, v.layout) == old(Rooms(v.img, v.layout))
  {
    code, end := AppendPath(v, path, src, v.img, v.layout);
    UnfoldVolume(v.img, v.layout);
    assert Owed(0);
  }

  // ---- the two ways of growing a file agree ----

  lemma SameLinks(fat: seq<u16>, a: seq<u16>, b: seq<u16>, ch: seq<nat>)
    requires ch != [] && LinkedTo(fat, a, ch, |ch| - 1) && LinkedTo(fat, b, ch, |ch| - 1)
    ensures a == b
  {
    forall c | 0 <= c < |fat| ensures a[c] == b[c] {
      if c in ch {
        var k :| 0 <= k < |ch| && ch[k] == c;
        if k < |ch| - 1 {
          assert a[ch[k]] == ch[k + 1] && b[ch[k]] == ch[k + 1];
        }
      }
    }
  }

  /** What a growing write leaves in the table and the entry is determined. */
  lemma StoresSame(img: Image, L: Layout, a: Image, b: Image, s: Slot, end: nat)
    requires FoldedStores(img, L, a, s, end) && FoldedStores(img, L, b, s, end) && FreeCount(a.fat) == FreeCount(b.fat)
    ensures a.fat == b.fat && MetaOf(a).At(s) == MetaOf(b).At(s)
  {
    assert Owed(0);
    if MetaOf(img).At(s).first == 0 {
      assert ReplacedTable(img, L, a, s, end) && ReplacedTable(img, L, b, s, end);
      SameLinks(Zeroed(img.fat, ChainOf(L, s)), a.fat, b.fat, FirstFrees(img.fat, CeilDiv(end, img.g.ClusterBytes())));
    }
  }

  /** A path that names a file has an entry. */
  lemma EntryExists(img: Image, L: Layout, path: Text) returns (s: Slot)
    requires img.Shape() && FoldedVolume(img, L) && Locate(TreeAt(img, L), path).Parent?
    requires TreeAt(img, L)[Locate(TreeAt(img, L), path).d][Locate(TreeAt(img, L), path).leaf].File?
    ensures EntryOf(img, L, path, s)
  {
    UnfoldVolume(img, L);
    TreeIs(img, L);
    s := NamedSlot(MetaOf(img), img.region, L, Locate(TreeAt(img, L), path).d, Locate(TreeAt(img, L), path).leaf);
  }

  lemma NamedSlot(m: Meta, region: seq<seq<Sector>>, L: Layout, d: nat, n: Name) returns (s: Slot)
    requires ReadOk(m, L) && d in L.rank && n in TreeOf(m, region, L)[d]
    ensures s in L.chain && s.d == d && m.At(s).name == n && TreeOf(m, region, L)[d][n] == NodeAt(m, region, L, s)
  {
    NamesExact(m.dirs[d], n);
    s := Slot(d, Find(m.dirs[d], n, 0));
    SlotOwned(m, L, s);
    EntryInTree(m, region, L, s);
  }

  lemma SameOutcome(t: Tree, free: nat, g: Geometry, path: Text, offset: nat, src: seq<byte>, ca: int, ta: Tree, freeA: nat, cb: int, tb: Tree, freeB: nat)
    requires g.Ok() && src != [] && Appends(t, free, g, path, src, ca, ta, freeA) && WritesAt(t, free, g, path, offset, src, cb, tb, freeB)
    requires EndsAt(t, path, 0, offset)
    ensures ca == cb
    ensures ca == FAT_OK ==> ta == tb && freeA == freeB && Locate(t, path).Parent? && t[Locate(t, path).d][Locate(t, path).leaf].File?
  {
    var at := Locate(t, path);
    LocateFails(t, path);
    if at.Parent? && t[at.d][at.leaf].File? {
      AppendIsWriteAt(t, free, g, at.d, at.leaf, src, ca, ta, freeA);
    }
  }

  method AppendFolded(v: Volume, path: Text, src: seq<byte>, ghost img: Image, ghost L: Layout) returns (code: int, ghost end: nat)
    requires Sealed(v) && v.img == img && v.layout == L && img.g.Ok() && |src| < U32_MOD
    requires Backs(img.g, FreeCount(img.fat), AppendTakes(TreeAt(img, L), img.g, path, |src|))
    modifies v
    ensures Sealed(v) && (code != FAT_OK ==> v.img == img && v.layout == L)
    ensures Appends(TreeAt(img, L), FreeCount(img.fat), img.g, path, src, code, TreeAt(v.img, v.layout), FreeCount(v.img.fat))
    ensures code == FAT_OK && src != [] ==> StoresFor(img, L, v.img, path, end) && EndsAt(TreeAt(img, L), path, |src|, end)
  {
    UnfoldVolume(img, L);
    code, end := FatAppendFile(v, path, src);
  }

  method WriteAtFolded(v: Volume, path: Text, offset: u32, src: seq<byte>, ghost img: Image, ghost L: Layout) returns (code: int, ghost end: nat)
    requires Sealed(v) && v.img == img && v.layout == L && img.g.Ok() && |src| < U32_MOD
    requires Backs(img.g, FreeCount(img.fat), WriteAtTakes(TreeAt(img, L), img.g, path, offset, |src|))
    modifies v
    ensures Sealed(v) && (code != FAT_OK ==> v.img == img && v.layout == L)
    ensures WritesAt(TreeAt(img, L), FreeCount(img.fat), img.g, path, offset, src, code, TreeAt(v.img, v.layout), FreeCount(v.img.fat))
    ensures end == offset + |src| && (code == FAT_OK && src != [] ==> StoresFor(img, L, v.img, path, end))
  {
    UnfoldVolume(img, L);
    code, end := FatWriteFileAt(v, path, offset, src);
  }

  /** The two outcomes agree. */
  ghost predicate Agree(img: Image, L: Layout, path: Text, ca: int, a: Image, ta: Tree, cb: int, b: Image, tb: Tree) {
    ca == cb && a.fat == b.fat && ta == tb && forall s :: EntryOf(img, L, path, s) ==> MetaOf(a).At(s) == MetaOf(b).At(s)
  }

  lemma AgreeStored(img: Image, L: Layout, path: Text, a: Image, b: Image, end: nat)
    requires img.Shape() && FoldedVolume(img, L) && Locate(TreeAt(img, L), path).Parent?
    requires TreeAt(img, L)[Locate(TreeAt(img, L), path).d][Locate(TreeAt(img, L), path).leaf].File?
    requires StoresFor(img, L, a, path, end) && StoresFor(img, L, b, path, end) && FreeCount(a.fat) == FreeCount(b.fat)
    ensures a.fat == b.fat && forall s :: EntryOf(img, L, path, s) ==> MetaOf(a).At(s) == MetaOf(b).At(s)
  {
    var s0 := EntryExists(img, L, path);
    forall s | EntryOf(img, L, path, s) ensures a.fat == b.fat && MetaOf(a).At(s) == MetaOf(b).At(s) {
      StoresSame(img, L, a, b, s, end);
    }
  }

  lemma Agreeing(img: Image, L: Layout, path: Text, offset: nat, src: seq<byte>, ca: int, a: Image, ta: Tree, end: nat, cb: int, b: Image, tb: Tree, end': nat)
    requires img.Shape() && FoldedVolume(img, L) && src != [] && EndsAt(TreeAt(img, L), path, 0, offset) && end' == offset + |src|
    requires Appends(TreeAt(img, L), FreeCount(img.fat), img.g, path, src, ca, ta, FreeCount(a.fat))
    requires WritesAt(TreeAt(img, L), FreeCount(img.fat), img.g, path, offset, src, cb, tb, FreeCount(b.fat))
    requires ca == FAT_OK ==> StoresFor(img, L, a, path, end) && EndsAt(TreeAt(img, L), path, |src|, end)
    requires cb == FAT_OK ==> StoresFor(img, L, b, path, end')
    requires ca != FAT_OK ==> a == img && ta == TreeAt(img, L)
    requires cb != FAT_OK ==> b == img && tb == TreeAt(img, L)
    ensures Agree(img, L, path, ca, a, ta, cb, b, tb)
  {
    SameOutcome(TreeAt(img, L), FreeCount(img.fat), img.g, path, offset, src, ca, ta, FreeCount(a.fat), cb, tb, FreeCount(b.fat));
    if ca == FAT_OK {
      assert end == end';
      AgreeStored(img, L, path, a, b, end);
    }
  }

  /** On two volumes in the same state, an append and a positioned write at the end of the file give the same code and leave
      the same table, the same directory entry and the same tree. */
  method AppendAndWriteAt(a: Volume, b: Volume, path: Text, offset: u32, src: seq<byte>) returns (ca: int, cb: int)
    requires a != b && Sealed(a) && Sealed(b) && a.img == b.img && a.layout == b.layout && 0 < |src| < U32_MOD
    requires EndsAt(TreeAt(a.img, a.layout), path, 0, offset)
    requires a.img.g.Ok() && Backs(a.img.g, FreeCount(a.img.fat), AppendTakes(TreeAt(a.img, a.layout), a.img.g, path, |src|))
    modifies a, b
    ensures Sealed(a) && Sealed(b)
    ensures Agree(old(a.img), old(a.layout), path, ca, a.img, TreeAt(a.img, a.layout), cb, b.img, TreeAt(b.img, b.layout))
  {
    ghost var img, L, end, end' := a.img, a.layout, 0, 0;
    ca, end := AppendFolded(a, path, src, img, L);
    cb, end' := WriteAtFolded(b, path, offset, src, img, L);
    Agreeing(img, L, path, offset, src, ca, a.img, TreeAt(a.img, a.layout), end, cb, b.img, TreeAt(b.img, b.layout), end');
  }
}
