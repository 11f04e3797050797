/** Moving file bytes through a cluster chain, sector by sector. */
module ChainIO {
  import opened Sequences
  import opened Bytes
  import opened Disk
  import opened Fat
  import opened Tree
  import opened FileData
  import opened Allocation

  /** Only regions of the chain may differ. */
  ghost predicate OnlyRegions(img: Image, img': Image, ch: seq<nat>) {
    && img'.g == img.g && img'.fat == img.fat && |img'.region| == |img.region|
    && forall r :: 0 <= r < |img.region| && r !in ch ==> img'.region[r] == img.region[r]
  }

  ghost predicate DiskRegions(img: Image, disk: seq<Sector>, ch: seq<nat>) {
    exists b :: Shows(disk, b) && OnlyRegions(img, b, ch)
  }

  /** Every disk written since position |base| of the trace differs only there. */
  ghost predicate TraceRegions(img: Image, base: seq<seq<Sector>>, trace: seq<seq<Sector>>, ch: seq<nat>) {
    base <= trace && forall k :: |base| <= k < |trace| ==> DiskRegions(img, trace[k], ch)
  }

  /** A chain of data clusters of the volume. */
  ghost predicate DataChain(g: Geometry, ch: seq<nat>) {
    NoDup(ch) && forall i :: 0 <= i < |ch| ==> 2 <= ch[i] < g.backed
  }

  lemma DataChainBacked(img: Image, ch: seq<nat>)
    requires img.Shape() && DataChain(img.g, ch)
    ensures Backed(img.region, ch, img.g.secPerClus)
  {
  }

  /** ata_write of sector k of link i, which is sector q of the file. */
  method WriteChainSector(v: Volume, lba: int, t: Sector, ghost ch: seq<nat>, ghost i: nat, ghost k: nat, ghost q: nat)
    requires v.Mounted() && DataChain(v.g, ch) && i < |ch| && k < v.g.secPerClus && AtLba(v.g, lba, ch[i], k)
    requires q == i * v.g.secPerClus + k
    modifies v`disk, v`img, v`trace
    ensures v.Mounted() && OnlyRegions(old(v.img), v.img, ch)
    ensures q < |Sectors(old(v.img.region), ch)| && Sectors(v.img.region, ch) == Sectors(old(v.img.region), ch)[q := t]
    ensures v.trace == old(v.trace) + [v.disk]
  {
    DataChainBacked(v.img, ch);
    SectorsAt(v.img.region, ch, v.g.secPerClus, i, k);
    SectorsUpdate(v.img.region, ch, v.g.secPerClus, i, k, t);
    WriteSector(v, lba, t, ch[i], k);
  }

  // ---- a whole new file ----

  lemma FillStep(secs: seq<Sector>, q: nat, t: Sector, src: seq<byte>, chunk: nat)
    requires q < |secs| && 512 * q + chunk <= |src| && chunk <= 512
    requires src[..512 * q] <= Flat(secs) && src[512 * q..512 * q + chunk] <= t
    ensures src[..512 * q + chunk] <= Flat(secs[q := t])
  {
    FlatPatch(secs, q, 0, t);
    assert Patch(secs[q], 0, t) == t;
    var f := Flat(secs[q := t]);
    assert f == Patch(Flat(secs), 512 * q, t);
    forall x | 0 <= x < 512 * q + chunk ensures f[x] == src[x] {
      if x < 512 * q {
        assert src[..512 * q][x] == src[x];
      } else {
        assert src[512 * q..512 * q + chunk][x - 512 * q] == src[x];
      }
    }
  }

  /** A zeroed buffer with d copied to its start. */
  function Padded(d: seq<byte>): (t: Sector)
    requires |d| <= 512
    ensures d <= t
  {
    d + seq(512 - |d|, _ => 0)
  }

  /** The file so far: `pre`, then the first `done` bytes of src. */
  ghost predicate Filled(region: seq<seq<Sector>>, ch: seq<nat>, pre: seq<byte>, src: seq<byte>, done: nat) {
    done <= |src| && pre + src[..done] <= Flat(Sectors(region, ch))
  }

  /** The data loops of fat_write_file: sectors are zero-filled, then take up to 512 bytes each. */
  method FillChain(v: Volume, chain: seq<nat>, src: seq<byte>)
    requires v.Mounted() && DataChain(v.g, chain) && |src| <= |chain| * v.g.ClusterBytes()
    modifies v`disk, v`img, v`trace
    ensures v.Mounted() && OnlyRegions(old(v.img), v.img, chain)
    ensures TraceRegions(old(v.img), old(v.trace), v.trace, chain)
    ensures src <= Flat(Sectors(v.img.region, chain))
  {
    ghost var n, img, trace := v.g.secPerClus, v.img, v.trace;
    MulSwap(|chain|, n, 512);
    var offset, i := 0, 0;
    ghost var base := 0;
    while i < |chain|
      invariant 0 <= i <= |chain| && base == i * n && offset == Min(|src|, 512 * base)
      invariant v.Mounted() && OnlyRegions(img, v.img, chain)
      invariant TraceRegions(img, trace, v.trace, chain)
      invariant Filled(v.img.region, chain, [], src, offset)
    {
      ghost var img1, trace1 := v.img, v.trace;
      offset := FillCluster(v, chain[i], src, offset, chain, i, base, []);
      TraceThrough(img, img1, trace, trace1, v.trace, chain);
      MulSucc(i, n);
      i, base := i + 1, base + n;
    }
    assert [] + src[..|src|] == src;
  }

  lemma TraceThrough(img: Image, img1: Image, base: seq<seq<Sector>>, trace1: seq<seq<Sector>>, trace2: seq<seq<Sector>>, ch: seq<nat>)
    requires TraceRegions(img, base, trace1, ch) && OnlyRegions(img, img1, ch) && TraceRegions(img1, trace1, trace2, ch)
    ensures TraceRegions(img, base, trace2, ch)
  {
    forall k | |base| <= k < |trace2| ensures DiskRegions(img, trace2[k], ch) {
      if k < |trace1| {
        assert trace2[k] == trace1[k];
      } else {
        assert DiskRegions(img1, trace2[k], ch);
        var b :| Shows(trace2[k], b) && OnlyRegions(img1, b, ch);
        assert OnlyRegions(img, b, ch);
      }
    }
  }

  lemma TraceOneMore(img: Image, base: seq<seq<Sector>>, trace: seq<seq<Sector>>, disk: seq<Sector>, b: Image, ch: seq<nat>)
    requires TraceRegions(img, base, trace, ch) && FoldedShows(disk, b) && OnlyRegions(img, b, ch)
    ensures TraceRegions(img, base, trace + [disk], ch)
  {
    UnfoldShows(disk, b);
    assert DiskRegions(img, disk, ch);
  }

  /** The sectors of one cluster, which are those from `base` on of the file. */
  method FillCluster(v: Volume, cluster: nat, src: seq<byte>, start: nat,
                     ghost chain: seq<nat>, ghost i: nat, ghost base: nat, ghost pre: seq<byte>)
    returns (offset: nat)
    requires v.Mounted() && DataChain(v.g, chain) && i < |chain| && cluster == chain[i]
    requires base == i * v.g.secPerClus && |pre| <= 512 * base && start == Min(|src|, 512 * base - |pre|)
    requires Filled(v.img.region, chain, pre, src, start)
    modifies v`disk, v`img, v`trace
    ensures offset == Min(|src|, 512 * (base + v.g.secPerClus) - |pre|)
    ensures v.Mounted() && OnlyRegions(old(v.img), v.img, chain)
    ensures TraceRegions(old(v.img), old(v.trace), v.trace, chain)
    ensures Filled(v.img.region, chain, pre, src, offset)
  {
    var dataLba := v.g.DataStart() + (cluster - 2) * v.g.secPerClus;
    var sc := 0;
    offset := start;
    while sc < v.g.secPerClus && offset != |src|
      invariant 0 <= sc <= v.g.secPerClus && offset == Min(|src|, 512 * (base + sc) - |pre|)
      invariant v.Mounted() && OnlyRegions(old(v.img), v.img, chain)
      invariant TraceRegions(old(v.img), old(v.trace), v.trace, chain)
      invariant Filled(v.img.region, chain, pre, src, offset)
    {
      var remaining := |src| - offset;
      var chunk := if remaining < 512 then remaining else 512;
      var buff := Padded(src[offset..offset + chunk]);
      ghost var secs, trace := Sectors(v.img.region, chain), v.trace;
      WriteChainSector(v, dataLba + sc, buff, chain, i, sc, base + sc);
      TraceOneMore(old(v.img), old(v.trace), trace, v.disk, v.img, chain);
      FillOne(secs, base + sc, buff, pre, src, offset, chunk);
      offset := offset + chunk;
      sc := sc + 1;
    }
  }

  lemma FillOne(secs: seq<Sector>, q: nat, t: Sector, pre: seq<byte>, src: seq<byte>, done: nat, chunk: nat)
    requires q < |secs| && done + chunk <= |src| && chunk <= 512 && |pre| + done == 512 * q
    requires pre + src[..done] <= Flat(secs) && src[done..done + chunk] <= t
    ensures pre + src[..done + chunk] <= Flat(secs[q := t])
  {
    var all := pre + src;
    assert all[..512 * q] == pre + src[..done];
    assert all[512 * q..512 * q + chunk] == src[done..done + chunk];
    FillStep(secs, q, t, all, chunk);
    assert all[..512 * q + chunk] == pre + src[..done + chunk];
  }

  // ---- overwriting part of a file ----

  /** Reads sector k of link i, replaces the bytes from b on by d, writes it back. */
  method PatchSector(v: Volume, lba: int, b: nat, d: seq<byte>, ghost ch: seq<nat>, ghost i: nat, ghost k: nat, ghost q: nat)
    requires v.Mounted() && DataChain(v.g, ch) && i < |ch| && k < v.g.secPerClus && AtLba(v.g, lba, ch[i], k)
    requires q == i * v.g.secPerClus + k && b + |d| <= 512
    modifies v`disk, v`img, v`trace
    ensures v.Mounted() && OnlyRegions(old(v.img), v.img, ch)
    ensures 512 * q + b + |d| <= |Flat(Sectors(old(v.img.region), ch))|
    ensures Flat(Sectors(v.img.region, ch)) == Patch(Flat(Sectors(old(v.img.region), ch)), 512 * q + b, d)
  {
    ghost var secs := Sectors(v.img.region, ch);
    DataChainBacked(v.img, ch);
    SectorsAt(v.img.region, ch, v.g.secPerClus, i, k);
    var buff := ReadSector(v, lba, ch[i], k);
    WriteChainSector(v, lba, Patch(buff, b, d), ch, i, k, q);
    FlatPatch(secs, q, b, d);
  }

  /** The bytes of the file so far: `was` with the first `done` bytes of src at `offset`. */
  ghost predicate Spliced(region: seq<seq<Sector>>, ch: seq<nat>, was: seq<byte>, offset: nat, src: seq<byte>, done: nat) {
    done <= |src| && offset + done <= |was| && Flat(Sectors(region, ch)) == Patch(was, offset, src[..done])
  }

  lemma SplicedMore(was: seq<byte>, offset: nat, src: seq<byte>, done: nat, chunk: nat)
    requires done + chunk <= |src| && offset + done + chunk <= |was|
    ensures Patch(Patch(was, offset, src[..done]), offset + done, src[done..done + chunk]) == Patch(was, offset, src[..done + chunk])
  {
    PatchTwice(was, offset, src[..done], src[done..done + chunk]);
    assert src[..done] + src[done..done + chunk] == src[..done + chunk];
  }

  lemma SplicedNext(region: seq<seq<Sector>>, region': seq<seq<Sector>>, ch: seq<nat>, was: seq<byte>, offset: nat, src: seq<byte>, done: nat, chunk: nat)
    requires Spliced(region, ch, was, offset, src, done)
    requires done + chunk <= |src| && offset + done + chunk <= |Flat(Sectors(region, ch))|
    requires Flat(Sectors(region', ch)) == Patch(Flat(Sectors(region, ch)), offset + done, src[done..done + chunk])
    ensures Spliced(region', ch, was, offset, src, done + chunk)
  {
    SplicedMore(was, offset, src, done, chunk);
  }

  /** One sector of the inner loop of fat_write_file_at. */
  method OverwriteSector(v: Volume, lba: int, b: nat, src: seq<byte>, start: nat,
                         ghost ch: seq<nat>, ghost i: nat, ghost k: nat, ghost q: nat, ghost was: seq<byte>, ghost offset: nat)
    returns (done: nat)
    requires v.Mounted() && DataChain(v.g, ch) && i < |ch| && k < v.g.secPerClus && AtLba(v.g, lba, ch[i], k)
    requires q == i * v.g.secPerClus + k && b < 512 && start < |src| && 512 * q + b == offset + start
    requires Spliced(v.img.region, ch, was, offset, src, start)
    modifies v`disk, v`img, v`trace
    ensures v.Mounted() && OnlyRegions(old(v.img), v.img, ch)
    ensures done == start + Min(|src| - start, 512 - b) && Spliced(v.img.region, ch, was, offset, src, done)
  {
    var remaining, room := |src| - start, 512 - b;
    var chunk := if remaining < room then remaining else room;
    PatchSector(v, lba, b, src[start..start + chunk], ch, i, k, q);
    SplicedNext(old(v.img.region), v.img.region, ch, was, offset, src, start, chunk);
    done := start + chunk;
  }

  /** The inner loop of fat_write_file_at: from `sector` and `byteIn` to the end of the cluster or of src. */
  method OverwriteCluster(v: Volume, cluster: nat, sector: nat, byteIn: nat, src: seq<byte>, start: nat,
                          ghost ch: seq<nat>, ghost i: nat, ghost base: nat, ghost was: seq<byte>, ghost offset: nat)
    returns (done: nat)
    requires v.Mounted() && DataChain(v.g, ch) && i < |ch| && cluster == ch[i] && base == i * v.g.secPerClus
    requires sector < v.g.secPerClus && byteIn < 512 && 512 * (base + sector) + byteIn == offset + start
    requires Spliced(v.img.region, ch, was, offset, src, start)
    modifies v`disk, v`img, v`trace
    ensures v.Mounted() && OnlyRegions(old(v.img), v.img, ch)
    ensures done == Min(|src|, 512 * (base + v.g.secPerClus) - offset)
    ensures Spliced(v.img.region, ch, was, offset, src, done)
  {
    var dataLba := v.g.DataStart() + (cluster - 2) * v.g.secPerClus;
    var sc, b := sector, byteIn;
    done := start;
    while sc < v.g.secPerClus && done < |src|
      invariant sector <= sc <= v.g.secPerClus && 0 <= b < 512
      invariant done < |src| ==> 512 * (base + sc) + b == offset + done
      invariant offset + done <= 512 * (base + sc) + b && (sc == v.g.secPerClus ==> b == 0)
      invariant v.Mounted() && OnlyRegions(old(v.img), v.img, ch)
      invariant Spliced(v.img.region, ch, was, offset, src, done)
    {
      done := OverwriteSector(v, dataLba + sc, b, src, done, ch, i, sc, base + sc, was, offset);
      b, sc := 0, sc + 1;
    }
  }

  method NextCluster(v: Volume, cluster: u16, ghost first: nat, ghost ch: seq<nat>, ghost i: nat) returns (next: u16)
    requires v.Readable() && Chain(v.img.fat, first, ch) && i + 1 < |ch| && cluster == ch[i]
    ensures next == ch[i + 1]
  {
    EndOfChain(v.img.fat, first, ch, i);
    next := FatEntry(v, cluster);
  }

  /** The data loop of fat_write_file_at from link `index` on. Its error return is not reached. */
  method OverwriteChain(v: Volume, start: u16, sector: nat, byteIn: nat, src: seq<byte>,
                        ghost first: nat, ghost ch: seq<nat>, ghost index: nat, ghost at: nat, ghost offset: nat)
    requires v.Mounted() && DataChain(v.g, ch) && Chain(v.img.fat, first, ch) && index < |ch| && start == ch[index]
    requires at == index * v.g.secPerClus && sector < v.g.secPerClus && byteIn < 512 && 512 * (at + sector) + byteIn == offset
    requires offset + |src| <= |ch| * v.g.ClusterBytes()
    modifies v`disk, v`img, v`trace
    ensures v.Mounted() && OnlyRegions(old(v.img), v.img, ch)
    ensures offset + |src| <= |Flat(Sectors(old(v.img.region), ch))|
    ensures Flat(Sectors(v.img.region, ch)) == Patch(Flat(Sectors(old(v.img.region), ch)), offset, src)
  {
    ghost var n, was := v.g.secPerClus, Flat(Sectors(v.img.region, ch));
    DataChainBacked(v.img, ch);
    FlatLength(v.img.region, ch, v.g);
    assert Patch(was, offset, src[..0]) == was;
    var cluster, sec, b, done := start, sector, byteIn, 0;
    ghost var i, base := index, at;
    while done < |src|
      invariant index <= i < |ch| && cluster == ch[i] && base == i * n && sec < n && b < 512
      invariant done < |src| ==> 512 * (base + sec) + b == offset + done
      invariant v.Mounted() && OnlyRegions(old(v.img), v.img, ch)
      invariant Spliced(v.img.region, ch, was, offset, src, done)
      decreases |src| - done
    {
      done := OverwriteCluster(v, cluster, sec, b, src, done, ch, i, base, was, offset);
      sec, b := 0, 0;
      if done < |src| {
        NextLinkExists(v.g, |ch|, i, base, offset + done);
        cluster := NextCluster(v, cluster, first, ch, i);
        i, base := i + 1, base + n;
      }
    }
    assert src[..|src|] == src;
  }

  lemma NextLinkExists(g: Geometry, length: nat, i: nat, base: nat, pos: nat)
    requires i < length && base == i * g.secPerClus && pos == 512 * (base + g.secPerClus) && pos < length * g.ClusterBytes()
    ensures i + 1 < length && (i + 1) * g.secPerClus == base + g.secPerClus
  {
    MulSucc(i, g.secPerClus);
    MulSwap(length, g.secPerClus, 512);
    MulCancel(i + 1, length, g.secPerClus);
  }

  // ---- reading ----

  /** How many of the wanted bytes lie before file position p. */
  function CopiedAt(offset: nat, wanted: nat, p: nat): (n: nat)
    ensures n <= wanted
  {
    if p <= offset then 0 else Min(wanted, p - offset)
  }

  /** The byte loop of fat_read_file_at over sector q, whose bytes are those of the file from 512 * q on. */
  method CopyFromSector(buff: Sector, pos: nat, offset: nat, wanted: nat, size: nat, dst: seq<byte>, ghost f: seq<byte>)
    returns (pos': nat, dst': seq<byte>)
    requires offset + wanted <= size <= |f| && pos + 512 <= |f| && buff == f[pos..pos + 512]
    requires |dst| == CopiedAt(offset, wanted, pos) < wanted && dst == f[offset..offset + |dst|]
    ensures |dst'| == CopiedAt(offset, wanted, pos + 512) && dst' == f[offset..offset + |dst'|]
    ensures |dst'| < wanted ==> pos' == pos + 512
  {
    pos', dst' := pos, dst;
    var i := 0;
    while i < 512 && |dst'| < wanted
      invariant 0 <= i <= 512 && pos' == pos + i
      invariant |dst'| == CopiedAt(offset, wanted, pos') && dst' == f[offset..offset + |dst'|]
    {
      if pos' >= offset {
        assert buff[i] == f[pos + i];
        dst' := dst' + [buff[i]];
      }
      pos' := pos' + 1;
      i := i + 1;
      if pos' >= size {
        break;
      }
    }
  }

  /** The sectors of one cluster. */
  method CopyFromCluster(v: Volume, cluster: nat, pos: nat, offset: nat, wanted: nat, size: nat, dst: seq<byte>,
                         ghost ch: seq<nat>, ghost i: nat, ghost base: nat)
    returns (pos': nat, dst': seq<byte>)
    requires v.Readable() && DataChain(v.g, ch) && i < |ch| && cluster == ch[i] && base == i * v.g.secPerClus && pos == 512 * base
    requires offset + wanted <= size <= |Flat(Sectors(v.img.region, ch))|
    requires |dst| == CopiedAt(offset, wanted, pos) < wanted && offset + |dst| <= |Flat(Sectors(v.img.region, ch))|
    requires dst == Flat(Sectors(v.img.region, ch))[offset..offset + |dst|]
    ensures |dst'| == CopiedAt(offset, wanted, 512 * (base + v.g.secPerClus))
    ensures dst' == Flat(Sectors(v.img.region, ch))[offset..offset + |dst'|]
    ensures |dst'| < wanted ==> pos' == 512 * (base + v.g.secPerClus)
  {
    ghost var secs := Sectors(v.img.region, ch);
    ghost var f := Flat(secs);
    DataChainBacked(v.img, ch);
    var lba := v.g.DataStart() + (cluster - 2) * v.g.secPerClus;
    pos', dst' := pos, dst;
    var sc := 0;
    while sc < v.g.secPerClus && |dst'| < wanted
      invariant 0 <= sc <= v.g.secPerClus
      invariant |dst'| == CopiedAt(offset, wanted, 512 * (base + sc)) && dst' == f[offset..offset + |dst'|]
      invariant |dst'| < wanted ==> pos' == 512 * (base + sc)
    {
      var buff := ReadSector(v, lba + sc, ch[i], sc);
      SectorsAt(v.img.region, ch, v.g.secPerClus, i, sc);
      FlatAt(secs, base + sc);
      pos', dst' := CopyFromSector(buff, pos', offset, wanted, size, dst', f);
      sc := sc + 1;
    }
  }

  /** The loops of fat_read_file_at: the bytes from `offset` on of a chain that holds them. */
  method ReadChain(v: Volume, first: u16, offset: nat, wanted: nat, size: nat, ghost ch: seq<nat>) returns (dst: seq<byte>)
    requires v.Readable() && DataChain(v.g, ch) && Chain(v.img.fat, first, ch) && ch != []
    requires offset + wanted <= size <= |Flat(Sectors(v.img.region, ch))|
    ensures dst == Flat(Sectors(v.img.region, ch))[offset..offset + wanted]
  {
    ghost var f := Flat(Sectors(v.img.region, ch));
    DataChainBacked(v.img, ch);
    SectorsLength(v.img.region, ch, v.g.secPerClus);
    var cluster, pos := first, 0;
    dst := [];
    ghost var i: nat, base: nat := 0, 0;
    while cluster < EOC && |dst| < wanted
      invariant i <= |ch| && base == i * v.g.secPerClus
      invariant if i < |ch| then cluster == ch[i] else cluster >= EOC
      invariant |dst| == CopiedAt(offset, wanted, 512 * base) && dst == f[offset..offset + |dst|]
      invariant |dst| < wanted ==> pos == 512 * base
      decreases |ch| - i
    {
      EndOfChain(v.img.fat, first, ch, i);
      pos, dst := CopyFromCluster(v, cluster, pos, offset, wanted, size, dst, ch, i, base);
      cluster := FatEntry(v, cluster);
      MulSucc(i, v.g.secPerClus);
      i, base := i + 1, base + v.g.secPerClus;
    }
  }
}
