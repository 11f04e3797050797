/** What a program that uses one handle can rely on: what it writes it reads back, seeks go where they say. */
module VfsRuns {
  import opened Bytes
  import opened Disk
  import opened Fat
  import opened Directory
  import opened Names
  import opened WellFormed
  import opened Tree
  import opened FileSystem
  import opened Files
  import opened Growing
  import opened Vfs

  lemma SliceAt(c: seq<byte>, offset: nat, len: nat, k: nat)
    ensures |Slice(c, offset, len)| == if offset >= |c| then 0 else Min(len, |c| - offset)
    ensures k < |Slice(c, offset, len)| ==> Slice(c, offset, len)[k] == c[offset + k]
  {
  }

  /** A write to a place in the file, or at its end. */
  lemma WrittenAt(c: seq<byte>, at: nat, src: seq<byte>, k: nat)
    requires at <= |c|
    ensures |Written(c, at, src)| == Max(|c|, at + |src|)
    ensures k < |Written(c, at, src)| ==> Written(c, at, src)[k] == if at <= k < at + |src| then src[k - at] else c[k]
  {
  }

  /** Write, go back to where that was, read as much: the bytes are those written. */
  lemma ReadBack(s: Stream, free: nat, src: seq<byte>, clusterBytes: nat,
                 s1: Stream, free1: nat, wrote: int, s2: Stream, ret: int, s3: Stream, got: int, out: seq<byte>)
    requires clusterBytes > 0 && s.readable && s.writable && !s.append && s.pos <= |s.content| && s.pos + |src| <= 8192
    requires Extra(|s.content|, s.pos + |src|, clusterBytes) <= free
    requires FileStep(s, free, WriteOp(src), clusterBytes, s1, free1, wrote, [])
    requires FileStep(s1, free1, SeekOp(s.pos, 0), clusterBytes, s2, free1, ret, [])
    requires FileStep(s2, free1, ReadOp(|src|), clusterBytes, s3, free1, got, out)
    ensures wrote == got == |src| && ret == s.pos && out == src && s3.pos == s.pos + |src| && s3.content == s1.content
    ensures |s1.content| == Max(|s.content|, s.pos + |src|)
    ensures forall k :: 0 <= k < |s.content| && !(s.pos <= k < s.pos + |src|) ==> s1.content[k] == s.content[k]
  {
    forall k | 0 <= k < |out| ensures out[k] == src[k] {
      SliceAt(s1.content, s.pos, |src|, k);
      WrittenAt(s.content, s.pos, src, s.pos + k);
    }
    WrittenAt(s.content, s.pos, src, 0);
    SliceAt(s1.content, s.pos, |src|, 0);
    forall k | 0 <= k < |s.content| && !(s.pos <= k < s.pos + |src|) ensures s1.content[k] == s.content[k] {
      WrittenAt(s.content, s.pos, src, k);
    }
  }

  /** An appending handle writes at the end, wherever it stands. */
  lemma AppendsBehind(s: Stream, free: nat, src: seq<byte>, clusterBytes: nat, s1: Stream, free1: nat, wrote: int)
    requires clusterBytes > 0 && s.writable && s.append && |s.content| + |src| <= 8192
    requires Extra(|s.content|, |s.content| + |src|, clusterBytes) <= free
    requires FileStep(s, free, WriteOp(src), clusterBytes, s1, free1, wrote, [])
    ensures wrote == |src| && s1.content == s.content + src && s1.pos == |s1.content|
  {
  }

  /** Seeking by nothing: from the start, from the position, from the end. */
  lemma SeekPlaces(s: Stream, free: nat, clusterBytes: nat, offset: u32, s0: Stream, r0: int, s1: Stream, r1: int, s2: Stream, r2: int)
    requires clusterBytes > 0 && s.pos + offset < 0x8000_0000 && |s.content| + offset < 0x8000_0000
    requires FileStep(s, free, SeekOp(offset, 0), clusterBytes, s0, free, r0, [])
    requires FileStep(s, free, SeekOp(offset, 1), clusterBytes, s1, free, r1, [])
    requires FileStep(s, free, SeekOp(offset, 2), clusterBytes, s2, free, r2, [])
    ensures s0 == s.(pos := r0) && s1 == s.(pos := r1) && s2 == s.(pos := r2)
    ensures r0 == offset && r1 == s.pos + offset && r2 == |s.content| + offset
  {
  }

  /** The content of a file that has just been opened. */
  ghost function OpenContent(t: Tree, path: Text, flags: nat): seq<byte> {
    if flags in {10, 14} then [] else ContentOf(t, path)
  }

  lemma BothFlags(flags: nat)
    requires flags in {2, 6, 10, 14}
    ensures !AppendMode(flags) && Readable(flags) && Writable(flags) && (Truncating(flags) <==> flags in {10, 14})
  {
  }

  lemma Opened(t: Tree, path: Text, flags: nat, t': Tree, size: nat)
    requires flags in {2, 6, 10, 14} && Obtained(t, path, flags, t', size)
    ensures ContentOf(t', path) == OpenContent(t, path, flags)
  {
    BothFlags(flags);
  }

  /** The clusters an empty handle's write takes are there, with sectors. */
  ghost predicate Provided(g: Geometry, free: nat, size: nat, len: nat)
    requires g.Ok()
  {
    Extra(size, len, g.ClusterBytes()) + g.Missing() <= free
  }

  lemma ProvidedClusters(g: Geometry, free: nat, s: Stream, src: seq<byte>)
    requires g.Ok() && Provided(g, free, |s.content|, |src|) && s.pos == 0 && !s.append
    ensures HasClusters(g, free, s, src) && Extra(|s.content|, s.pos + |src|, g.ClusterBytes()) <= free
  {
  }

  /** At the start of a file: write, go back, read. */
  method WriteAndRead(f: OpenFiles, h: nat, src: seq<byte>) returns (wrote: int, out: seq<byte>)
    requires f.Held(h) && f.InUse(h) && f.v.g.Ok() && |src| <= 8192 && f.At(h).pos == 0
    requires f.At(h).readable && f.At(h).writable && !f.At(h).append && Provided(f.v.g, f.Free(), |f.At(h).content|, |src|)
    modifies f`files, f.v
    ensures f.Held(h) && f.InUse(h) && wrote == |src| && out == src && f.At(h).pos == |src|
    ensures |f.At(h).content| == Max(|old(f.At(h)).content|, |src|)
    ensures forall k :: |src| <= k < |old(f.At(h)).content| ==> f.At(h).content[k] == old(f.At(h)).content[k]
  {
    ghost var s, free, bytes := f.At(h), f.Free(), f.v.g.ClusterBytes();
    ProvidedClusters(f.v.g, free, s, src);
    wrote := UseWrite(f, h, src);
    ghost var s1, free1 := f.At(h), f.Free();
    var at := UseSeek(f, h, 0, SEEK_SET);
    ghost var s2 := f.At(h);
    var got;
    got, out := UseRead(f, h, |src|);
    ReadBack(s, free, src, bytes, s1, free1, wrote, s2, at, f.At(h), got, out);
  }

  /** vfs_open_at for reading and writing, which is what flags 2, 6, 10 and 14 ask for, without appending. */
  method OpenBoth(f: OpenFiles, cwd: Text, path: Text, flags: nat) returns (h: int)
    requires f.Sane() && flags in {2, 6, 10, 14} && OpenCode(f.T(), f.R(), f.files, cwd, path, flags) == 0
    requires NotOpen(f.T(), f.files, Rest(path))
    modifies f`files, f.v
    ensures f.Held(h) && f.InUse(h) && h >= 0 && f.Free() == old(f.Free()) + OpenFreed(old(f.T()), f.v.g.ClusterBytes(), Rest(path), flags)
    ensures f.At(h) == Stream(OpenContent(old(f.T()), Rest(path), flags), 0, false, true, true)
  {
    BothFlags(flags);
    ghost var t := f.T();
    h := f.OpenAt(cwd, path, flags);
    Opened(t, Rest(path), flags, f.T(), f.files[h].size);
  }

  /** Open a file for reading and writing, write to it, go back to the start and read: the bytes are those written. */
  method OpenWriteRead(f: OpenFiles, cwd: Text, path: Text, flags: nat, src: seq<byte>) returns (h: int, wrote: int, out: seq<byte>)
    requires f.Sane() && f.v.g.Ok() && flags in {2, 6, 10, 14} && OpenCode(f.T(), f.R(), f.files, cwd, path, flags) == 0
    requires NotOpen(f.T(), f.files, Rest(path)) && |src| <= 8192
    requires
      var free := f.Free() + OpenFreed(f.T(), f.v.g.ClusterBytes(), Rest(path), flags);
      Provided(f.v.g, free, |OpenContent(f.T(), Rest(path), flags)|, |src|)
    modifies f`files, f.v
    ensures f.Held(h) && f.InUse(h) && wrote == |src| && out == src
    ensures f.At(h).pos == |src| && |f.At(h).content| == Max(|OpenContent(old(f.T()), Rest(path), flags)|, |src|)
  {
    h := OpenBoth(f, cwd, path, flags);
    wrote, out := WriteAndRead(f, h, src);
  }
}
