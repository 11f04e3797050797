/** fs/vfs.c: open files as handles on the FAT volume. */
module Vfs {
  import opened Bytes
  import opened Disk
  import opened Fat
  import opened Directory
  import opened Names
  import opened WellFormed
  import opened Tree
  import opened FileSystem
  import opened Namespace
  import opened Files
  import opened Growing
  import opened Appending
  import opened Runs

  const VFS_MAX_OPEN_FILES := 16
  const VFS_MAX_PATH := 64
  const VFS_ERR_INVALID := -1
  const VFS_ERR_NOT_FOUND := -2
  const VFS_ERR_NO_SPACE := -3
  const VFS_ERR_IO := -4
  const VFS_ERR_UNSUPPORTED := -5

  const SEEK_SET := 0
  const SEEK_CUR := 1
  const SEEK_END := 2

  const USER_ERR_INVAL: u32 := 1
  const USER_ERR_NOT_FOUND: u32 := 2
  const USER_ERR_NO_SPACE: u32 := 3
  const USER_ERR_IO: u32 := 4
  const USER_ERR_UNSUPPORTED: u32 := 5
  const USER_ERR_BADF: u32 := 6

  /** user_error. */
  function UserError(err: u32): u32 {
    Wrap32(0xFFFF_FFFF - (err - 1))
  }

  /** user_error_from_vfs. */
  function UserResult(ret: int): u32 {
    if ret >= 0 then Wrap32(ret)
    else if ret == VFS_ERR_INVALID then UserError(USER_ERR_INVAL)
    else if ret == VFS_ERR_NOT_FOUND then UserError(USER_ERR_NOT_FOUND)
    else if ret == VFS_ERR_NO_SPACE then UserError(USER_ERR_NO_SPACE)
    else if ret == VFS_ERR_UNSUPPORTED then UserError(USER_ERR_UNSUPPORTED)
    else UserError(USER_ERR_IO)
  }

  /** What a program gets for the errors; everything from 0xFFFF_FF00 on is one. */
  lemma UserCodes(ret: int)
    requires -5 <= ret < 0x8000_0000
    ensures ret >= 0 ==> UserResult(ret) == ret
    ensures ret < 0 ==>
      UserResult(ret) == if ret == -1 then 0xFFFF_FFFF else if ret == -2 then 0xFFFF_FFFE else if ret == -3 then 0xFFFF_FFFD
                         else if ret == -4 then 0xFFFF_FFFC else 0xFFFF_FFFB
  {
  }

  // ---- flags ----

  predicate Creating(flags: nat) { flags / 4 % 2 == 1 }
  predicate Truncating(flags: nat) { flags / 8 % 2 == 1 }
  predicate AppendMode(flags: nat) { flags / 16 % 2 == 1 }

  /** vfs_flags_valid: a known access mode, and truncating or appending only for writers, never both. */
  predicate FlagsValid(flags: nat) {
    && flags < 32 && flags % 4 != 3
    && !(Truncating(flags) && AppendMode(flags))
    && (Truncating(flags) || AppendMode(flags) ==> flags % 4 != 0)
  }

  predicate Readable(flags: nat) { flags == 0 || flags / 2 % 2 == 1 }
  predicate Writable(flags: nat) { flags % 2 == 1 || flags / 2 % 2 == 1 }

  /** A file opened for reading only can be read if and only if creating it was not asked for. */
  lemma ReadOnlyReadable(flags: nat)
    requires FlagsValid(flags) && flags % 4 == 0
    ensures Readable(flags) <==> !Creating(flags)
    ensures !Writable(flags)
  {
  }

  /** The flags as user/ programs put them together: an access mode (0 to read, 1 to write, 2 for both), 4 to create, 8 to
      truncate, 16 to append. */
  lemma FlagBits(mode: nat, create: bool, truncate: bool, append: bool)
    requires mode < 4
    ensures
      var flags := mode + (if create then 4 else 0) + (if truncate then 8 else 0) + (if append then 16 else 0);
      && (FlagsValid(flags) <==> mode != 3 && !(truncate && append) && (mode == 0 ==> !truncate && !append))
      && (Creating(flags) <==> create) && (Truncating(flags) <==> truncate) && (AppendMode(flags) <==> append)
      && (Writable(flags) <==> mode != 0) && (mode == 1 ==> !Readable(flags)) && (mode == 2 ==> Readable(flags))
  {
  }

  /** There are no other valid flags. */
  lemma FlagsComposed(flags: nat)
    requires FlagsValid(flags)
    ensures flags == flags % 4 + (if Creating(flags) then 4 else 0) + (if Truncating(flags) then 8 else 0) + (if AppendMode(flags) then 16 else 0)
  {
  }

  // ---- paths ----

  function SkipDotSlash(path: Text, i: nat): (j: nat)
    requires i <= |path|
    ensures i <= j <= |path|
    decreases |path| - i
  {
    if i + 1 < |path| && path[i] == DOT && path[i + 1] == SLASH then SkipDotSlash(path, i + 2) else i
  }

  /** What is left of a path relative to the root. */
  function Rest(path: Text): Text
    requires path != []
  {
    if path[0] == SLASH then path[1..] else path[SkipDotSlash(path, 0)..]
  }

  predicate PathOk(cwd: Text, path: Text) {
    && cwd == [SLASH] && path != [] && Rest(path) != [] && Rest(path) != [DOT]
    && !(|Rest(path)| >= 2 && Rest(path)[0] == DOT && Rest(path)[1] == DOT)
    && Rest(path)[|Rest(path)| - 1] != SLASH && |Rest(path)| < VFS_MAX_PATH
  }

  /** A path of the volume: no dot in front, no slash at the end. */
  predicate Plain(p: Text) {
    p != [] && p[0] != 0x2E && p[|p| - 1] != 0x2F
  }

  /** "./", k times. */
  function DotSlashes(k: nat): (r: Text)
    ensures |r| == 2 * k
  {
    if k == 0 then [] else [0x2E, 0x2F] + DotSlashes(k - 1)
  }

  lemma {:induction false} SkipsDotSlashes(path: Text, i: nat, k: nat, p: Text)
    requires i <= |path| && path[i..] == DotSlashes(k) + p && p != [] && p[0] != 0x2E
    ensures SkipDotSlash(path, i) == |path| - |p|
    decreases k
  {
    assert |path| == i + 2 * k + |p|;
    if k == 0 {
      assert path[i] == path[i..][0] == p[0];
    } else {
      assert path[i] == path[i..][0] == 0x2E && path[i + 1] == path[i..][1] == 0x2F;
      assert path[i + 2..] == path[i..][2..] == DotSlashes(k - 1) + p;
      SkipsDotSlashes(path, i + 2, k - 1, p);
    }
  }

  /** In the root directory a plain path of up to 63 characters can be given behind a slash or, if it has none in front, behind
      any number of "./". */
  lemma PlainPath(p: Text, k: nat)
    requires Plain(p)
    ensures Rest([0x2F] + p) == p && (PathOk([0x2F], [0x2F] + p) <==> |p| < 64)
    ensures p[0] != 0x2F ==> Rest(DotSlashes(k) + p) == p && (PathOk([0x2F], DotSlashes(k) + p) <==> |p| < 64)
  {
    assert ([0x2F] + p)[1..] == p;
    if p[0] != 0x2F {
      var path := DotSlashes(k) + p;
      assert path[0..] == path && path[0] == if k == 0 then p[0] else 0x2E;
      SkipsDotSlashes(path, 0, k, p);
      assert path[2 * k..] == p;
    }
  }

  /** Refused are other working directories, paths that start with ".." and paths that end in a slash. */
  lemma RefusedPath(cwd: Text, path: Text, p: Text)
    ensures cwd != [0x2F] || path == [] || path[|path| - 1] == 0x2F || path == [0x2E, 0x2E] + p ==> !PathOk(cwd, path)
  {
  }

  /** Where the copying of resolve_simple_path starts. */
  method SkipPrefix(path: Text) returns (i: nat)
    requires path != []
    ensures i <= |path| && Rest(path) == path[i..]
  {
    if path[0] == SLASH {
      i := 1;
    } else {
      i := 0;
      while i + 1 < |path| && path[i] == DOT && path[i + 1] == SLASH
        invariant i <= |path| && SkipDotSlash(path, 0) == SkipDotSlash(path, i)
      {
        i := i + 2;
      }
    }
  }

  /** The copying loop of resolve_simple_path. */
  method CopyPath(path: Text, start: nat) returns (ok: bool, out: Text)
    requires start < |path|
    ensures ok <==> path[|path| - 1] != SLASH && |path| - start < VFS_MAX_PATH
    ensures ok ==> out == path[start..]
  {
    out := [];
    var i := start;
    while i < |path|
      invariant start <= i <= |path| && out == path[start..i] && i - start < VFS_MAX_PATH
      invariant i == |path| ==> path[|path| - 1] != SLASH
    {
      if path[i] == SLASH && i + 1 == |path| {
        return false, out;
      }
      if |out| >= VFS_MAX_PATH - 1 {
        return false, out;
      }
      out := out + [path[i]];
      i := i + 1;
    }
    ok := true;
  }

  /** resolve_simple_path. */
  method ResolveSimplePath(cwd: Text, path: Text) returns (ok: bool, out: Text)
    ensures ok <==> PathOk(cwd, path)
    ensures ok ==> out == Rest(path)
  {
    ok, out := false, [];
    if cwd == [SLASH] && path != [] {
      var i := SkipPrefix(path);
      if i < |path| && !(path[i] == DOT && (i + 1 == |path| || path[i + 1] == DOT)) {
        ok, out := CopyPath(path, i);
      }
    }
  }

  // ---- open files ----

  /** vfs_file_t. */
  datatype OpenFile = OpenFile(used: bool, name: Text, size: u32, offset: u32, first: u16, flags: nat, readable: bool, writable: bool)

  /** What an open file is to its user: a content, a position, and what may be done. */
  datatype Stream = Stream(content: seq<byte>, pos: nat, append: bool, readable: bool, writable: bool)

  /** The file a path names. */
  ghost predicate IsFile(t: Tree, path: Text) {
    Locate(t, path).Parent? && t[Locate(t, path).d][Locate(t, path).leaf].File?
  }

  ghost function ContentOf(t: Tree, path: Text): seq<byte> {
    if IsFile(t, path) then t[Locate(t, path).d][Locate(t, path).leaf].content else []
  }

  /** The open file names a file and knows its size. */
  ghost predicate Synced(t: Tree, f: OpenFile) {
    IsFile(t, f.name) && f.size == |ContentOf(t, f.name)|
  }

  /** Handle h is in step with the volume, and no other handle is open on its file. */
  ghost predicate Sole(t: Tree, files: seq<OpenFile>, h: int) {
    && 0 <= h < |files| && files[h].used && Synced(t, files[h])
    && forall g :: 0 <= g < |files| && g != h && files[g].used ==> Locate(t, files[g].name) != Locate(t, files[h].name)
  }

  ghost function StreamOf(t: Tree, f: OpenFile): Stream {
    Stream(ContentOf(t, f.name), f.offset, AppendMode(f.flags), f.readable, f.writable)
  }

  /** The stream behind handle h becomes s; the others stay, and who was alone on a file still is. */
  ghost predicate Steps(t: Tree, files: seq<OpenFile>, t': Tree, files': seq<OpenFile>, h: nat, s: Stream) {
    && |files'| == |files| && h < |files| && files'[h].used && StreamOf(t', files'[h]) == s
    && (forall g :: 0 <= g < |files| && g != h ==> files'[g].used == files[g].used)
    && (forall g :: 0 <= g < |files| && g != h && files[g].used ==> StreamOf(t', files'[g]) == StreamOf(t, files[g]))
    && (forall g :: Sole(t, files, g) ==> Sole(t', files', g))
  }

  /** A file that appears or gets a new content is what its own paths show; every other path shows what it did. */
  lemma PathPut(t: Tree, d: nat, n: Name, c: seq<byte>, path: Text)
    requires d in t && (n in t[d] ==> t[d][n].File?)
    ensures
      var t' := Put(t, d, n, File(c));
      if Resolve(t, path) == Parent(d, n) then Locate(t', path) == Parent(d, n) && IsFile(t', path) && ContentOf(t', path) == c
      else SamePath(t, t', path)
  {
    ResolvePut(t, d, n, c, path);
  }

  /** The path names the same thing with the same content, or nothing in both trees. */
  ghost predicate SamePath(t: Tree, t': Tree, path: Text) {
    && (Locate(t', path).Parent? <==> Locate(t, path).Parent?)
    && (Locate(t, path).Parent? ==> Locate(t', path) == Locate(t, path))
    && (IsFile(t', path) <==> IsFile(t, path)) && ContentOf(t', path) == ContentOf(t, path)
  }

  /** Only paths of handle h's file show something new. */
  ghost predicate Elsewhere(t: Tree, files: seq<OpenFile>, t': Tree, h: nat, f: OpenFile) {
    && h < |files| && f.used && Locate(t', f.name).Parent?
    && forall g :: 0 <= g < |files| && g != h && files[g].used ==>
         SamePath(t, t', files[g].name) && Locate(t', files[g].name) != Locate(t', f.name)
  }

  lemma OtherSole(t: Tree, files: seq<OpenFile>, t': Tree, h: nat, f: OpenFile, g: int)
    requires Elsewhere(t, files, t', h, f) && Sole(t, files, g) && g != h
    ensures Sole(t', files[h := f], g)
  {
    var files' := files[h := f];
    forall k | 0 <= k < |files| && k != g && files'[k].used ensures Locate(t', files'[k].name) != Locate(t', files'[g].name) {
    }
  }

  /** Then the other handles see nothing of it. */
  lemma OthersStay(t: Tree, files: seq<OpenFile>, t': Tree, h: nat, f: OpenFile)
    requires Elsewhere(t, files, t', h, f) && Synced(t', f)
    ensures Sole(t', files[h := f], h) && Steps(t, files, t', files[h := f], h, StreamOf(t', f))
  {
    var files' := files[h := f];
    assert Sole(t', files', h);
    forall g | Sole(t, files, g) ensures Sole(t', files', g) {
      if g != h {
        OtherSole(t, files, t', h, f, g);
      }
    }
  }

  /** The file behind handle h gets content c; the handle is brought in step. */
  lemma OneChanged(t: Tree, files: seq<OpenFile>, h: nat, c: seq<byte>, f: OpenFile)
    requires Sole(t, files, h) && f.used && f.name == files[h].name && f.size == |c|
    ensures
      var at := Locate(t, files[h].name);
      var t' := Put(t, at.d, at.leaf, File(c));
      && Sole(t', files[h := f], h)
      && Steps(t, files, t', files[h := f], h, Stream(c, f.offset, AppendMode(f.flags), f.readable, f.writable))
  {
    var at := Locate(t, files[h].name);
    var t' := Put(t, at.d, at.leaf, File(c));
    PathPut(t, at.d, at.leaf, c, f.name);
    forall g | 0 <= g < |files| && g != h && files[g].used
      ensures SamePath(t, t', files[g].name) && Locate(t', files[g].name) != Locate(t', f.name)
    {
      PathPut(t, at.d, at.leaf, c, files[g].name);
    }
    OthersStay(t, files, t', h, f);
  }

  /** The handle changes, its file and what it knows about it do not. */
  lemma SameContent(t: Tree, files: seq<OpenFile>, h: nat, f: OpenFile)
    requires Sole(t, files, h) && f.used && f.name == files[h].name && f.size == files[h].size
    ensures Sole(t, files[h := f], h) && Steps(t, files, t, files[h := f], h, StreamOf(t, f))
  {
    OthersStay(t, files, t, h, f);
  }

  /** fat_stat_file. */
  method FatStatFile(v: Volume, path: Text) returns (found: bool, size: u32, first: u16, isDir: bool)
    requires Valid(v)
    ensures found <==> Locate(TreeAt(v.img, v.layout), path).Parent?
    ensures found ==> (isDir <==> !IsFile(TreeAt(v.img, v.layout), path))
    ensures found && !isDir ==> size == |ContentOf(TreeAt(v.img, v.layout), path)|
  {
    size, first, isDir := 0, 0, false;
    var code, lba, idx, n83, e, buff, s := LocateEntry(v, path);
    found := code == FAT_OK;
    if found {
      size, first, isDir := e.size, e.first, e.IsDir();
      if !isDir {
        FileSizeInTree(v.img, v.layout, s);
      }
    } else {
      LocateFails(TreeAt(v.img, v.layout), path);
    }
  }

  method ReadNamed(v: Volume, path: Text, offset: u32, len: u32, ghost t: Tree) returns (ok: bool, dst: seq<byte>)
    requires v.Mounted() && FoldedVolume(v.img, v.layout) && t == TreeAt(v.img, v.layout) && IsFile(t, path)
    ensures ok && dst == Slice(ContentOf(t, path), offset, len)
  {
    UnfoldVolume(v.img, v.layout);
    ok, dst := FatReadFileAt(v, path, offset, len);
  }

  /** The volume takes the write: inside the file or at its end, within the size limit, with enough free clusters. */
  predicate Fits(size: nat, at: nat, len: nat, free: nat, clusterBytes: nat)
    requires clusterBytes > 0
  {
    len == 0 || (at <= size && at + len <= MAX_FILE_BYTES && Extra(size, at + len, clusterBytes) <= free)
  }

  /** The clusters such a write takes. */
  function Taken(size: nat, at: nat, len: nat, clusterBytes: nat): nat
    requires clusterBytes > 0
  {
    if len == 0 then 0 else Extra(size, at + len, clusterBytes)
  }

  /** The clusters a write asks for; none if it fails before it counts them. */
  function Wanted(size: nat, at: nat, len: nat, clusterBytes: nat): nat
    requires clusterBytes > 0
  {
    if len == 0 || at > size || at + len > MAX_FILE_BYTES then 0 else Extra(size, at + len, clusterBytes)
  }

  /** A content after src was written at a place in it. */
  function Written(c: seq<byte>, at: nat, src: seq<byte>): seq<byte> {
    if src == [] || at > |c| then c else Splice(c, at, src)
  }

  /** The tree after a write to the file of a path; an empty write changes nothing. */
  ghost function TreeWritten(t: Tree, path: Text, at: nat, src: seq<byte>): Tree
    requires IsFile(t, path)
  {
    var where := Locate(t, path);
    if src == [] then t else Put(t, where.d, where.leaf, File(Written(ContentOf(t, path), at, src)))
  }

  lemma TakesWanted(t: Tree, g: Geometry, path: Text, at: nat, len: nat)
    requires g.Ok() && IsFile(t, path)
    ensures WriteAtTakes(t, g, path, at, len) == Wanted(|ContentOf(t, path)|, at, len, g.ClusterBytes())
    ensures AppendTakes(t, g, path, len) == Wanted(|ContentOf(t, path)|, |ContentOf(t, path)|, len, g.ClusterBytes())
  {
  }

  lemma WriteAtMeans(t: Tree, free: nat, g: Geometry, path: Text, offset: nat, src: seq<byte>, code: int, t': Tree, free': nat)
    requires g.Ok() && IsFile(t, path) && WritesAt(t, free, g, path, offset, src, code, t', free')
    ensures code == FAT_OK <==> Fits(|ContentOf(t, path)|, offset, |src|, free, g.ClusterBytes())
    ensures code == FAT_OK ==> t' == TreeWritten(t, path, offset, src) && free' + Taken(|ContentOf(t, path)|, offset, |src|, g.ClusterBytes()) == free
  {
  }

  lemma AppendMeans(t: Tree, free: nat, g: Geometry, path: Text, src: seq<byte>, code: int, t': Tree, free': nat)
    requires g.Ok() && IsFile(t, path) && Appends(t, free, g, path, src, code, t', free')
    ensures code == FAT_OK <==> Fits(|ContentOf(t, path)|, |ContentOf(t, path)|, |src|, free, g.ClusterBytes())
    ensures code == FAT_OK ==>
      && t' == TreeWritten(t, path, |ContentOf(t, path)|, src)
      && free' + Taken(|ContentOf(t, path)|, |ContentOf(t, path)|, |src|, g.ClusterBytes()) == free
  {
    if src != [] {
      var d, n := Locate(t, path).d, Locate(t, path).leaf;
      AppendIsWriteAt(t, free, g, d, n, src, code, t', free');
    }
  }

  /** A write at a place in the file of a path did what it should, or nothing. */
  ghost predicate WriteDone(t: Tree, free: nat, g: Geometry, path: Text, at: nat, src: seq<byte>, code: int, t': Tree, free': nat)
    requires g.Ok() && IsFile(t, path)
  {
    && (code == FAT_OK <==> Fits(|ContentOf(t, path)|, at, |src|, free, g.ClusterBytes()))
    && t' == (if code == FAT_OK then TreeWritten(t, path, at, src) else t)
    && free' + (if code == FAT_OK then Taken(|ContentOf(t, path)|, at, |src|, g.ClusterBytes()) else 0) == free
  }

  method AppendNamed(v: Volume, path: Text, src: seq<byte>, ghost img: Image, ghost L: Layout) returns (code: int)
    requires v.Mounted() && v.img == img && v.layout == L && FoldedVolume(img, L) && IsFile(TreeAt(img, L), path) && |src| < U32_MOD
    requires v.g.Ok()
    requires
      var size := |ContentOf(TreeAt(img, L), path)|;
      Backs(v.g, FreeCount(img.fat), Wanted(size, size, |src|, v.g.ClusterBytes()))
    modifies v
    ensures v.Mounted() && FoldedVolume(v.img, v.layout)
    ensures WriteDone(TreeAt(img, L), FreeCount(img.fat), v.g, path, |ContentOf(TreeAt(img, L), path)|, src, code,
                      TreeAt(v.img, v.layout), FreeCount(v.img.fat))
  {
    TakesWanted(TreeAt(img, L), v.g, path, 0, |src|);
    ghost var end;
    code, end := AppendFolded(v, path, src, img, L);
    AppendMeans(TreeAt(img, L), FreeCount(img.fat), v.g, path, src, code, TreeAt(v.img, v.layout), FreeCount(v.img.fat));
  }

  method WriteAtNamed(v: Volume, path: Text, offset: u32, src: seq<byte>, ghost img: Image, ghost L: Layout) returns (code: int)
    requires v.Mounted() && v.img == img && v.layout == L && FoldedVolume(img, L) && IsFile(TreeAt(img, L), path) && |src| < U32_MOD
    requires v.g.Ok() && Backs(v.g, FreeCount(img.fat), Wanted(|ContentOf(TreeAt(img, L), path)|, offset, |src|, v.g.ClusterBytes()))
    modifies v
    ensures v.Mounted() && FoldedVolume(v.img, v.layout)
    ensures WriteDone(TreeAt(img, L), FreeCount(img.fat), v.g, path, offset, src, code, TreeAt(v.img, v.layout), FreeCount(v.img.fat))
  {
    TakesWanted(TreeAt(img, L), v.g, path, offset, |src|);
    ghost var end;
    code, end := WriteAtFolded(v, path, offset, src, img, L);
    WriteAtMeans(TreeAt(img, L), FreeCount(img.fat), v.g, path, offset, src, code, TreeAt(v.img, v.layout), FreeCount(v.img.fat));
  }

  method StatNamed(v: Volume, path: Text, ghost t: Tree) returns (found: bool, size: u32, first: u16, isDir: bool)
    requires v.Mounted() && FoldedVolume(v.img, v.layout) && t == TreeAt(v.img, v.layout)
    ensures found <==> Locate(t, path).Parent?
    ensures found ==> (isDir <==> !IsFile(t, path)) && (!isDir ==> size == |ContentOf(t, path)|)
  {
    UnfoldVolume(v.img, v.layout);
    found, size, first, isDir := FatStatFile(v, path);
  }

  /** The stream of handle h after src was written at a place of its file. */
  lemma WriteStep(t: Tree, files: seq<OpenFile>, h: nat, at: nat, src: seq<byte>, f: OpenFile)
    requires Sole(t, files, h) && f.used && f.name == files[h].name && IsFile(t, f.name)
    requires f.size == |Written(ContentOf(t, f.name), at, src)|
    ensures
      var t' := TreeWritten(t, f.name, at, src);
      && Sole(t', files[h := f], h)
      && Steps(t, files, t', files[h := f], h,
               Stream(Written(ContentOf(t, f.name), at, src), f.offset, AppendMode(f.flags), f.readable, f.writable))
  {
    if src == [] {
      SameContent(t, files, h, f);
    } else {
      OneChanged(t, files, h, Written(ContentOf(t, f.name), at, src), f);
    }
  }

  lemma WrittenThere(t: Tree, path: Text, at: nat, src: seq<byte>)
    requires IsFile(t, path)
    ensures
      var t' := TreeWritten(t, path, at, src);
      IsFile(t', path) && ContentOf(t', path) == Written(ContentOf(t, path), at, src)
  {
    if src != [] {
      var where := Locate(t, path);
      PathPut(t, where.d, where.leaf, Written(ContentOf(t, path), at, src), path);
    }
  }

  /** A path that names nothing can be given a file: its directory is there, its name is valid, and there is a slot. */
  ghost predicate CanMake(t: Tree, room: map<nat, nat>, path: Text) {
    Resolve(t, path).Parent? && !Full(room, Resolve(t, path).d)
  }

  /** fat_create_file gives a path that named nothing a new, empty file. */
  method CreateNamed(v: Volume, path: Text, ghost img: Image, ghost L: Layout) returns (code: int)
    requires v.Mounted() && v.img == img && v.layout == L && FoldedVolume(img, L) && !Locate(TreeAt(img, L), path).Parent?
    modifies v
    ensures v.Mounted() && FoldedVolume(v.img, v.layout)
    ensures
      var t, t', where := TreeAt(img, L), TreeAt(v.img, v.layout), Resolve(TreeAt(img, L), path);
      if code == FAT_OK then where.Parent? && where.d in t && where.leaf !in t[where.d] && t' == Put(t, where.d, where.leaf, File([]))
      else t' == t
    ensures code == FAT_OK <==> CanMake(TreeAt(img, L), Rooms(img, L), path)
    ensures Rooms(v.img, v.layout) == if code == FAT_OK then Less(Rooms(img, L), Resolve(TreeAt(img, L), path).d) else Rooms(img, L)
    ensures FreeCount(v.img.fat) == FreeCount(img.fat)
  {
    UnfoldVolume(img, L);
    code := FatCreateFile(v, path);
    LocateFails(TreeAt(img, L), path);
  }

  /** fat_write_file with no bytes does not fail on a file. */
  method TruncateNamed(v: Volume, path: Text, ghost img: Image, ghost L: Layout) returns (code: int)
    requires v.Mounted() && v.img == img && v.layout == L && FoldedVolume(img, L) && IsFile(TreeAt(img, L), path)
    modifies v
    ensures v.Mounted() && FoldedVolume(v.img, v.layout) && code == FAT_OK
    ensures
      var t, where := TreeAt(img, L), Locate(TreeAt(img, L), path);
      TreeAt(v.img, v.layout) == Put(t, where.d, where.leaf, File([]))
    ensures Rooms(v.img, v.layout) == Rooms(img, L) && v.g.Ok()
    ensures FreeCount(v.img.fat) == FreeCount(img.fat) + CeilDiv(|ContentOf(TreeAt(img, L), path)|, v.g.ClusterBytes())
  {
    UnfoldVolume(img, L);
    CeilDivZero(0, v.g.ClusterBytes());
    ghost var release;
    code, release := FatWriteFile(v, path, []);
  }

  /** A path that has just been given a file. */
  lemma NewFile(t: Tree, path: Text)
    requires Resolve(t, path).Parent? && Resolve(t, path).d in t && Resolve(t, path).leaf !in t[Resolve(t, path).d]
    ensures
      var where := Resolve(t, path);
      var t' := Put(t, where.d, where.leaf, File([]));
      IsFile(t', path) && Locate(t', path) == where && ContentOf(t', path) == []
  {
    var where := Resolve(t, path);
    PathPut(t, where.d, where.leaf, [], path);
  }

  /** The tree once the file of a path has been opened: created when it was missing, emptied when truncating. */
  ghost function OpenTree(t: Tree, path: Text, flags: nat): Tree {
    var where := Resolve(t, path);
    if where.Parent? && where.d in t && (!Locate(t, path).Parent? || Truncating(flags)) then Put(t, where.d, where.leaf, File([])) else t
  }

  /** The slots left once the file of a path has been opened. */
  ghost function OpenRoom(t: Tree, room: map<nat, nat>, path: Text): map<nat, nat> {
    if Resolve(t, path).Parent? && !Locate(t, path).Parent? then Less(room, Resolve(t, path).d) else room
  }

  /** The clusters given back when the file of a path is opened: those of a file that is truncated. */
  ghost function OpenFreed(t: Tree, clusterBytes: nat, path: Text, flags: nat): nat {
    if clusterBytes > 0 && Truncating(flags) then CeilDiv(|ContentOf(t, path)|, clusterBytes) else 0
  }

  /** What opening a file finds or makes. */
  ghost predicate Obtained(t: Tree, path: Text, flags: nat, t': Tree, size: nat) {
    && t' == OpenTree(t, path, flags) && IsFile(t', path) && Locate(t', path) == Resolve(t, path) && size == |ContentOf(t', path)|
    && ContentOf(t', path) == (if IsFile(t, path) && !Truncating(flags) then ContentOf(t, path) else [])
  }

  lemma PutTwice(t: Tree, d: nat, n: Name, node: Node)
    requires d in t
    ensures Put(Put(t, d, n, node), d, n, node) == Put(t, d, n, node)
  {
    var dm: map<Name, Node> := t[d][n := node];
    assert dm[n := node] == dm;
  }

  /** The truncating part of vfs_open_at. */
  method Empty(v: Volume, path: Text, ghost img: Image, ghost L: Layout) returns (code: int, size: u32, first: u16)
    requires v.Mounted() && v.img == img && v.layout == L && FoldedVolume(img, L) && IsFile(TreeAt(img, L), path)
    modifies v
    ensures v.Mounted() && FoldedVolume(v.img, v.layout) && code == 0 && size == 0 && Rooms(v.img, v.layout) == Rooms(img, L)
    ensures v.g.Ok() && FreeCount(v.img.fat) == FreeCount(img.fat) + CeilDiv(|ContentOf(TreeAt(img, L), path)|, v.g.ClusterBytes())
    ensures
      var t, where := TreeAt(img, L), Locate(TreeAt(img, L), path);
      && TreeAt(v.img, v.layout) == Put(t, where.d, where.leaf, File([]))
      && IsFile(TreeAt(v.img, v.layout), path) && Locate(TreeAt(v.img, v.layout), path) == where && ContentOf(TreeAt(v.img, v.layout), path) == []
  {
    ghost var t, where := TreeAt(img, L), Locate(TreeAt(img, L), path);
    var ret := TruncateNamed(v, path, img, L);
    PathPut(t, where.d, where.leaf, [], path);
    var found, isDir;
    found, size, first, isDir := StatNamed(v, path, TreeAt(v.img, v.layout));
    code := 0;
  }

  /** The part of vfs_open_at that is about a file that exists. */
  method ObtainOld(v: Volume, path: Text, flags: nat, size0: u32, first0: u16, ghost img: Image, ghost L: Layout)
    returns (code: int, size: u32, first: u16)
    requires v.Mounted() && v.img == img && v.layout == L && FoldedVolume(img, L) && IsFile(TreeAt(img, L), path)
    requires size0 == |ContentOf(TreeAt(img, L), path)|
    modifies v
    ensures v.Mounted() && FoldedVolume(v.img, v.layout) && code == 0 && Rooms(v.img, v.layout) == Rooms(img, L)
    ensures FreeCount(v.img.fat) == FreeCount(img.fat) + OpenFreed(TreeAt(img, L), v.g.ClusterBytes(), path, flags)
    ensures Obtained(TreeAt(img, L), path, flags, TreeAt(v.img, v.layout), size)
  {
    code, size, first := 0, size0, first0;
    if Truncating(flags) {
      code, size, first := Empty(v, path, img, L);
    }
  }

  lemma CreatedOpen(t: Tree, path: Text, flags: nat, t1: Tree, t2: Tree, size: nat)
    requires !Locate(t, path).Parent? && Resolve(t, path).Parent? && Resolve(t, path).d in t && Resolve(t, path).leaf !in t[Resolve(t, path).d]
    requires t1 == Put(t, Resolve(t, path).d, Resolve(t, path).leaf, File([])) && Obtained(t1, path, flags, t2, size)
    ensures Obtained(t, path, flags, t2, size)
  {
    var where := Resolve(t, path);
    NewFile(t, path);
    PutTwice(t, where.d, where.leaf, File([]));
  }

  /** The part of vfs_open_at that is about a file that is missing. */
  method ObtainNew(v: Volume, path: Text, flags: nat, ghost img: Image, ghost L: Layout) returns (code: int, size: u32, first: u16)
    requires v.Mounted() && v.img == img && v.layout == L && FoldedVolume(img, L) && !Locate(TreeAt(img, L), path).Parent?
    modifies v
    ensures v.Mounted() && FoldedVolume(v.img, v.layout)
    ensures code == (if !Creating(flags) then VFS_ERR_NOT_FOUND else if CanMake(TreeAt(img, L), Rooms(img, L), path) then 0 else VFS_ERR_INVALID)
    ensures if code == 0 then Obtained(TreeAt(img, L), path, flags, TreeAt(v.img, v.layout), size) else TreeAt(v.img, v.layout) == TreeAt(img, L)
    ensures Rooms(v.img, v.layout) == if code == 0 then OpenRoom(TreeAt(img, L), Rooms(img, L), path) else Rooms(img, L)
    ensures FreeCount(v.img.fat) == FreeCount(img.fat)
  {
    size, first := 0, 0;
    if !Creating(flags) {
      code := VFS_ERR_NOT_FOUND;
    } else {
      var ret := CreateNamed(v, path, img, L);
      if ret != FAT_OK {
        code := VFS_ERR_INVALID;
      } else {
        ghost var t1 := TreeAt(v.img, v.layout);
        NewFile(TreeAt(img, L), path);
        var found, isDir;
        found, size, first, isDir := StatNamed(v, path, t1);
        code, size, first := ObtainOld(v, path, flags, size, first, v.img, v.layout);
        CreatedOpen(TreeAt(img, L), path, flags, t1, TreeAt(v.img, v.layout), size);
      }
    }
  }

  /** What vfs_open_at returns for a path once it has a handle, 0 for success. */
  ghost function ObtainCode(t: Tree, room: map<nat, nat>, path: Text, flags: nat): int {
    if IsFile(t, path) then 0
    else if Locate(t, path).Parent? then VFS_ERR_UNSUPPORTED
    else if !Creating(flags) then VFS_ERR_NOT_FOUND
    else if CanMake(t, room, path) then 0
    else VFS_ERR_INVALID
  }

  /** vfs_open_at between the handle search and the handle: the file is there, or there is an error and no change. */
  method Obtain(v: Volume, path: Text, flags: nat, ghost img: Image, ghost L: Layout) returns (code: int, size: u32, first: u16)
    requires v.Mounted() && v.img == img && v.layout == L && FoldedVolume(img, L)
    modifies v
    ensures v.Mounted() && FoldedVolume(v.img, v.layout) && code == ObtainCode(TreeAt(img, L), Rooms(img, L), path, flags)
    ensures if code == 0 then Obtained(TreeAt(img, L), path, flags, TreeAt(v.img, v.layout), size) else TreeAt(v.img, v.layout) == TreeAt(img, L)
    ensures Rooms(v.img, v.layout) == if code == 0 then OpenRoom(TreeAt(img, L), Rooms(img, L), path) else Rooms(img, L)
    ensures FreeCount(v.img.fat) == FreeCount(img.fat) + if code == 0 then OpenFreed(TreeAt(img, L), v.g.ClusterBytes(), path, flags) else 0
  {
    var found, isDir;
    found, size, first, isDir := StatNamed(v, path, TreeAt(img, L));
    if !found {
      code, size, first := ObtainNew(v, path, flags, img, L);
    } else if isDir {
      code := VFS_ERR_UNSUPPORTED;
    } else {
      code, size, first := ObtainOld(v, path, flags, size, first, img, L);
    }
  }

  /** No open file has the name this path stands for. */
  ghost predicate NotOpen(t: Tree, files: seq<OpenFile>, path: Text) {
    forall g :: 0 <= g < |files| && files[g].used ==> Resolve(t, files[g].name) != Resolve(t, path)
  }

  /** A file that nobody has open is opened in a free slot. */
  lemma OpenStep(t: Tree, files: seq<OpenFile>, path: Text, flags: nat, t': Tree, h: nat, f: OpenFile)
    requires h < |files| && !files[h].used && NotOpen(t, files, path) && Obtained(t, path, flags, t', f.size)
    requires f.used && f.name == path && (Locate(t, path).Parent? ==> IsFile(t, path))
    ensures Sole(t', files[h := f], h) && Steps(t, files, t', files[h := f], h, StreamOf(t', f))
  {
    var where := Resolve(t, path);
    forall g | 0 <= g < |files| && g != h && files[g].used
      ensures SamePath(t, t', files[g].name) && Locate(t', files[g].name) != Locate(t', f.name)
    {
      if where.d in t {
        PathPut(t, where.d, where.leaf, [], files[g].name);
      }
    }
    OthersStay(t, files, t', h, f);
  }

  /** The place a write goes to. */
  ghost function Place(s: Stream): nat {
    if s.append then |s.content| else s.pos
  }

  /** The disk has the clusters the write asks for, or there are too few free slots for it anyway. */
  ghost predicate HasClusters(g: Geometry, free: nat, s: Stream, src: seq<byte>)
    requires g.Ok()
  {
    Backs(g, free, Wanted(|s.content|, Place(s), |src|, g.ClusterBytes()))
  }

  /** The stream after a write that fits. */
  ghost function AfterWrite(s: Stream, src: seq<byte>): Stream {
    var c := Written(s.content, Place(s), src);
    s.(content := c, pos := if s.append then |c| else s.pos + |src|)
  }

  /** Where a seek is counted from. */
  ghost function SeekBase(s: Stream, whence: int): nat {
    if whence == SEEK_SET then 0 else if whence == SEEK_CUR then s.pos else |s.content|
  }

  lemma PosInRange(s: Stream, src: seq<byte>, size: u32, offset: u32, free: nat, clusterBytes: nat)
    requires clusterBytes > 0 && size == |s.content| && offset == s.pos && Fits(|s.content|, Place(s), |src|, free, clusterBytes)
    ensures AfterWrite(s, src).pos < U32_MOD
  {
  }

  ghost predicate HandleLeft(files: seq<OpenFile>) {
    exists h :: 0 <= h < |files| && !files[h].used
  }

  /** The errors of vfs_open_at, 0 for success. */
  ghost function OpenCode(t: Tree, room: map<nat, nat>, files: seq<OpenFile>, cwd: Text, path: Text, flags: nat): int {
    if !FlagsValid(flags) || !PathOk(cwd, path) then VFS_ERR_INVALID
    else if !HandleLeft(files) then VFS_ERR_NO_SPACE
    else ObtainCode(t, room, Rest(path), flags)
  }

  class OpenFiles {
    const v: Volume
    var files: seq<OpenFile>

    ghost function T(): Tree
      reads v
    {
      TreeAt(v.img, v.layout)
    }

    /** The slots left in the directories. */
    ghost function R(): map<nat, nat>
      reads v
    {
      Rooms(v.img, v.layout)
    }

    ghost function Free(): nat
      reads v
    {
      FreeCount(v.img.fat)
    }

    /** The volume is well formed. */
    ghost predicate Sane()
      reads this, v
    {
      v.Mounted() && FoldedVolume(v.img, v.layout) && |files| == VFS_MAX_OPEN_FILES
    }

    /** And handle h, if it is in use, has its file to itself. */
    ghost predicate Held(h: int)
      reads this, v
    {
      Sane() && (InUse(h) ==> Sole(T(), files, h))
    }

    /** vfs_init. */
    constructor (v: Volume)
      requires Valid(v)
      ensures this.v == v && Sane() && |files| == 16 && forall h :: 0 <= h < |files| ==> !files[h].used
    {
      this.v := v;
      files := seq(VFS_MAX_OPEN_FILES, _ => OpenFile(false, [], 0, 0, 0, 0, false, false));
    }

    /** The stream of a handle. */
    ghost function At(h: nat): Stream
      requires h < |files|
      reads this, v
    {
      StreamOf(T(), files[h])
    }

    /** vfs_read of a readable handle. */
    method ReadHandle(h: nat, len: u32) returns (ret: int, dst: seq<byte>)
      requires Held(h) && InUse(h)
      modifies this`files
      ensures Held(h) && dst == Slice(old(At(h)).content, old(At(h)).pos, len) && ret == |dst|
      ensures Steps(T(), old(files), T(), files, h, old(At(h)).(pos := old(At(h)).pos + |dst|))
    {
      ghost var t := T();
      var f := files[h];
      dst := [];
      if f.offset < f.size {
        var ok;
        ok, dst := ReadNamed(v, f.name, f.offset, len, t);
      }
      SetOffset(h, f.offset + |dst|);
      ret := |dst|;
    }

    /** An operation may be tried on this handle. */
    predicate InUse(h: int)
      reads this
    {
      0 <= h < |files| && files[h].used
    }

    /** vfs_read: up to len bytes from the position on, which moves behind them. */
    method Read(h: int, len: u32) returns (ret: int, dst: seq<byte>)
      requires Held(h)
      modifies this`files
      ensures Held(h)
      ensures old(InUse(h) && At(h).readable) ==>
        var s := old(At(h));
        dst == Slice(s.content, s.pos, len) && ret == |dst| && Steps(T(), old(files), T(), files, h, s.(pos := s.pos + |dst|))
      ensures !old(InUse(h) && At(h).readable) ==> ret == VFS_ERR_INVALID && dst == [] && files == old(files)
    {
      if h < 0 || h >= VFS_MAX_OPEN_FILES || !files[h].used || !files[h].readable {
        ret, dst := VFS_ERR_INVALID, [];
      } else {
        ret, dst := ReadHandle(h, len);
      }
    }

    /** The fat_append_file or fat_write_file_at of vfs_write. */
    method WriteData(f: OpenFile, src: seq<byte>, ghost img: Image, ghost L: Layout) returns (code: int)
      requires v.Mounted() && v.img == img && v.layout == L && FoldedVolume(img, L) && IsFile(TreeAt(img, L), f.name)
      requires |src| < U32_MOD && v.g.Ok() && HasClusters(v.g, FreeCount(img.fat), StreamOf(TreeAt(img, L), f), src)
      modifies v
      ensures v.Mounted() && FoldedVolume(v.img, v.layout)
      ensures WriteDone(TreeAt(img, L), FreeCount(img.fat), v.g, f.name, Place(StreamOf(TreeAt(img, L), f)), src, code, T(), FreeCount(v.img.fat))
    {
      if AppendMode(f.flags) {
        code := AppendNamed(v, f.name, src, img, L);
      } else {
        code := WriteAtNamed(v, f.name, f.offset, src, img, L);
      }
    }

    /** The end of vfs_write: the handle is brought in step with the file. */
    method Refresh(h: nat, src: seq<byte>, ghost t: Tree)
      requires v.Mounted() && FoldedVolume(v.img, v.layout) && |files| == VFS_MAX_OPEN_FILES && h < |files|
      requires Sole(t, files, h)
      requires T() == TreeWritten(t, files[h].name, Place(StreamOf(t, files[h])), src)
      requires AfterWrite(StreamOf(t, files[h]), src).pos < U32_MOD
      modifies this`files
      ensures Held(h) && Steps(t, old(files), T(), files, h, AfterWrite(StreamOf(t, old(files)[h]), src))
    {
      var f := files[h];
      ghost var at := Place(StreamOf(t, f));
      WrittenThere(t, f.name, at, src);
      var found, size, first, isDir := StatNamed(v, f.name, T());
      f := f.(size := size, first := first);
      f := f.(offset := if AppendMode(f.flags) then f.size else f.offset + |src|);
      WriteStep(t, files, h, at, src, f);
      files := files[h := f];
    }

    method WriteHandle(h: nat, src: seq<byte>) returns (ret: int)
      requires Held(h) && InUse(h) && |src| < U32_MOD && v.g.Ok() && HasClusters(v.g, FreeCount(v.img.fat), At(h), src)
      modifies this`files, v
      ensures Held(h)
      ensures
        var s := old(At(h));
        if Fits(|s.content|, Place(s), |src|, old(FreeCount(v.img.fat)), v.g.ClusterBytes())
        then ret == |src| && Steps(old(T()), old(files), T(), files, h, AfterWrite(s, src))
          && FreeCount(v.img.fat) + Taken(|s.content|, Place(s), |src|, v.g.ClusterBytes()) == old(FreeCount(v.img.fat))
        else ret == VFS_ERR_IO && T() == old(T()) && files == old(files) && FreeCount(v.img.fat) == old(FreeCount(v.img.fat))
    {
      ghost var t := T();
      var code := WriteData(files[h], src, v.img, v.layout);
      if code != FAT_OK {
        ret := VFS_ERR_IO;
      } else {
        PosInRange(StreamOf(t, files[h]), src, files[h].size, files[h].offset, old(FreeCount(v.img.fat)), v.g.ClusterBytes());
        Refresh(h, src, t);
        ret := |src|;
      }
    }

    /** vfs_write: all of src or nothing; a write that fails changes neither content nor position. */
    method Write(h: int, src: seq<byte>) returns (ret: int)
      requires Held(h) && |src| < U32_MOD && v.g.Ok()
      requires InUse(h) && At(h).writable ==> HasClusters(v.g, FreeCount(v.img.fat), At(h), src)
      modifies this`files, v
      ensures Held(h)
      ensures !old(InUse(h) && At(h).writable) ==> ret == VFS_ERR_INVALID && T() == old(T()) && files == old(files) && FreeCount(v.img.fat) == old(FreeCount(v.img.fat))
      ensures old(InUse(h) && At(h).writable) ==>
        var s := old(At(h));
        if Fits(|s.content|, Place(s), |src|, old(FreeCount(v.img.fat)), v.g.ClusterBytes())
        then ret == |src| && Steps(old(T()), old(files), T(), files, h, AfterWrite(s, src))
          && FreeCount(v.img.fat) + Taken(|s.content|, Place(s), |src|, v.g.ClusterBytes()) == old(FreeCount(v.img.fat))
        else ret == VFS_ERR_IO && T() == old(T()) && files == old(files) && FreeCount(v.img.fat) == old(FreeCount(v.img.fat))
    {
      if h < 0 || h >= VFS_MAX_OPEN_FILES || !files[h].used || !files[h].writable {
        ret := VFS_ERR_INVALID;
      } else {
        ret := WriteHandle(h, src);
      }
    }

    /** The end of vfs_lseek: the 32-bit sum must not wrap. */
    method MoveTo(h: nat, base: u32, offset: u32) returns (ret: int)
      requires Held(h) && InUse(h)
      modifies this`files
      ensures Held(h)
      ensures if base + offset < U32_MOD then ret == AsInt(base + offset) && Steps(T(), old(files), T(), files, h, old(At(h)).(pos := base + offset))
              else ret == VFS_ERR_INVALID && files == old(files)
    {
      var ok, at := CheckedSum(base, offset);
      if ok {
        SetOffset(h, at);
        ret := AsInt(at);
      } else {
        ret := VFS_ERR_INVALID;
      }
    }

    method SetOffset(h: nat, offset: u32)
      requires Held(h) && InUse(h)
      modifies this`files
      ensures Held(h) && Steps(T(), old(files), T(), files, h, old(At(h)).(pos := offset))
    {
      SameContent(T(), files, h, files[h].(offset := offset));
      files := files[h := files[h].(offset := offset)];
    }

    method ChooseBase(h: nat, whence: int) returns (base: u32)
      requires Held(h) && InUse(h) && SEEK_SET <= whence <= SEEK_END
      ensures base == SeekBase(At(h), whence)
    {
      base := if whence == SEEK_SET then 0 else if whence == SEEK_CUR then files[h].offset else files[h].size;
    }

    /** vfs_lseek: a position behind the end is allowed; it is returned as an int. */
    method Lseek(h: int, offset: u32, whence: int) returns (ret: int)
      requires Held(h)
      modifies this`files
      ensures Held(h)
      ensures old(InUse(h)) && SEEK_SET <= whence <= SEEK_END ==>
        var at := SeekBase(old(At(h)), whence) + offset;
        if at < U32_MOD then ret == AsInt(at) && Steps(T(), old(files), T(), files, h, old(At(h)).(pos := at)) else ret == VFS_ERR_INVALID && files == old(files)
      ensures !(old(InUse(h)) && SEEK_SET <= whence <= SEEK_END) ==> ret == VFS_ERR_INVALID && files == old(files)
    {
      if h < 0 || h >= VFS_MAX_OPEN_FILES || !files[h].used || whence < SEEK_SET || whence > SEEK_END {
        ret := VFS_ERR_INVALID;
      } else {
        var base := ChooseBase(h, whence);
        ret := MoveTo(h, base, offset);
      }
    }

    /** vfs_close: the handle is free, the others stay. */
    method Close(h: int) returns (ret: int)
      requires Sane()
      modifies this`files
      ensures Sane() && forall g :: g != h && old(Sole(T(), files, g)) ==> Sole(T(), files, g)
      ensures if 0 <= h < VFS_MAX_OPEN_FILES then ret == 0 && files == old(files)[h := old(files)[h].(used := false)]
              else ret == VFS_ERR_INVALID && files == old(files)
    {
      if 0 <= h < VFS_MAX_OPEN_FILES {
        files := files[h := files[h].(used := false)];
        ret := 0;
      } else {
        ret := VFS_ERR_INVALID;
      }
    }

    /** find_free_handle. */
    method FindFree() returns (h: int)
      requires |files| == VFS_MAX_OPEN_FILES
      ensures -1 <= h < VFS_MAX_OPEN_FILES
      ensures if h < 0 then forall g :: 0 <= g < |files| ==> files[g].used
              else !files[h].used && forall g :: 0 <= g < h ==> files[g].used
    {
      for i := 0 to VFS_MAX_OPEN_FILES
        invariant forall g :: 0 <= g < i ==> files[g].used
      {
        if !files[i].used {
          return i;
        }
      }
      return -1;
    }

    /** vfs_open_at from the handle on. */
    method OpenNamed(h: nat, name: Text, flags: nat) returns (ret: int)
      requires Sane() && h < |files| && !files[h].used
      modifies this`files, v
      ensures Sane()
      ensures if ret < 0 then T() == old(T()) && files == old(files) else ret == h && files[h].used && files == old(files)[h := files[h]]
      ensures
        var code := ObtainCode(old(T()), old(R()), name, flags);
        && ret == (if code == 0 then h else code) && R() == (if code == 0 then OpenRoom(old(T()), old(R()), name) else old(R()))
        && Free() == old(Free()) + if code == 0 then OpenFreed(old(T()), v.g.ClusterBytes(), name, flags) else 0
      ensures ret >= 0 ==>
        && Obtained(old(T()), name, flags, T(), files[h].size)
        && StreamOf(T(), files[h]) == Stream(ContentOf(T(), name), if AppendMode(flags) then |ContentOf(T(), name)| else 0,
                                             AppendMode(flags), Readable(flags), Writable(flags))
      ensures ret >= 0 && NotOpen(old(T()), old(files), name) ==>
        Sole(T(), files, h) && Steps(old(T()), old(files), T(), files, h, StreamOf(T(), files[h]))
    {
      ghost var t := T();
      var code, size, first := Obtain(v, name, flags, v.img, v.layout);
      if code < 0 {
        ret := code;
      } else {
        var f := OpenFile(true, name, size, if AppendMode(flags) then size else 0, first, flags, Readable(flags), Writable(flags));
        if NotOpen(t, files, name) {
          OpenStep(t, files, name, flags, T(), h, f);
        }
        files := files[h := f];
        ret := h;
      }
    }

    /** vfs_open_at: the first free handle. */
    method OpenAt(cwd: Text, path: Text, flags: nat) returns (ret: int)
      requires Sane()
      modifies this`files, v
      ensures Sane()
      ensures ret < 0 ==> T() == old(T()) && files == old(files)
      ensures ret >= 0 ==>
        && ret < VFS_MAX_OPEN_FILES && FlagsValid(flags) && PathOk(cwd, path) && !old(files)[ret].used && files[ret].used
        && files == old(files)[ret := files[ret]] && (forall g :: 0 <= g < ret ==> old(files)[g].used)
        && Obtained(old(T()), Rest(path), flags, T(), files[ret].size)
        && StreamOf(T(), files[ret]) == Stream(ContentOf(T(), Rest(path)), if AppendMode(flags) then |ContentOf(T(), Rest(path))| else 0,
                                               AppendMode(flags), Readable(flags), Writable(flags))
      ensures ret >= 0 && NotOpen(old(T()), old(files), Rest(path)) ==>
        Sole(T(), files, ret) && Steps(old(T()), old(files), T(), files, ret, StreamOf(T(), files[ret]))
      ensures
        var code := OpenCode(old(T()), old(R()), old(files), cwd, path, flags);
        if code == 0
        then ret >= 0 && R() == OpenRoom(old(T()), old(R()), Rest(path)) && Free() == old(Free()) + OpenFreed(old(T()), v.g.ClusterBytes(), Rest(path), flags)
        else ret == code && R() == old(R()) && Free() == old(Free())
    {
      if !FlagsValid(flags) {
        ret := VFS_ERR_INVALID;
      } else {
        var ok, name := ResolveSimplePath(cwd, path);
        if !ok {
          ret := VFS_ERR_INVALID;
        } else {
          var h := FindFree();
          if h < 0 {
            ret := VFS_ERR_NO_SPACE;
          } else {
            ret := OpenNamed(h, name, flags);
          }
        }
      }
    }
  }

  // ---- using one handle ----

  datatype FileOp = ReadOp(len: u32) | WriteOp(src: seq<byte>) | SeekOp(offset: u32, whence: int)

  predicate Callable(op: FileOp) {
    op.WriteOp? ==> |op.src| < U32_MOD
  }

  /** What an operation does to an abstract file on a volume with `free` free clusters. */
  ghost predicate FileStep(s: Stream, free: nat, op: FileOp, clusterBytes: nat, s': Stream, free': nat, ret: int, out: seq<byte>)
    requires clusterBytes > 0
  {
    match op
    case ReadOp(len) =>
      && free' == free
      && if s.readable then out == Slice(s.content, s.pos, len) && ret == |out| && s' == s.(pos := s.pos + |out|)
         else ret == VFS_ERR_INVALID && s' == s
    case WriteOp(src) =>
      if !s.writable then ret == VFS_ERR_INVALID && s' == s && free' == free
      else if Fits(|s.content|, Place(s), |src|, free, clusterBytes)
      then ret == |src| && s' == AfterWrite(s, src) && free' + Taken(|s.content|, Place(s), |src|, clusterBytes) == free
      else ret == VFS_ERR_IO && s' == s && free' == free
    case SeekOp(offset, whence) =>
      && free' == free
      && if SEEK_SET <= whence <= SEEK_END && SeekBase(s, whence) + offset < U32_MOD
         then ret == AsInt(SeekBase(s, whence) + offset) && s' == s.(pos := SeekBase(s, whence) + offset)
         else ret == VFS_ERR_INVALID && s' == s
  }

  /** A seek reports an error exactly when it did not move, if and only if the position it asks for is not one that an int
      shows as negative. */
  lemma SeekReports(s: Stream, free: nat, offset: u32, whence: int, clusterBytes: nat, s': Stream, ret: int)
    requires clusterBytes > 0 && SEEK_SET <= whence <= SEEK_END && s.pos < U32_MOD
    requires FileStep(s, free, SeekOp(offset, whence), clusterBytes, s', free, ret, [])
    ensures
      var at := SeekBase(s, whence) + offset;
      (ret < 0 <==> s'.pos != at) <==> !(0x8000_0000 <= at < U32_MOD)
  {
  }

  /** A seek by 2^31 from the start moves and is reported as an I/O error; one by 2^32 - 1 moves and is reported as a refused
      seek is. */
  lemma SeekMisreported(s: Stream, free: nat, clusterBytes: nat, s1: Stream, ret1: int, s2: Stream, ret2: int)
    requires clusterBytes > 0
    requires FileStep(s, free, SeekOp(0x8000_0000, SEEK_SET), clusterBytes, s1, free, ret1, [])
    requires FileStep(s, free, SeekOp(0xFFFF_FFFF, SEEK_SET), clusterBytes, s2, free, ret2, [])
    ensures s1.pos == 0x8000_0000 && UserResult(ret1) == UserError(USER_ERR_IO)
    ensures s2.pos == 0xFFFF_FFFF && ret2 == VFS_ERR_INVALID && UserResult(ret2) == UserError(USER_ERR_INVAL)
  {
  }

  lemma NothingSteps(t: Tree, files: seq<OpenFile>, h: nat)
    requires h < |files| && files[h].used
    ensures Steps(t, files, t, files, h, StreamOf(t, files[h]))
  {
  }

  lemma StepsThrough(t: Tree, files: seq<OpenFile>, t1: Tree, files1: seq<OpenFile>, t2: Tree, files2: seq<OpenFile>, h: nat, s1: Stream, s2: Stream)
    requires Steps(t, files, t1, files1, h, s1) && Steps(t1, files1, t2, files2, h, s2)
    ensures Steps(t, files, t2, files2, h, s2)
  {
  }

  method UseRead(f: OpenFiles, h: nat, len: u32) returns (ret: int, out: seq<byte>)
    requires f.Held(h) && f.InUse(h) && f.v.g.Ok()
    modifies f`files
    ensures f.Held(h) && f.InUse(h) && Steps(f.T(), old(f.files), f.T(), f.files, h, f.At(h))
    ensures FileStep(old(f.At(h)), FreeCount(f.v.img.fat), ReadOp(len), f.v.g.ClusterBytes(), f.At(h), FreeCount(f.v.img.fat), ret, out)
  {
    NothingSteps(f.T(), f.files, h);
    ret, out := f.Read(h, len);
  }

  method UseWrite(f: OpenFiles, h: nat, src: seq<byte>) returns (ret: int)
    requires f.Held(h) && f.InUse(h) && |src| < U32_MOD && f.v.g.Ok() && HasClusters(f.v.g, FreeCount(f.v.img.fat), f.At(h), src)
    modifies f`files, f.v
    ensures f.Held(h) && f.InUse(h) && Steps(old(f.T()), old(f.files), f.T(), f.files, h, f.At(h))
    ensures FileStep(old(f.At(h)), old(FreeCount(f.v.img.fat)), WriteOp(src), f.v.g.ClusterBytes(), f.At(h), FreeCount(f.v.img.fat), ret, [])
  {
    NothingSteps(f.T(), f.files, h);
    ret := f.Write(h, src);
  }

  lemma SeekStep(s: Stream, free: nat, offset: u32, whence: int, clusterBytes: nat, s': Stream, ret: int)
    requires clusterBytes > 0
    requires if SEEK_SET <= whence <= SEEK_END && SeekBase(s, whence) + offset < U32_MOD
             then ret == AsInt(SeekBase(s, whence) + offset) && s' == s.(pos := SeekBase(s, whence) + offset)
             else ret == VFS_ERR_INVALID && s' == s
    ensures FileStep(s, free, SeekOp(offset, whence), clusterBytes, s', free, ret, [])
  {
  }

  method UseSeek(f: OpenFiles, h: nat, offset: u32, whence: int) returns (ret: int)
    requires f.Held(h) && f.InUse(h) && f.v.g.Ok()
    modifies f`files
    ensures f.Held(h) && f.InUse(h) && Steps(f.T(), old(f.files), f.T(), f.files, h, f.At(h))
    ensures FileStep(old(f.At(h)), FreeCount(f.v.img.fat), SeekOp(offset, whence), f.v.g.ClusterBytes(), f.At(h), FreeCount(f.v.img.fat), ret, [])
  {
    NothingSteps(f.T(), f.files, h);
    ghost var s := f.At(h);
    ret := f.Lseek(h, offset, whence);
    SeekStep(s, FreeCount(f.v.img.fat), offset, whence, f.v.g.ClusterBytes(), f.At(h), ret);
  }

  ghost predicate OpServed(g: Geometry, free: nat, s: Stream, op: FileOp)
    requires g.Ok()
  {
    op.WriteOp? ==> HasClusters(g, free, s, op.src)
  }

  /** One operation on a handle that has its file to itself. */
  method Use(f: OpenFiles, h: nat, op: FileOp) returns (ret: int, out: seq<byte>)
    requires f.Held(h) && f.InUse(h) && Callable(op) && f.v.g.Ok() && OpServed(f.v.g, FreeCount(f.v.img.fat), f.At(h), op)
    modifies f`files, f.v
    ensures f.Held(h) && f.InUse(h) && Steps(old(f.T()), old(f.files), f.T(), f.files, h, f.At(h))
    ensures FileStep(old(f.At(h)), old(FreeCount(f.v.img.fat)), op, f.v.g.ClusterBytes(), f.At(h), FreeCount(f.v.img.fat), ret, out)
  {
    out := [];
    match op {
      case ReadOp(len) =>
        ret, out := UseRead(f, h, len);
      case WriteOp(src) =>
        ret := UseWrite(f, h, src);
      case SeekOp(offset, whence) =>
        ret := UseSeek(f, h, offset, whence);
    }
  }

  /** A run of an abstract file: its states and the free clusters beside it, step by step. */
  ghost predicate FileRun(ops: seq<FileOp>, clusterBytes: nat, streams: seq<Stream>, frees: seq<nat>, rets: seq<int>, outs: seq<seq<byte>>, k: nat)
    requires clusterBytes > 0
  {
    && k == |rets| == |outs| <= |ops| && |streams| == |frees| == k + 1
    && forall i :: 0 <= i < k ==> FileStep(streams[i], frees[i], ops[i], clusterBytes, streams[i + 1], frees[i + 1], rets[i], outs[i])
  }

  lemma FileRunMore(ops: seq<FileOp>, clusterBytes: nat, streams: seq<Stream>, frees: seq<nat>, rets: seq<int>, outs: seq<seq<byte>>, k: nat,
                    s: Stream, free: nat, ret: int, out: seq<byte>)
    requires clusterBytes > 0 && k < |ops| && FileRun(ops, clusterBytes, streams, frees, rets, outs, k)
    requires FileStep(streams[k], frees[k], ops[k], clusterBytes, s, free, ret, out)
    ensures FileRun(ops, clusterBytes, streams + [s], frees + [free], rets + [ret], outs + [out], k + 1)
  {
    var streams', frees', rets', outs' := streams + [s], frees + [free], rets + [ret], outs + [out];
    forall i | 0 <= i < k + 1
      ensures FileStep(streams'[i], frees'[i], ops[i], clusterBytes, streams'[i + 1], frees'[i + 1], rets'[i], outs'[i])
    {
      if i < k {
        assert FileStep(streams[i], frees[i], ops[i], clusterBytes, streams[i + 1], frees[i + 1], rets[i], outs[i]);
      }
    }
  }

  /** What a run from a tree and handles has led to after k operations. */
  ghost predicate RunSoFar(ops: seq<FileOp>, clusterBytes: nat, streams: seq<Stream>, frees: seq<nat>, rets: seq<int>, outs: seq<seq<byte>>, k: nat,
                           t: Tree, files: seq<OpenFile>, t': Tree, files': seq<OpenFile>, h: nat, free': nat)
    requires clusterBytes > 0
  {
    && FileRun(ops, clusterBytes, streams, frees, rets, outs, k) && h < |files| && h < |files'|
    && streams[0] == StreamOf(t, files[h]) && streams[k] == StreamOf(t', files'[h]) && frees[k] == free'
    && Steps(t, files, t', files', h, streams[k])
  }

  lemma RunMore(ops: seq<FileOp>, clusterBytes: nat, streams: seq<Stream>, frees: seq<nat>, rets: seq<int>, outs: seq<seq<byte>>, k: nat,
                t: Tree, files: seq<OpenFile>, t1: Tree, files1: seq<OpenFile>, h: nat, free1: nat,
                t2: Tree, files2: seq<OpenFile>, free2: nat, ret: int, out: seq<byte>)
    requires clusterBytes > 0 && k < |ops| && h < |files2|
    requires RunSoFar(ops, clusterBytes, streams, frees, rets, outs, k, t, files, t1, files1, h, free1)
    requires Steps(t1, files1, t2, files2, h, StreamOf(t2, files2[h]))
    requires FileStep(StreamOf(t1, files1[h]), free1, ops[k], clusterBytes, StreamOf(t2, files2[h]), free2, ret, out)
    ensures RunSoFar(ops, clusterBytes, streams + [StreamOf(t2, files2[h])], frees + [free2], rets + [ret], outs + [out], k + 1,
                     t, files, t2, files2, h, free2) && (streams + [StreamOf(t2, files2[h])])[0] == streams[0] && (frees + [free2])[0] == frees[0]
  {
    FileRunMore(ops, clusterBytes, streams, frees, rets, outs, k, StreamOf(t2, files2[h]), free2, ret, out);
    StepsThrough(t, files, t1, files1, t2, files2, h, streams[k], StreamOf(t2, files2[h]));
  }

  /** Nothing the operations lead to, one after the other, asks for a slot without sectors. */
  ghost predicate OpsServed(g: Geometry, ops: seq<FileOp>, s: Stream, free: nat)
    requires g.Ok()
  {
    forall streams, frees, rets, outs, k ::
      0 <= k < |ops| && FileRun(ops, g.ClusterBytes(), streams, frees, rets, outs, k) && streams[0] == s && frees[0] == free ==>
        OpServed(g, frees[k], streams[k], ops[k])
  }

  /** Over any sequence of operations a handle that has its file to itself is an abstract file, whoever holds the other
      handles and whatever they are open on; those see nothing of it. */
  method UseAll(f: OpenFiles, h: nat, ops: seq<FileOp>)
    returns (rets: seq<int>, outs: seq<seq<byte>>, ghost streams: seq<Stream>, ghost frees: seq<nat>)
    requires f.Held(h) && f.InUse(h) && f.v.g.Ok() && forall i :: 0 <= i < |ops| ==> Callable(ops[i])
    requires OpsServed(f.v.g, ops, f.At(h), FreeCount(f.v.img.fat))
    modifies f`files, f.v
    ensures f.Held(h) && f.InUse(h) && FileRun(ops, f.v.g.ClusterBytes(), streams, frees, rets, outs, |ops|)
    ensures streams[0] == old(f.At(h)) && streams[|ops|] == f.At(h)
    ensures frees[0] == old(FreeCount(f.v.img.fat)) && frees[|ops|] == FreeCount(f.v.img.fat)
    ensures Steps(old(f.T()), old(f.files), f.T(), f.files, h, f.At(h))
  {
    ghost var t, files, free, bytes := f.T(), f.files, FreeCount(f.v.img.fat), f.v.g.ClusterBytes();
    rets, outs, streams, frees := [], [], [f.At(h)], [free];
    NothingSteps(t, files, h);
    var i := 0;
    while i < |ops|
      invariant 0 <= i <= |ops| && f.Held(h) && f.InUse(h) && |frees| > 0 && frees[0] == free
      invariant RunSoFar(ops, bytes, streams, frees, rets, outs, i, t, files, f.T(), f.files, h, FreeCount(f.v.img.fat))
    {
      ghost var t1, files1, free1 := f.T(), f.files, FreeCount(f.v.img.fat);
      assert OpServed(f.v.g, frees[i], streams[i], ops[i]);
      var ret, out := Use(f, h, ops[i]);
      RunMore(ops, bytes, streams, frees, rets, outs, i, t, files, t1, files1, h, free1, f.T(), f.files, FreeCount(f.v.img.fat), ret, out);
      rets, outs, streams, frees := rets + [ret], outs + [out], streams + [f.At(h)], frees + [FreeCount(f.v.img.fat)];
      i := i + 1;
    }
  }
}
