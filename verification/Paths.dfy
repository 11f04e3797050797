/** What paths name: the walk of resolve_parent_dir said by the last component of a path, and what the operations that make,
    remove and rename entries do to the paths a user can read. */
module Paths {
  import opened Bytes
  import opened Disk
  import opened Fat
  import opened Directory
  import opened Names
  import opened WellFormed
  import opened Tree
  import opened FileSystem
  import opened Namespace
  import opened Subdirs
  import opened Files
  import opened Runs

  // ---- resolution by the last component ----

  /** A name in the directory a path stands for. */
  ghost function Into(t: Tree, at: Resolved, n: Text): Resolved {
    match at
    case Failed(c) => Failed(c)
    case Parent(d, m) =>
      if !Valid83(n) then Failed(FAT_ERR_INVALID)
      else if d !in t || m !in t[d] then Failed(FAT_ERR_NOT_FOUND)
      else match t[d][m]
        case File(_) => Failed(FAT_ERR_INVALID)
        case Dir(id) => Parent(id, To83(n))
  }

  lemma {:induction false} DescendChild(t: Tree, d: nat, comps: seq<Text>, n: Text)
    requires comps != []
    ensures Descend(t, d, comps + [n]) == Into(t, Descend(t, d, comps), n)
    decreases |comps|
  {
    if |comps| == 1 {
      assert (comps + [n])[1..] == [n];
    } else {
      assert (comps + [n])[1..] == comps[1..] + [n];
      if d in t && To83(comps[0]) in t[d] && t[d][To83(comps[0])].Dir? {
        DescendChild(t, t[d][To83(comps[0])].id, comps[1..], n);
      }
    }
  }

  /** A name alone is looked up in the root directory. */
  lemma ResolveName(t: Tree, n: Text)
    requires NoSlash(n) && n != []
    ensures Resolve(t, n) == if Valid83(n) then Parent(0, To83(n)) else Failed(FAT_ERR_INVALID)
  {
    OneComponent(n);
  }

  /** A name behind a path and a slash is looked up in the directory the path names, and behind slashes alone in the root. */
  lemma ResolveChild(t: Tree, p: Text, n: Text)
    requires NoSlash(n) && n != []
    ensures Resolve(t, p + [SLASH] + n) == if OnlySlashes(p) then Resolve(t, n) else Into(t, Resolve(t, p), n)
  {
    ComponentsChild(p, n);
    NoComponents(p, 0);
    assert p[0..] == p;
    OneComponent(n);
    var comps := Components(p, 0);
    if comps == [] {
      assert comps + [n] == [n];
    } else {
      assert (comps + [n])[0] == comps[0];
      DescendChild(t, 0, comps, n);
    }
  }

  /** A slash at the end makes no difference, and slashes alone name nothing. */
  lemma ResolveSlash(t: Tree, p: Text)
    ensures Resolve(t, p + [SLASH]) == Resolve(t, p) && (OnlySlashes(p) ==> Resolve(t, p) == Failed(FAT_ERR_INVALID))
  {
    ComponentsSlash(p);
    NoComponents(p, 0);
    assert p[0..] == p;
  }

  /** Every path is of one of these forms, so that together they say what each one names. */
  lemma {:induction false} PathForms(path: Text) returns (p: Text, n: Text)
    ensures NoSlash(n) && (path == n || path == p + [SLASH] + n)
    decreases |path|
  {
    p, n := [], [];
    if path != [] {
      var last := |path| - 1;
      if path[last] == SLASH {
        p, n := path[..last], [];
      } else {
        p, n := PathForms(path[..last]);
        n := n + [path[last]];
        assert path == path[..last] + [path[last]];
      }
    }
  }

  /** In words: the name behind a path to a directory is an entry of that directory. */
  lemma InDirectory(t: Tree, p: Text, d: nat, m: Name, id: nat, n: Text)
    requires Locate(t, p) == Parent(d, m) && t[d][m] == Dir(id) && NoSlash(n) && n != [] && Valid83(n)
    ensures Resolve(t, p + [SLASH] + n) == Parent(id, To83(n))
  {
    ResolveChild(t, p, n);
    ResolveSlash(t, p);
  }

  // ---- a directory and a file in it ----

  /** The path of name n in directory p. */
  function Child(p: Text, n: Text): Text {
    p + [SLASH] + n
  }

  lemma ValidNoSlash(n: Text)
    requires Valid83(n)
    ensures n != [] && NoSlash(n)
  {
    forall i | 0 <= i < |n| ensures n[i] != SLASH {
      if i < DotAt(n) {
        assert IsNameChar(Base(n)[i]);
      } else if i > DotAt(n) {
        assert IsNameChar(Ext(n)[i - DotAt(n) - 1]);
      }
    }
  }

  /** After fat_mkdir its path names the new directory, and the names behind it are names in it. */
  lemma {:induction false} DescendMade(t: Tree, d: nat, n: Name, id: nat, x: nat, comps: seq<Text>)
    requires comps != [] && d in t && n !in t[d] && id !in t && Descend(t, x, comps).Parent?
    ensures Descend(Put(t, d, n, Dir(id))[id := map[]], x, comps) == Descend(t, x, comps)
    decreases |comps|
  {
    if |comps| > 1 {
      DescendMade(t, d, n, id, t[x][To83(comps[0])].id, comps[1..]);
    }
  }

  lemma MadeThere(t: Tree, p: Text, id: nat, n: Text)
    requires Resolve(t, p).Parent? && Valid83(n)
    requires var at := Resolve(t, p); at.d in t && at.leaf !in t[at.d] && id !in t
    ensures
      var at := Resolve(t, p);
      var t' := Put(t, at.d, at.leaf, Dir(id))[id := map[]];
      Resolve(t', p) == at && Resolve(t', Child(p, n)) == Parent(id, To83(n))
  {
    var at := Resolve(t, p);
    var t' := Put(t, at.d, at.leaf, Dir(id))[id := map[]];
    DescendMade(t, at.d, at.leaf, id, 0, Components(p, 0));
    ValidNoSlash(n);
    InDirectory(t', p, at.d, at.leaf, id, n);
  }

  lemma RoomInNew(g: Geometry, room: map<nat, nat>, d: nat, id: nat)
    requires g.Ok()
    ensures !Full(Less(room, d)[id := FreshRoom(g)], id)
  {
  }

  /** Directory d has gained directory m, which holds an empty file n and nothing else; the rest is as it was. */
  ghost predicate MadeWithin(t: Tree, t': Tree, d: nat, m: Name, id: nat, n: Name) {
    && d in t && m !in t[d] && id !in t && t'.Keys == t.Keys + {id}
    && (forall x :: x in t && x != d ==> t'[x] == t[x])
    && t'[d].Keys == t[d].Keys + {m} && t'[d][m] == Dir(id) && (forall k :: k in t[d] ==> t'[d][k] == t[d][k])
    && t'[id].Keys == {n} && t'[id][n] == File([])
  }

  lemma WithinNew(t: Tree, d: nat, m: Name, id: nat, n: Name)
    requires d in t && m !in t[d] && id !in t
    ensures MadeWithin(t, Put(Put(t, d, m, Dir(id))[id := map[]], id, n, File([])), d, m, id, n)
  {
  }

  /** fat_mkdir of p and fat_create_file of p/n: if the first works so does the second, and n is in the new directory alone. */
  method MakeAndCreate(v: Volume, p: Text, n: Text) returns (made: int, code: int, ghost id: nat)
    requires Valid(v) && v.g.Ok() && Backs(v.g, FreeCount(v.img.fat), 1) && Valid83(n)
    modifies v
    ensures Valid(v) && v.g.Ok()
    ensures
      var t, t', at := old(TreeAt(v.img, v.layout)), TreeAt(v.img, v.layout), Resolve(old(TreeAt(v.img, v.layout)), p);
      made == FAT_OK ==>
        code == FAT_OK && at.Parent? && MadeWithin(t, t', at.d, at.leaf, id, To83(n)) && Locate(t', Child(p, n)) == Parent(id, To83(n))
  {
    ghost var t, room := TreeAt(v.img, v.layout), Rooms(v.img, v.layout);
    made, id := FatMkdir(v, p);
    code := made;
    if made == FAT_OK {
      LocateFails(t, p);
      MadeThere(t, p, id, n);
      ghost var t1, room1 := TreeAt(v.img, v.layout), Rooms(v.img, v.layout);
      RoomInNew(v.g, room, Resolve(t, p).d, id);
      code := FatCreateFile(v, Child(p, n));
      ResolvePut(t1, id, To83(n), [], Child(p, n));
      WithinNew(t, Resolve(t, p).d, Resolve(t, p).leaf, id, To83(n));
    }
  }

  // ---- what is gone is gone ----

  /** A file that goes takes no path away but its own. */
  lemma {:induction false} DescendDrop(t: Tree, d: nat, n: Name, x: nat, comps: seq<Text>)
    requires comps != [] && d in t && n in t[d] && t[d][n].File?
    ensures
      var before, after := Descend(t, x, comps), Descend(Drop(t, d, n), x, comps);
      (before.Parent? <==> after.Parent?) && (before.Parent? ==> after == before)
    decreases |comps|
  {
    if |comps| > 1 && x in t && To83(comps[0]) in t[x] && t[x][To83(comps[0])].Dir? {
      DescendDrop(t, d, n, t[x][To83(comps[0])].id, comps[1..]);
    }
  }

  lemma ResolveDrop(t: Tree, d: nat, n: Name, path: Text)
    requires d in t && n in t[d] && t[d][n].File?
    ensures
      var before, after := Resolve(t, path), Resolve(Drop(t, d, n), path);
      (before.Parent? <==> after.Parent?) && (before.Parent? ==> after == before)
  {
    var comps := Components(path, 0);
    if comps != [] {
      DescendDrop(t, d, n, 0, comps);
    }
  }

  /** fat_delete_file followed by any read: the path names nothing, and every other path reads what it did. */
  lemma DeleteThenRead(t: Tree, free: nat, room: map<nat, nat>, g: Geometry, path: Text, t': Tree, free': nat, room': map<nat, nat>,
                       other: Text, offset: nat, len: nat)
    requires g.Ok() && Deletes(t, free, room, g, path, FAT_OK, t', free', room')
    ensures Locate(t', path) == Failed(FAT_ERR_NOT_FOUND)
    ensures Resolve(t, other) != Resolve(t, path) ==> ReadSpec(t', other, offset, len) == ReadSpec(t, other, offset, len)
  {
    LocateFails(t, path);
    var at := Locate(t, path);
    ResolveDrop(t, at.d, at.leaf, path);
    ResolveDrop(t, at.d, at.leaf, other);
  }

  /** A file that gets another name takes no path away but its own and gives none but its new one. */
  lemma ResolveRenamed(t: Tree, d: nat, n: Name, n': Name, path: Text)
    requires d in t && n in t[d] && t[d][n].File? && n' !in t[d]
    ensures
      var before, after := Resolve(t, path), Resolve(Put(Drop(t, d, n), d, n', t[d][n]), path);
      (before.Parent? <==> after.Parent?) && (before.Parent? ==> after == before)
  {
    ResolveDrop(t, d, n, path);
    ResolvePut(Drop(t, d, n), d, n', t[d][n].content, path);
  }

  lemma RenamedRead(t: Tree, d: nat, n: Name, n': Name, path: Text, offset: nat, len: nat)
    requires d in t && n in t[d] && t[d][n].File? && n' !in t[d]
    ensures
      var t' := Put(Drop(t, d, n), d, n', t[d][n]);
      ReadSpec(t', path, offset, len)
        == if Resolve(t, path) == Parent(d, n') then ReadResult(true, Slice(t[d][n].content, offset, len))
           else if Resolve(t, path) == Parent(d, n) then ReadResult(false, [])
           else ReadSpec(t, path, offset, len)
  {
    ResolveRenamed(t, d, n, n', path);
  }

  /** fat_rename_file followed by any read: the new path reads what the old one did, the old one names nothing, and every
      other path reads what it did. */
  lemma RenameThenRead(t: Tree, path: Text, newPath: Text, t': Tree, other: Text, offset: nat, len: nat)
    requires Renames(t, path, newPath, FAT_OK, t')
    ensures ReadSpec(t', newPath, offset, len) == ReadSpec(t, path, offset, len) && ReadSpec(t', newPath, offset, len).ok
    ensures Locate(t', path) == Failed(FAT_ERR_NOT_FOUND)
    ensures Resolve(t, other) != Resolve(t, path) && Resolve(t, other) != Resolve(t, newPath) ==>
      ReadSpec(t', other, offset, len) == ReadSpec(t, other, offset, len)
  {
    LocateFails(t, path);
    LocateFails(t, newPath);
    var at, to := Resolve(t, path), Resolve(t, newPath);
    ResolveRenamed(t, at.d, at.leaf, to.leaf, path);
    RenamedRead(t, at.d, at.leaf, to.leaf, newPath, offset, len);
    RenamedRead(t, at.d, at.leaf, to.leaf, other, offset, len);
  }
}
