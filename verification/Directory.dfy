/** Directory entries (32 bytes, sixteen to a sector) and the scans over a directory region. */
module Directory {
  import opened Bytes
  import opened Folding
  import opened Disk

  type Name = s: seq<byte> | |s| == 11 witness seq(11, _ => 0x20)
  type Reserved = s: seq<byte> | |s| == 14 witness seq(14, _ => 0)

  const DELETED: byte := 0xE5
  const ATTR_DIR: byte := 0x10
  const ATTR_FILE: byte := 0x20
  const DOT_NAME: Name := [DOT, SPACE, SPACE, SPACE, SPACE, SPACE, SPACE, SPACE, SPACE, SPACE, SPACE]
  const DOTDOT_NAME: Name := [DOT, DOT, SPACE, SPACE, SPACE, SPACE, SPACE, SPACE, SPACE, SPACE, SPACE]
  const NO_RESERVED: Reserved := [0, 0, 0, 0, 0, 0, 0, 0, 0, 0, 0, 0, 0, 0]

  datatype Entry = Entry(name: Name, attr: byte, reserved: Reserved, first: u16, size: u32)
  {
    predicate IsEnd() { name[0] == 0 }

    predicate IsDeleted() { name[0] == DELETED }

    /** Deleted, long-name, volume-label or hidden. */
    predicate IsSkippable() {
      IsDeleted() || attr == 0x0F || HasBit(attr, 0x08) || HasBit(attr, 0x02)
    }

    predicate IsDots() { name == DOT_NAME || name == DOTDOT_NAME }

    predicate IsDir() { HasBit(attr, ATTR_DIR) }

    predicate Visible() { !IsEnd() && !IsSkippable() }

    predicate Matches(n: Name) { Visible() && name == n }

    /** The entries that hold a file or a subdirectory of their own. */
    predicate Owns() { Visible() && !IsDots() }
  }

  function EntryAt(s: Sector, i: nat): Entry
    requires i < 16
  {
    Entry(s[32 * i..32 * i + 11], s[32 * i + 11], s[32 * i + 12..32 * i + 26], U16At(s, 32 * i + 26), U32At(s, 32 * i + 28))
  }

  function EntryBytes(e: Entry): (b: seq<byte>)
    ensures |b| == 32
  {
    e.name + [e.attr] + e.reserved + [e.first % 0x100, e.first / 0x100] + U32Bytes(e.size)
  }

  function PutEntry(s: Sector, i: nat, e: Entry): Sector
    requires i < 16
  {
    Patch(s, 32 * i, EntryBytes(e))
  }

  /** Slot `i` of `t` is `e` and the other fifteen are those of `s`. */
  ghost predicate OneEntry(s: Sector, t: Sector, i: nat, e: Entry) {
    i < 16 && forall k :: 0 <= k < 16 ==> EntryAt(t, k) == if k == i then e else EntryAt(s, k)
  }

  lemma EntryAtSame(s: Sector, t: Sector, k: nat)
    requires k < 16 && forall x :: 32 * k <= x < 32 * k + 32 ==> s[x] == t[x]
    ensures EntryAt(s, k) == EntryAt(t, k)
  {
    assert s[32 * k..32 * k + 11] == t[32 * k..32 * k + 11];
    assert s[32 * k + 12..32 * k + 26] == t[32 * k + 12..32 * k + 26];
  }

  lemma PutEntryAt(s: Sector, i: nat, e: Entry)
    requires i < 16
    ensures OneEntry(s, PutEntry(s, i, e), i, e)
  {
    var t, b := PutEntry(s, i, e), EntryBytes(e);
    assert forall x :: 0 <= x < 32 ==> t[32 * i + x] == b[x];
    assert t[32 * i..32 * i + 11] == e.name;
    assert t[32 * i + 12..32 * i + 26] == e.reserved;
    assert U32Bytes(e.size) == [t[32 * i + 28], t[32 * i + 29], t[32 * i + 30], t[32 * i + 31]];
    forall k | 0 <= k < 16 && k != i ensures EntryAt(t, k) == EntryAt(s, k) {
      EntryAtSame(s, t, k);
    }
  }

  /** Where the fields of an entry are. */
  lemma EntryRaw(s: Sector, i: nat)
    requires i < 16
    ensures
      var e, o := EntryAt(s, i), 32 * i;
      && e.name == s[o..o + 0x0B] && e.attr == s[o + 0x0B] && e.reserved == s[o + 0x0C..o + 0x1A]
      && e.first % 0x100 == s[o + 0x1A] && e.first / 0x100 == s[o + 0x1B] && e.size % 0x1_0000 == U16At(s, o + 0x1C) && e.size / 0x1_0000 == U16At(s, o + 0x1E)
  {
    LittleEndian(s, 32 * i + 28);
  }

  lemma Shifts(x: bv8)
    ensures (x >> 1) >> 1 == x >> 2 && (x >> 2) >> 1 == x >> 3 && (x >> 3) >> 1 == x >> 4
    ensures (x >> 1) & 1 == 1 <==> x & 0x02 != 0
    ensures (x >> 3) & 1 == 1 <==> x & 0x08 != 0
    ensures (x >> 4) & 1 == 1 <==> x & 0x10 != 0
  {
  }

  lemma Quarters(n: nat)
    ensures n / 2 / 2 / 2 == n / 8 && n / 2 / 2 / 2 / 2 == n / 16
  {
  }

  lemma BitMask(x: bv8, n: nat)
    requires n == x as int
    ensures (HasBit(n, 2) <==> x & 0x02 != 0) && (HasBit(n, 8) <==> x & 0x08 != 0) && (HasBit(n, 16) <==> x & 0x10 != 0)
  {
    Shifts(x);
    Halves(x);
    Halves(x >> 1);
    Halves(x >> 2);
    Halves(x >> 3);
    Halves(x >> 4);
    Quarters(n);
  }

  /** What the first byte of the name and the attribute byte of an entry say. */
  lemma EntryKinds(e: Entry, a: bv8)
    requires a as int == e.attr
    ensures e.Visible() <==> e.name[0] != 0x00 && e.name[0] != 0xE5 && a != 0x0F && a & 0x08 == 0 && a & 0x02 == 0
    ensures e.IsDir() <==> a & 0x10 != 0
    ensures e.IsDots() <==> e.name[0] == '.' as int && (e.name[1] == '.' as int || e.name[1] == ' ' as int) && forall k :: 2 <= k < 11 ==> e.name[k] == ' ' as int
  {
    BitMask(a, e.attr);
    assert e.name == DOT_NAME <==> e.name[0] == DOT && e.name[1] == SPACE && forall k :: 2 <= k < 11 ==> e.name[k] == SPACE;
    assert e.name == DOTDOT_NAME <==> e.name[0] == DOT && e.name[1] == DOT && forall k :: 2 <= k < 11 ==> e.name[k] == SPACE;
  }

  /** `e[i].size = size`. */
  function SetSize(s: Sector, i: nat, size: u32): Sector
    requires i < 16
  {
    Patch(s, 32 * i + 28, U32Bytes(size))
  }

  lemma SetSizeAt(s: Sector, i: nat, size: u32)
    requires i < 16
    ensures OneEntry(s, SetSize(s, i, size), i, EntryAt(s, i).(size := size))
  {
    var t := SetSize(s, i, size);
    assert t[32 * i..32 * i + 11] == s[32 * i..32 * i + 11];
    assert t[32 * i + 12..32 * i + 26] == s[32 * i + 12..32 * i + 26];
    assert U32Bytes(size) == [t[32 * i + 28], t[32 * i + 29], t[32 * i + 30], t[32 * i + 31]];
    forall k | 0 <= k < 16 && k != i ensures EntryAt(t, k) == EntryAt(s, k) {
      EntryAtSame(s, t, k);
    }
  }

  /** `memory_copy(name, e[i].name, |name|)`; a single byte 0xE5 marks the entry deleted. */
  function SetName(s: Sector, i: nat, name: seq<byte>): Sector
    requires i < 16 && |name| <= 11
  {
    Patch(s, 32 * i, name)
  }

  lemma SetNameAt(s: Sector, i: nat, name: seq<byte>)
    requires i < 16 && |name| <= 11
    ensures
      var e := EntryAt(s, i);
      OneEntry(s, SetName(s, i, name), i, e.(name := name + e.name[|name|..]))
  {
    var t := SetName(s, i, name);
    assert t[32 * i..32 * i + 11] == name + EntryAt(s, i).name[|name|..];
    assert t[32 * i + 12..32 * i + 26] == s[32 * i + 12..32 * i + 26];
    forall k | 0 <= k < 16 && k != i ensures EntryAt(t, k) == EntryAt(s, k) {
      EntryAtSame(s, t, k);
    }
  }

  /** The entries of a region, in scan order. */
  function DirOf(region: seq<Sector>): (es: seq<Entry>)
    ensures |es| == 16 * |region|
  {
    seq(16 * |region|, j requires 0 <= j < 16 * |region| => EntryAt(region[j / 16], j % 16))
  }

  lemma DirOfAt(region: seq<Sector>, k: nat, i: nat)
    requires k < |region| && i < 16
    ensures DirOf(region)[16 * k + i] == EntryAt(region[k], i)
  {
  }

  lemma DirOfUpdate(region: seq<Sector>, k: nat, i: nat, t: Sector, e: Entry)
    requires k < |region| && OneEntry(region[k], t, i, e)
    ensures DirOf(region[k := t]) == DirOf(region)[16 * k + i := e]
  {
    var es, es' := DirOf(region), DirOf(region[k := t]);
    forall j | 0 <= j < |es| ensures es'[j] == es[16 * k + i := e][j] {
      if j / 16 == k {
        assert EntryAt(t, j % 16) == if j % 16 == i then e else EntryAt(region[k], j % 16);
      }
    }
  }

  /** The sector and index of entry j of directory d. */
  ghost predicate Located(g: Geometry, lba: int, idx: int, d: nat, j: nat) {
    d < g.backed && j < 16 * g.RegionSize(d) && AtLba(g, lba, d, j / 16) && idx == j % 16
  }

  lemma LocatedIn(g: Geometry, lba: int, d: nat, k: nat, i: nat)
    requires AtLba(g, lba, d, k) && d < g.backed && k < g.RegionSize(d) && i < 16
    ensures Located(g, lba, i, d, 16 * k + i)
  {
    assert (16 * k + i) / 16 == k && (16 * k + i) % 16 == i;
  }

  /** Where dir_find_in_region stops: the index of the entry, or |es| when there is none. */
  function Find(es: seq<Entry>, name: Name, from: nat): (j: nat)
    requires from <= |es|
    ensures from <= j <= |es|
    ensures j < |es| ==> es[j].Visible() && es[j].name == name
    decreases |es| - from
  {
    if from == |es| || es[from].IsEnd() then |es|
    else if es[from].Matches(name) then from
    else Find(es, name, from + 1)
  }

  /** The first end-marker or deleted slot, or |es|. */
  function FreeSlot(es: seq<Entry>, from: nat): (j: nat)
    requires from <= |es|
    ensures from <= j <= |es|
    ensures j < |es| ==> es[j].IsEnd() || es[j].IsDeleted()
    ensures forall i :: from <= i < j ==> !es[i].IsEnd() && !es[i].IsDeleted()
    decreases |es| - from
  {
    if from == |es| || es[from].IsEnd() || es[from].IsDeleted() then from
    else FreeSlot(es, from + 1)
  }

  /** 1 for an entry whose slot a new one can use. */
  function Reuse(e: Entry): nat {
    if e.IsEnd() || e.IsDeleted() then 1 else 0
  }

  /** How many slots a new entry can use. */
  function Room(es: seq<Entry>): nat {
    if es == [] then 0 else Room(es[1..]) + Reuse(es[0])
  }

  /** There is a slot exactly when the search finds one. */
  lemma {:induction false} RoomFound(es: seq<Entry>, from: nat)
    requires from <= |es|
    ensures Room(es[from..]) == 0 <==> FreeSlot(es, from) == |es|
    decreases |es| - from
  {
    if from < |es| {
      assert es[from..][1..] == es[from + 1..];
      RoomFound(es, from + 1);
    }
  }

  /** Rewriting an entry can take up its slot or give it back. */
  lemma {:induction false} RoomSet(es: seq<Entry>, j: nat, e: Entry)
    requires j < |es|
    ensures Room(es[j := e]) + Reuse(es[j]) == Room(es) + Reuse(e)
    decreases |es|
  {
    if j == 0 {
      assert es[0 := e][1..] == es[1..];
    } else {
      assert es[j := e][1..] == es[1..][j - 1 := e];
      RoomSet(es[1..], j - 1, e);
    }
  }

  lemma {:induction false} RoomAll(es: seq<Entry>)
    requires forall j :: 0 <= j < |es| ==> es[j].IsEnd()
    ensures Room(es) == |es|
    decreases |es|
  {
    if es != [] {
      RoomAll(es[1..]);
    }
  }

  /** Nothing but end markers after an end marker, and visible names are unique, for a pair of entries that is asked for. */
  ghost predicate DirOk(es: seq<Entry>) {
    && (forall i, j {:trigger Pair(i, j)} :: Pair(i, j) && 0 <= i < j < |es| && es[i].IsEnd() ==> es[j].IsEnd())
    && (forall i, j {:trigger Pair(i, j)} :: Pair(i, j) && 0 <= i < j < |es| && es[i].Visible() && es[j].Visible() ==> es[i].name != es[j].name)
  }

  lemma {:induction false} FindFrom(es: seq<Entry>, name: Name, from: nat, j: nat)
    requires DirOk(es) && from <= j < |es| && es[j].Visible() && es[j].name == name
    ensures Find(es, name, from) == j
    decreases j - from
  {
    if from < j {
      assert Pair(from, j);
      FindFrom(es, name, from + 1, j);
    }
  }

  /** Before an entry that is no end marker there is none. */
  lemma NoEndBefore(es: seq<Entry>, j: nat)
    requires DirOk(es) && j < |es| && !es[j].IsEnd()
    ensures forall i :: 0 <= i < j ==> !es[i].IsEnd()
  {
    forall i | 0 <= i < j ensures !es[i].IsEnd() {
      assert Pair(i, j);
    }
  }

  lemma UniqueName(es: seq<Entry>, j: nat)
    requires DirOk(es) && j < |es| && es[j].Visible()
    ensures forall k :: 0 <= k < |es| && k != j && es[k].Visible() ==> es[k].name != es[j].name
  {
    forall k | 0 <= k < |es| && k != j && es[k].Visible() ensures es[k].name != es[j].name {
      assert Pair(k, j) && Pair(j, k);
    }
  }

  /** In a well-formed directory the scan finds an entry exactly when it is there. */
  lemma FindExact(es: seq<Entry>, name: Name)
    requires DirOk(es)
    ensures forall j :: 0 <= j < |es| ==> (Find(es, name, 0) == j <==> es[j].Visible() && es[j].name == name)
  {
    forall j | 0 <= j < |es| && es[j].Visible() && es[j].name == name ensures Find(es, name, 0) == j {
      FindFrom(es, name, 0, j);
    }
  }

  /** The entries from `base` on are those of a sector. */
  ghost predicate SectorEntries(es: seq<Entry>, base: nat, sec: Sector) {
    base + 16 <= |es| && forall i :: 0 <= i < 16 ==> es[base + i] == EntryAt(sec, i)
  }

  lemma SectorOf(region: seq<Sector>, k: nat)
    requires k < |region|
    ensures SectorEntries(DirOf(region), 16 * k, region[k])
  {
    forall i | 0 <= i < 16 ensures DirOf(region)[16 * k + i] == EntryAt(region[k], i) {
      DirOfAt(region, k, i);
    }
  }

  lemma {:induction false} FindSkip(es: seq<Entry>, base: nat, sec: Sector, i: nat, name: Name)
    requires SectorEntries(es, base, sec) && i <= 16
    requires forall x :: 0 <= x < i ==> !EntryAt(sec, x).IsEnd() && !EntryAt(sec, x).Matches(name)
    ensures Find(es, name, base) == Find(es, name, base + i)
    decreases i
  {
    if i > 0 {
      FindSkip(es, base, sec, i - 1, name);
      assert es[base + (i - 1)] == EntryAt(sec, i - 1);
    }
  }

  /** The inner loop of dir_find_in_region: the first end marker or match of one sector. */
  method FindInSector(buff: Sector, name83: Name) returns (i: nat)
    ensures i <= 16
    ensures forall k :: 0 <= k < i ==> !EntryAt(buff, k).IsEnd() && !EntryAt(buff, k).Matches(name83)
    ensures i < 16 ==> EntryAt(buff, i).IsEnd() || EntryAt(buff, i).Matches(name83)
  {
    i := 0;
    while i < 16
      invariant i <= 16
      invariant forall k :: 0 <= k < i ==> !EntryAt(buff, k).IsEnd() && !EntryAt(buff, k).Matches(name83)
    {
      if EntryAt(buff, i).IsEnd() || EntryAt(buff, i).Matches(name83) {
        return;
      }
      i := i + 1;
    }
  }

  lemma ScanSector(region: seq<Sector>, k: nat, i: nat, name: Name)
    requires k < |region| && i <= 16
    requires forall x :: 0 <= x < i ==> !EntryAt(region[k], x).IsEnd() && !EntryAt(region[k], x).Matches(name)
    requires i < 16 ==> EntryAt(region[k], i).IsEnd() || EntryAt(region[k], i).Matches(name)
    ensures
      var es := DirOf(region);
      Find(es, name, 16 * k) == if i == 16 then Find(es, name, 16 * (k + 1))
                                else if EntryAt(region[k], i).IsEnd() then |es| else 16 * k + i
  {
    SectorOf(region, k);
    FindSkip(DirOf(region), 16 * k, region[k], i, name);
  }

  /** One sector of dir_find_in_region. */
  method FindInOne(v: Volume, lba: int, name83: Name, ghost d: nat, ghost k: nat, ghost es: seq<Entry>) returns (i: nat, ended: bool)
    requires v.Readable() && d < v.g.backed && k < v.g.RegionSize(d) && AtLba(v.g, lba, d, k) && es == DirOf(v.img.region[d])
    ensures i <= 16 && |es| == 16 * v.g.RegionSize(d)
    ensures Find(es, name83, 16 * k) == if i == 16 then Find(es, name83, 16 * (k + 1)) else if ended then |es| else 16 * k + i
    ensures i < 16 && !ended ==> Located(v.g, lba, i, d, 16 * k + i)
  {
    var buff := ReadSector(v, lba, d, k);
    i := FindInSector(buff, name83);
    ScanSector(v.img.region[d], k, i, name83);
    ended := i < 16 && EntryAt(buff, i).IsEnd();
    if i < 16 {
      LocatedIn(v.g, lba, d, k, i);
    }
  }

  /** dir_find_in_region. */
  method DirFindInRegion(v: Volume, startLba: int, sectorCount: nat, name83: Name, ghost d: nat)
    returns (found: bool, lba: int, idx: nat, ghost j: nat)
    requires v.Readable() && d < v.g.backed && d != 1 && AtLba(v.g, startLba, d, 0) && sectorCount == v.g.RegionSize(d)
    ensures j == Find(DirOf(v.img.region[d]), name83, 0)
    ensures found <==> j < |DirOf(v.img.region[d])|
    ensures found ==> Located(v.g, lba, idx, d, j)
  {
    ghost var es := DirOf(v.img.region[d]);
    ghost var hit := Find(es, name83, 0);
    lba, idx := 0, 0;
    var s := 0;
    while s < sectorCount
      invariant 0 <= s <= sectorCount && hit == Find(es, name83, 16 * s)
    {
      AtLbaPlus(v.g, startLba, d, s);
      var i, ended := FindInOne(v, startLba + s, name83, d, s, es);
      if i < 16 {
        if ended {
          return false, lba, idx, |es|;
        }
        return true, startLba + s, i, 16 * s + i;
      }
      s := s + 1;
    }
    return false, lba, idx, |es|;
  }

  /** The inner loop of find_free_slot_in_region: the first free slot of one sector. */
  method FreeInSector(buff: Sector) returns (i: nat)
    ensures i <= 16
    ensures forall k :: 0 <= k < i ==> !EntryAt(buff, k).IsEnd() && !EntryAt(buff, k).IsDeleted()
    ensures i < 16 ==> EntryAt(buff, i).IsEnd() || EntryAt(buff, i).IsDeleted()
  {
    i := 0;
    while i < 16
      invariant i <= 16
      invariant forall k :: 0 <= k < i ==> !EntryAt(buff, k).IsEnd() && !EntryAt(buff, k).IsDeleted()
    {
      var first := buff[32 * i];
      if first == 0 || first == DELETED {
        return;
      }
      i := i + 1;
    }
  }

  lemma {:induction false} FreeSkip(es: seq<Entry>, base: nat, sec: Sector, i: nat)
    requires SectorEntries(es, base, sec) && i <= 16
    requires forall x :: 0 <= x < i ==> !EntryAt(sec, x).IsEnd() && !EntryAt(sec, x).IsDeleted()
    ensures FreeSlot(es, base) == FreeSlot(es, base + i)
    decreases i
  {
    if i > 0 {
      FreeSkip(es, base, sec, i - 1);
      assert es[base + (i - 1)] == EntryAt(sec, i - 1);
    }
  }

  lemma ScanFree(region: seq<Sector>, k: nat, i: nat)
    requires k < |region| && i <= 16
    requires forall x :: 0 <= x < i ==> !EntryAt(region[k], x).IsEnd() && !EntryAt(region[k], x).IsDeleted()
    requires i < 16 ==> EntryAt(region[k], i).IsEnd() || EntryAt(region[k], i).IsDeleted()
    ensures FreeSlot(DirOf(region), 16 * k) == if i == 16 then FreeSlot(DirOf(region), 16 * (k + 1)) else 16 * k + i
  {
    SectorOf(region, k);
    FreeSkip(DirOf(region), 16 * k, region[k], i);
  }

  /** find_free_slot_in_region. */
  method FindFreeSlotInRegion(v: Volume, startLba: int, sectorCount: nat, ghost d: nat)
    returns (found: bool, lba: int, idx: nat, ghost j: nat)
    requires v.Readable() && d < v.g.backed && d != 1 && AtLba(v.g, startLba, d, 0) && sectorCount == v.g.RegionSize(d)
    ensures j == FreeSlot(DirOf(v.img.region[d]), 0)
    ensures found <==> j < |DirOf(v.img.region[d])|
    ensures found ==> Located(v.g, lba, idx, d, j)
  {
    ghost var es := DirOf(v.img.region[d]);
    lba, idx := 0, 0;
    var s := 0;
    while s < sectorCount
      invariant 0 <= s <= sectorCount
      invariant FreeSlot(es, 0) == FreeSlot(es, 16 * s)
    {
      var at := startLba + s;
      AtLbaPlus(v.g, startLba, d, s);
      var buff := ReadSector(v, at, d, s);
      var i := FreeInSector(buff);
      ScanFree(v.img.region[d], s, i);
      if i < 16 {
        LocatedIn(v.g, at, d, s, i);
        return true, at, i, 16 * s + i;
      }
      s := s + 1;
    }
    return false, lba, idx, |es|;
  }

  /** The image after one directory sector was rewritten with entry j of d made e. */
  ghost predicate EntrySet(img: Image, img': Image, d: nat, j: nat, e: Entry) {
    var shapes := img.Shape() && img'.Shape() && img'.g == img.g && d < img.g.backed && j < 16 * img.g.RegionSize(d);
    var elsewhere := shapes ==> forall r :: 0 <= r < |img.region| && r != d ==> img'.region[r] == img.region[r];
    var here := shapes ==> DirOf(img'.region[d]) == DirOf(img.region[d])[j := e];
    shapes && img'.fat == img.fat && elsewhere && here
  }

  /** Rewrites a directory sector in which one entry changed. */
  method WriteDirSector(v: Volume, lba: int, buff: Sector, ghost d: nat, ghost j: nat, ghost e: Entry)
    requires v.Mounted() && d < v.g.backed && j < 16 * v.g.RegionSize(d) && AtLba(v.g, lba, d, j / 16)
    requires OneEntry(v.img.region[d][j / 16], buff, j % 16, e)
    modifies v`disk, v`img, v`trace
    ensures v.Mounted() && EntrySet(old(v.img), v.img, d, j, e) && v.trace == old(v.trace) + [v.disk]
  {
    DirOfUpdate(v.img.region[d], j / 16, j % 16, buff, e);
    WriteSector(v, lba, buff, d, j / 16);
  }

  /** dir_write_entry. */
  method DirWriteEntry(v: Volume, lba: int, index: nat, name83: Name, first: u16, size: u32, attr: byte, ghost d: nat, ghost j: nat)
    requires v.Mounted() && Located(v.g, lba, index, d, j)
    modifies v`disk, v`img, v`trace
    ensures v.Mounted() && EntrySet(old(v.img), v.img, d, j, Entry(name83, attr, NO_RESERVED, first, size))
    ensures v.trace == old(v.trace) + [v.disk]
  {
    var buff := ReadSector(v, lba, d, j / 16);
    var slot := Entry(name83, attr, NO_RESERVED, first, size);
    PutEntryAt(buff, index, slot);
    WriteDirSector(v, lba, PutEntry(buff, index, slot), d, j, slot);
  }
}
