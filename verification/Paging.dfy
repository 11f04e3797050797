/** memory/paging.c: address spaces changed in place. */
module Paging {
  import opened Bytes
  import opened Folding
  import opened Frames
  import opened PageTables

  /** A directory whose tables are its own and open to users and writes, as the kernel makes them. */
  ghost predicate SpaceOk(pages: seq<Page>, dir: nat) {
    && |pages| == ALL_PAGES && TablesApart(pages, dir)
    && forall i :: 0 <= i < PAGE_ENTRIES && Present(Dir(pages, dir, i)) ==>
         Writable(Dir(pages, dir, i)) && ForUser(Dir(pages, dir, i))
  }

  /** One page of the space was mapped; the others are as they were. */
  ghost predicate MapsOne(pages: seq<Page>, pages': seq<Page>, dir: nat, vp: nat, leaf: Mapping)
    requires |pages| == |pages'| == ALL_PAGES && dir < ALL_PAGES
  {
    forall x :: 0 <= x < PAGE_COUNT ==> Translate(pages', dir, x) == if x == vp then leaf else Translate(pages, dir, x)
  }

  /** The tables that were there still are. */
  ghost predicate TablesStay(pages: seq<Page>, pages': seq<Page>, dir: nat)
    requires dir < |pages| && dir < |pages'|
  {
    forall i :: 0 <= i < PAGE_ENTRIES && Present(Dir(pages, dir, i)) ==> Dir(pages', dir, i) == Dir(pages, dir, i)
  }

  /** Only frames of the set were written. */
  ghost predicate Only(pages: seq<Page>, pages': seq<Page>, frames: set<nat>) {
    |pages| == |pages'| && forall f :: 0 <= f < |pages| && f !in frames ==> pages'[f] == pages[f]
  }

  function LeafOf(frame: nat, flags: nat): Mapping {
    Mapped(frame, flags / 2 % 2 == 1, flags / 4 % 2 == 1)
  }

  lemma SetPteAt(pages: seq<Page>, dir: nat, vp: nat, frame: nat, flags: nat, x: nat)
    requires SpaceOk(pages, dir) && vp < PAGE_COUNT && Present(Dir(pages, dir, vp / PAGE_ENTRIES))
    requires frame < PAGE_COUNT && flags < FRAME_SIZE && x < PAGE_COUNT
    ensures Translate(WithPte(pages, dir, vp, MakeEntry(frame, flags)), dir, x)
      == if x == vp then LeafOf(frame, flags) else Translate(pages, dir, x)
  {
    MakeEntryFields(frame, flags);
    WithPteTranslate(pages, dir, vp, MakeEntry(frame, flags), x);
  }

  lemma SameDirOk(pages: seq<Page>, pages': seq<Page>, dir: nat)
    requires SpaceOk(pages, dir) && |pages'| == ALL_PAGES && pages'[dir] == pages[dir]
    ensures SpaceOk(pages', dir) && SpaceFrames(pages', dir) == SpaceFrames(pages, dir)
  {
    assert forall i :: 0 <= i < PAGE_ENTRIES ==> Dir(pages', dir, i) == Dir(pages, dir, i);
  }

  /** The table of a page is there: its entry is set. */
  lemma SetPte(pages: seq<Page>, dir: nat, vp: nat, frame: nat, flags: nat)
    requires SpaceOk(pages, dir) && vp < PAGE_COUNT && Present(Dir(pages, dir, vp / PAGE_ENTRIES))
    requires frame < PAGE_COUNT && flags < FRAME_SIZE
    ensures
      var pages' := WithPte(pages, dir, vp, MakeEntry(frame, flags));
      && SpaceOk(pages', dir) && SpaceFrames(pages', dir) == SpaceFrames(pages, dir)
      && MapsOne(pages, pages', dir, vp, LeafOf(frame, flags)) && Only(pages, pages', SpaceFrames(pages, dir))
      && pages'[dir] == pages[dir]
  {
    var pages' := WithPte(pages, dir, vp, MakeEntry(frame, flags));
    WithPteDir(pages, dir, vp, MakeEntry(frame, flags));
    SameDirOk(pages, pages', dir);
    TableIn(pages, dir, vp / PAGE_ENTRIES);
    forall x | 0 <= x < PAGE_COUNT
      ensures Translate(pages', dir, x) == if x == vp then LeafOf(frame, flags) else Translate(pages, dir, x)
    {
      SetPteAt(pages, dir, vp, frame, flags, x);
    }
  }

  /** A fresh table for a directory entry that has none. */
  lemma AddTable(pages: seq<Page>, dir: nat, i: nat, f: nat)
    requires SpaceOk(pages, dir) && i < PAGE_ENTRIES && !Present(Dir(pages, dir, i))
    requires 0 < f < NUM_FRAMES && f !in SpaceFrames(pages, dir)
    ensures
      var pages' := WithTable(pages, dir, i, f);
      && SpaceOk(pages', dir) && SpaceFrames(pages', dir) == SpaceFrames(pages, dir) + {f} && Present(Dir(pages', dir, i))
      && (forall x :: 0 <= x < PAGE_COUNT ==> Translate(pages', dir, x) == Translate(pages, dir, x))
      && Only(pages, pages', SpaceFrames(pages, dir) + {f}) && TablesStay(pages, pages', dir)
  {
    var pages' := WithTable(pages, dir, i, f);
    assert dir in SpaceFrames(pages, dir);
    forall j | 0 <= j < PAGE_ENTRIES && Present(Dir(pages, dir, j)) ensures Dir(pages', dir, j) == Dir(pages, dir, j) {
      WithTableDir(pages, dir, i, f, j);
    }
    WithTableApart(pages, dir, i, f);
    WithTableFrames(pages, dir, i, f);
    MakeEntryFields(f, RW_USER);
    forall j | 0 <= j < PAGE_ENTRIES && Present(Dir(pages', dir, j))
      ensures Writable(Dir(pages', dir, j)) && ForUser(Dir(pages', dir, j))
    {
      WithTableDir(pages, dir, i, f, j);
    }
    forall x | 0 <= x < PAGE_COUNT ensures Translate(pages', dir, x) == Translate(pages, dir, x) {
      WithTableTranslate(pages, dir, i, f, x);
    }
  }

  /** Of the directory's entries, entry i is there now. */
  ghost predicate TableAdded(pages: seq<Page>, pages': seq<Page>, dir: nat, i: nat)
    requires dir < |pages| && dir < |pages'|
  {
    forall j :: 0 <= j < PAGE_ENTRIES ==> (Present(Dir(pages', dir, j)) <==> Present(Dir(pages, dir, j)) || j == i)
  }

  /** The frames a table for entry i takes. */
  ghost function TablePrice(pages: seq<Page>, dir: nat, i: nat): nat
    requires dir < |pages| && i < PAGE_ENTRIES
  {
    if Present(Dir(pages, dir, i)) then 0 else 1
  }

  lemma WithTableAdded(pages: seq<Page>, dir: nat, i: nat, f: nat)
    requires SpaceOk(pages, dir) && i < PAGE_ENTRIES && !Present(Dir(pages, dir, i)) && 0 < f < NUM_FRAMES && f !in SpaceFrames(pages, dir)
    ensures TableAdded(pages, WithTable(pages, dir, i, f), dir, i)
  {
    MakeEntryFields(f, RW_USER);
    assert dir in SpaceFrames(pages, dir);
    forall j | 0 <= j < PAGE_ENTRIES
      ensures Present(Dir(WithTable(pages, dir, i, f), dir, j)) <==> Present(Dir(pages, dir, j)) || j == i
    {
      WithTableDir(pages, dir, i, f, j);
    }
  }

  /** The part of address_space_map_page that provides the table. */
  method EnsureTable(m: Memory, dir: nat, i: nat) returns (ok: bool)
    requires m.Valid() && SpaceOk(m.pages, dir) && SpaceFrames(m.pages, dir) <= m.used && i < PAGE_ENTRIES
    modifies m
    ensures m.Valid() && old(m.used) <= m.used
    ensures !ok ==> m.used == old(m.used) && m.pages == old(m.pages)
    ensures ok <==> TablePrice(old(m.pages), dir, i) <= Left(old(m.used))
    ensures ok ==> TableAdded(old(m.pages), m.pages, dir, i) && Left(m.used) + TablePrice(old(m.pages), dir, i) == Left(old(m.used))
    ensures ok ==>
      && SpaceOk(m.pages, dir) && Present(Dir(m.pages, dir, i))
      && SpaceFrames(m.pages, dir) == old(SpaceFrames(m.pages, dir)) + (m.used - old(m.used))
      && (forall x :: 0 <= x < PAGE_COUNT ==> Translate(m.pages, dir, x) == Translate(old(m.pages), dir, x))
      && Only(old(m.pages), m.pages, SpaceFrames(m.pages, dir)) && TablesStay(old(m.pages), m.pages, dir)
  {
    var pde := Dir(m.pages, dir, i);
    if Present(pde) {
      ok := true;
    } else {
      LeftNone(m.used);
      var table := AllocFrame(m);
      if table == 0 {
        ok := false;
      } else {
        var f := table / FRAME_SIZE;
        LeftTake(old(m.used), f);
        WithTableAdded(m.pages, dir, i, f);
        AddTable(m.pages, dir, i, f);
        m.pages := m.pages[f := Zeros()];
        m.pages := m.pages[dir := SetEntry(m.pages[dir], i, MakeEntry(f, RW_USER))];
        ok := true;
      }
    }
  }

  /** Nothing happened. */
  ghost predicate Same(used: set<nat>, pages: seq<Page>, used': set<nat>, pages': seq<Page>) {
    used' == used && pages' == pages
  }

  /** One page of one space was mapped; the space may have gained one table, in a frame that was free. */
  ghost predicate Mapped1(used: set<nat>, pages: seq<Page>, used': set<nat>, pages': seq<Page>, dir: nat, vp: nat, leaf: Mapping)
    requires |pages| == |pages'| == ALL_PAGES && dir < ALL_PAGES
  {
    var sound := SpaceOk(pages', dir) && MapsOne(pages, pages', dir, vp, leaf) && TablesStay(pages, pages', dir);
    var grown := used <= used' && SpaceFrames(pages', dir) == SpaceFrames(pages, dir) + (used' - used);
    sound && grown && Only(pages, pages', SpaceFrames(pages', dir))
  }

  lemma MapsThrough(pages: seq<Page>, pages1: seq<Page>, pages2: seq<Page>, dir: nat, vp: nat, leaf: Mapping)
    requires |pages| == |pages1| == |pages2| == ALL_PAGES && dir < ALL_PAGES
    requires forall x :: 0 <= x < PAGE_COUNT ==> Translate(pages1, dir, x) == Translate(pages, dir, x)
    requires MapsOne(pages1, pages2, dir, vp, leaf)
    ensures MapsOne(pages, pages2, dir, vp, leaf)
  {
  }

  /** The directory entry a page belongs to. */
  function DirIndex(vp: nat): nat { vp / PAGE_ENTRIES }

  /** address_space_map_page: fails exactly when a table is needed and no frame is free. */
  method MapPage(m: Memory, dir: nat, virt: u32, phys: u32, flags: nat) returns (ok: bool)
    requires m.Valid() && (dir != 0 ==> SpaceOk(m.pages, dir) && SpaceFrames(m.pages, dir) <= m.used) && flags < FRAME_SIZE
    modifies m
    ensures m.Valid()
    ensures !ok ==> Same(old(m.used), old(m.pages), m.used, m.pages)
    ensures ok <==> dir != 0 && TablePrice(old(m.pages), dir, DirIndex(virt / FRAME_SIZE)) <= Left(old(m.used))
    ensures ok ==>
      && TableAdded(old(m.pages), m.pages, dir, DirIndex(virt / FRAME_SIZE))
      && Left(m.used) + TablePrice(old(m.pages), dir, DirIndex(virt / FRAME_SIZE)) == Left(old(m.used))
    ensures ok ==>
      && dir != 0
      && Mapped1(old(m.used), old(m.pages), m.used, m.pages, dir, virt / FRAME_SIZE, LeafOf(phys / FRAME_SIZE, flags))
  {
    if dir == 0 {
      ok := false;
    } else {
      ghost var pages := m.pages;
      ok := EnsureTable(m, dir, virt / 0x40_0000);
      if ok {
        ghost var pages1, vp := m.pages, virt / FRAME_SIZE;
        assert vp / PAGE_ENTRIES == virt / 0x40_0000;
        SetPte(pages1, dir, vp, phys / FRAME_SIZE, flags);
        var pt := FrameOf(Dir(m.pages, dir, virt / 0x40_0000));
        m.pages := m.pages[pt := SetEntry(m.pages[pt], virt / FRAME_SIZE % PAGE_ENTRIES, MakeEntry(phys / FRAME_SIZE, flags))];
        MapsThrough(pages, pages1, m.pages, dir, vp, LeafOf(phys / FRAME_SIZE, flags));
      }
    }
  }

  /** Mapping a page in one space changes no translation in another, user or kernel. */
  lemma MapsElsewhere(used: set<nat>, pages: seq<Page>, used': set<nat>, pages': seq<Page>, dir: nat, vp: nat, leaf: Mapping, other: nat)
    requires |pages| == |pages'| == ALL_PAGES && dir < ALL_PAGES && Mapped1(used, pages, used', pages', dir, vp, leaf)
    requires SpaceOk(pages, other) && SpaceFrames(pages, other) <= used && SpaceFrames(pages, other) !! SpaceFrames(pages, dir)
    ensures SpaceFrames(pages', other) == SpaceFrames(pages, other)
    ensures forall x :: 0 <= x < PAGE_COUNT ==> Translate(pages', other, x) == Translate(pages, other, x)
  {
    SpaceUntouched(pages, pages', other);
  }

  // ---- ranges of pages ----

  /** A user may use this page. */
  ghost predicate UserPage(pages: seq<Page>, dir: nat, vp: nat)
    requires |pages| == ALL_PAGES && dir < ALL_PAGES
  {
    vp < PAGE_COUNT && Translate(pages, dir, vp).Mapped? && Translate(pages, dir, vp).user
  }

  /** The range does not wrap and a user may use every page it touches. */
  ghost predicate UserRange(pages: seq<Page>, dir: nat, start: u32, len: u32)
    requires |pages| == ALL_PAGES && dir < ALL_PAGES && len > 0
  {
    && start + len <= U32_MOD
    && forall vp :: start / FRAME_SIZE <= vp <= (start + len - 1) / FRAME_SIZE ==> UserPage(pages, dir, vp)
  }

  /** Address by address. */
  lemma UserRangeBytes(pages: seq<Page>, dir: nat, start: u32, len: u32)
    requires |pages| == ALL_PAGES && dir < ALL_PAGES && len > 0
    ensures UserRange(pages, dir, start, len) <==> start + len <= U32_MOD && forall va :: start <= va < start + len ==> UserPage(pages, dir, va / 4096)
  {
    if start + len <= U32_MOD && forall va :: start <= va < start + len ==> UserPage(pages, dir, va / 4096) {
      forall vp | start / FRAME_SIZE <= vp <= (start + len - 1) / FRAME_SIZE ensures UserPage(pages, dir, vp) {
        var va := Max(start, vp * FRAME_SIZE);
        assert start <= va < start + len && va / 4096 == vp;
      }
    }
  }

  /** The checks of address_space_user_pages_ok on one page. */
  method UserPageOk(m: Memory, dir: nat, addr: u32) returns (ok: bool)
    requires |m.pages| == ALL_PAGES && dir < ALL_PAGES
    ensures ok <==> UserPage(m.pages, dir, addr / FRAME_SIZE)
  {
    assert addr / FRAME_SIZE / PAGE_ENTRIES == addr / 0x40_0000;
    var pde := Dir(m.pages, dir, addr / 0x40_0000);
    if !Present(pde) || !ForUser(pde) {
      return false;
    }
    var pte := Entry(m.pages[FrameOf(pde)], addr / FRAME_SIZE % PAGE_ENTRIES);
    return Present(pte) && ForUser(pte);
  }

  /** address_space_user_pages_ok. */
  method UserPagesOk(m: Memory, dir: nat, start: u32, len: u32) returns (ok: bool)
    requires |m.pages| == ALL_PAGES && dir < ALL_PAGES
    ensures ok <==> dir != 0 && (len == 0 || UserRange(m.pages, dir, start, len))
  {
    if dir == 0 {
      return false;
    }
    if len == 0 {
      return true;
    }
    var end := Wrap32(start + len - 1);
    if end < start {
      return false;
    }
    var addr, last := start / FRAME_SIZE * FRAME_SIZE, end / FRAME_SIZE * FRAME_SIZE;
    ghost var page := start / FRAME_SIZE;
    while true
      invariant addr == page * FRAME_SIZE && start / FRAME_SIZE <= page <= end / FRAME_SIZE
      invariant forall vp :: start / FRAME_SIZE <= vp < page ==> UserPage(m.pages, dir, vp)
      decreases last - addr
    {
      ok := UserPageOk(m, dir, addr);
      if !ok {
        return;
      }
      if addr == last {
        return true;
      }
      assert addr <= 0xFFFF_FFFF - FRAME_SIZE; // the source's overflow exit is not reached
      addr, page := addr + FRAME_SIZE, page + 1;
    }
  }

  /** The mapping of a page that has been marked. */
  function Marked(mapping: Mapping): Mapping {
    if mapping.Mapped? then mapping.(user := true) else Unmapped
  }

  function OrUser(flags: nat): nat {
    if flags / 4 % 2 == 1 then flags else flags + 4
  }

  lemma OrUserBits(flags: nat)
    requires flags < FRAME_SIZE
    ensures OrUser(flags) < FRAME_SIZE && OrUser(flags) / 4 % 2 == 1 && OrUser(flags) / 2 % 2 == flags / 2 % 2
  {
  }

  /** The pages from a to b are marked, nothing else changes. */
  ghost predicate MarksRange(pages: seq<Page>, pages': seq<Page>, dir: nat, a: nat, b: int)
    requires |pages| == |pages'| == ALL_PAGES && dir < ALL_PAGES
  {
    forall x :: 0 <= x < PAGE_COUNT ==>
      Translate(pages', dir, x) == if a <= x <= b then Marked(Translate(pages, dir, x)) else Translate(pages, dir, x)
  }

  /** address_space_mark_user_page: an absent page stays absent, and no table is ever needed. */
  method MarkUserPage(m: Memory, dir: nat, virt: u32)
    requires m.Valid() && SpaceOk(m.pages, dir) && SpaceFrames(m.pages, dir) <= m.used
    modifies m
    ensures m.Valid() && m.used == old(m.used)
    ensures MarkedSpace(old(m.pages), m.pages, dir, virt / FRAME_SIZE, virt / FRAME_SIZE)
  {
    ghost var pages, vp := m.pages, virt / FRAME_SIZE;
    assert vp / PAGE_ENTRIES == virt / 0x40_0000;
    var pde := Dir(m.pages, dir, virt / 0x40_0000);
    if Present(pde) {
      var pte := Entry(m.pages[FrameOf(pde)], virt / FRAME_SIZE % PAGE_ENTRIES);
      if Present(pte) {
        OrUserBits(pte % FRAME_SIZE);
        LowBits(FrameOf(pte), pte % FRAME_SIZE);
        SetPte(pages, dir, vp, FrameOf(pte), OrUser(pte % FRAME_SIZE));
        m.pages := m.pages[FrameOf(pde) := SetEntry(m.pages[FrameOf(pde)], virt / FRAME_SIZE % PAGE_ENTRIES,
                                                    MakeEntry(FrameOf(pte), OrUser(pte % FRAME_SIZE)))];
      }
    }
  }

  /** The space after pages a to b of it were marked. */
  ghost predicate MarkedSpace(pages: seq<Page>, pages': seq<Page>, dir: nat, a: nat, b: int)
    requires |pages| == |pages'| == ALL_PAGES && dir < ALL_PAGES
  {
    var kept := SpaceOk(pages', dir) && SpaceFrames(pages', dir) == SpaceFrames(pages, dir) && pages'[dir] == pages[dir];
    kept && Only(pages, pages', SpaceFrames(pages, dir)) && MarksRange(pages, pages', dir, a, b)
  }

  lemma MarksOneMore(pages: seq<Page>, pages1: seq<Page>, pages2: seq<Page>, dir: nat, a: nat, b: nat)
    requires |pages| == |pages1| == |pages2| == ALL_PAGES && dir < ALL_PAGES && a <= b
    requires MarkedSpace(pages, pages1, dir, a, b - 1) && MarkedSpace(pages1, pages2, dir, b, b)
    ensures MarkedSpace(pages, pages2, dir, a, b)
  {
  }

  /** The loop of address_space_mark_user_range, from page a to page b. */
  method MarkPages(m: Memory, dir: nat, first: u32, last: u32, ghost a: nat, ghost b: nat)
    requires m.Valid() && SpaceOk(m.pages, dir) && SpaceFrames(m.pages, dir) <= m.used
    requires first == a * FRAME_SIZE && last == b * FRAME_SIZE && a <= b
    modifies m
    ensures m.Valid() && m.used == old(m.used) && MarkedSpace(old(m.pages), m.pages, dir, a, b)
  {
    var addr := first;
    ghost var pages, vp := m.pages, a;
    while true
      invariant addr == vp * FRAME_SIZE && a <= vp && addr <= last
      invariant m.Valid() && m.used == old(m.used) && MarkedSpace(pages, m.pages, dir, a, vp - 1)
      decreases last - addr
    {
      ghost var pages1 := m.pages;
      MarkUserPage(m, dir, addr);
      MarksOneMore(pages, pages1, m.pages, dir, a, vp);
      if addr == last {
        return;
      }
      assert addr <= 0xFFFF_FFFF - FRAME_SIZE; // the source's overflow exit is not reached
      addr, vp := addr + FRAME_SIZE, vp + 1;
    }
  }

  /** address_space_mark_user_range: a range that wraps is left alone. */
  method MarkUserRange(m: Memory, dir: nat, start: u32, len: u32)
    requires m.Valid() && SpaceOk(m.pages, dir) && SpaceFrames(m.pages, dir) <= m.used
    modifies m
    ensures m.Valid() && m.used == old(m.used)
    ensures
      if len > 0 && start + len <= U32_MOD
      then MarkedSpace(old(m.pages), m.pages, dir, start / FRAME_SIZE, (start + len - 1) / FRAME_SIZE)
      else m.pages == old(m.pages)
  {
    if len > 0 {
      var end := Wrap32(start + len - 1);
      if end >= start {
        assert end == start + len - 1;
        MarkPages(m, dir, start / FRAME_SIZE * FRAME_SIZE, end / FRAME_SIZE * FRAME_SIZE, start / FRAME_SIZE, end / FRAME_SIZE);
      }
    }
  }

  // ---- making and destroying user spaces ----

  const MAX_ADDRESS_SPACES := 8

  /** address_space_t, by frame number; 0 is a null pointer. */
  datatype Space = Space(dir: nat, low: nat)

  const NO_SPACE := Space(0, 0)

  /** The static variables of memory/paging.c. */
  class Spaces {
    var kernel: Space
    var user: seq<Space>

    constructor (kernel: Space)
      ensures this.kernel == kernel && user == seq(8, _ => NO_SPACE)
    {
      this.kernel, user := kernel, seq(MAX_ADDRESS_SPACES, _ => NO_SPACE);
    }
  }

  /** No page of the kernel's low table is open to users. */
  ghost predicate KernelOnly(table: Page) {
    forall i :: 0 <= i < PAGE_ENTRIES ==> !ForUser(Entry(table, i))
  }

  /** The kernel's space is its directory and its one table. */
  ghost predicate KernelSpace(pages: seq<Page>, kernel: Space) {
    SpaceOk(pages, kernel.dir) && SpaceFrames(pages, kernel.dir) == {kernel.dir, kernel.low}
  }

  ghost predicate FoldedKernel(pages: seq<Page>, kernel: Space) {
    forall k :: Asked(k) ==> KernelSpace(pages, kernel)
  }

  /** No translation in the kernel's space has changed. */
  ghost predicate KernelKept(pages: seq<Page>, pages': seq<Page>, kernel: Space) {
    && |pages| == |pages'| == ALL_PAGES && kernel.dir < ALL_PAGES
    && forall vp :: 0 <= vp < PAGE_COUNT ==> Translate(pages', kernel.dir, vp) == Translate(pages, kernel.dir, vp)
  }

  /** So it is while nobody writes those two frames. */
  lemma KernelStays(pages: seq<Page>, pages': seq<Page>, kernel: Space)
    requires FoldedKernel(pages, kernel) && |pages| == |pages'| == ALL_PAGES
    requires forall f :: (f == kernel.dir || f == kernel.low) && f < ALL_PAGES ==> pages'[f] == pages[f]
    ensures FoldedKernel(pages', kernel) && KernelKept(pages, pages', kernel)
  {
    assert Asked(0);
    SpaceUntouched(pages, pages', kernel.dir);
    SameDirOk(pages, pages', kernel.dir);
  }

  /** The first four megabytes stand for themselves, for the kernel only; nothing else is there. */
  ghost predicate IdentityMapped(pages: seq<Page>, dir: nat)
    requires |pages| == ALL_PAGES && dir < ALL_PAGES
  {
    forall vp :: 0 <= vp < PAGE_COUNT ==>
      Translate(pages, dir, vp) == if vp < PAGE_ENTRIES then Mapped(vp, true, false) else Unmapped
  }

  /** The loop of init_paging fills the kernel's table. */
  method FillKernelTable(m: Memory, t: nat)
    requires m.Valid() && t < ALL_PAGES
    modifies m`pages
    ensures m.Valid() && Only(old(m.pages), m.pages, {t})
    ensures forall j :: 0 <= j < PAGE_ENTRIES ==> Entry(m.pages[t], j) == MakeEntry(j, 2)
  {
    for i := 0 to PAGE_ENTRIES
      invariant m.Valid() && Only(old(m.pages), m.pages, {t})
      invariant forall j :: 0 <= j < i ==> Entry(m.pages[t], j) == MakeEntry(j, 2)
    {
      forall j | 0 <= j <= i ensures Entry(SetEntry(m.pages[t], i, MakeEntry(i, 2)), j) == MakeEntry(j, 2) {
        SetEntryAt(m.pages[t], i, MakeEntry(i, 2), j);
      }
      m.pages := m.pages[t := SetEntry(m.pages[t], i, MakeEntry(i, 2))];
    }
  }

  /** A directory with one table. */
  ghost predicate OneTable(pages: seq<Page>, dir: nat, low: nat) {
    && |pages| == ALL_PAGES && 0 < dir < NUM_FRAMES && 0 < low < NUM_FRAMES && dir != low
    && pages[dir] == SetEntry(Zeros(), 0, MakeEntry(low, RW_USER))
  }

  lemma OneTableDir(pages: seq<Page>, dir: nat, low: nat, i: nat)
    requires OneTable(pages, dir, low) && i < PAGE_ENTRIES
    ensures Dir(pages, dir, i) == if i == 0 then MakeEntry(low, RW_USER) else 0
    ensures if i == 0 then Present(Dir(pages, dir, i)) && Writable(Dir(pages, dir, i)) && ForUser(Dir(pages, dir, i)) && FrameOf(Dir(pages, dir, i)) == low
            else !Present(Dir(pages, dir, i))
  {
    SetEntryAt(Zeros(), 0, MakeEntry(low, RW_USER), i);
    ZerosEntry(i);
    MakeEntryFields(low, RW_USER);
  }

  lemma OneTableSpace(pages: seq<Page>, dir: nat, low: nat)
    requires OneTable(pages, dir, low)
    ensures SpaceOk(pages, dir) && SpaceFrames(pages, dir) == {dir, low}
  {
    forall i | 0 <= i < PAGE_ENTRIES
      ensures if i == 0 then Present(Dir(pages, dir, i)) && Writable(Dir(pages, dir, i)) && ForUser(Dir(pages, dir, i)) && FrameOf(Dir(pages, dir, i)) == low
              else !Present(Dir(pages, dir, i))
    {
      OneTableDir(pages, dir, low, i);
    }
    assert Present(Dir(pages, dir, 0)) && low in TablesFrom(pages, dir, 0);
  }

  lemma OneTableTranslate(pages: seq<Page>, dir: nat, low: nat, vp: nat)
    requires OneTable(pages, dir, low) && vp < PAGE_COUNT
    ensures
      Translate(pages, dir, vp) ==
      if vp >= PAGE_ENTRIES || !Present(Entry(pages[low], vp)) then Unmapped
      else Mapped(FrameOf(Entry(pages[low], vp)), Writable(Entry(pages[low], vp)), ForUser(Entry(pages[low], vp)))
  {
    OneTableDir(pages, dir, low, vp / PAGE_ENTRIES);
  }

  lemma KernelBuilt(pages: seq<Page>, dir: nat, low: nat)
    requires OneTable(pages, dir, low) && forall j :: 0 <= j < PAGE_ENTRIES ==> Entry(pages[low], j) == MakeEntry(j, 2)
    ensures KernelSpace(pages, Space(dir, low)) && KernelOnly(pages[low]) && IdentityMapped(pages, dir)
  {
    OneTableSpace(pages, dir, low);
    forall j | 0 <= j < PAGE_ENTRIES
      ensures Present(Entry(pages[low], j)) && FrameOf(Entry(pages[low], j)) == j && Writable(Entry(pages[low], j)) && !ForUser(Entry(pages[low], j))
    {
      MakeEntryFields(j, 2);
    }
    forall vp | 0 <= vp < PAGE_COUNT
      ensures Translate(pages, dir, vp) == if vp < PAGE_ENTRIES then Mapped(vp, true, false) else Unmapped
    {
      OneTableTranslate(pages, dir, low, vp);
    }
  }

  /** There are at least two free frames. */
  ghost predicate TwoFree(used: set<nat>) {
    exists f, g :: 0 <= f < g < NUM_FRAMES && f !in used && g !in used
  }

  /** init_paging. It does not look whether its two frames were there: it makes a kernel space if and only if they were. */
  method InitPaging(m: Memory) returns (kernel: Space)
    requires m.Valid()
    modifies m
    ensures m.Valid() && (KernelSpace(m.pages, kernel) <==> TwoFree(old(m.used)))
    ensures TwoFree(old(m.used)) ==>
      && kernel.dir != kernel.low && kernel.dir !in old(m.used) && kernel.low !in old(m.used) && kernel.low < NUM_FRAMES
      && m.used == old(m.used) + {kernel.dir, kernel.low} && KeepsUsed(old(m.pages), m.pages, old(m.used))
      && KernelOnly(m.pages[kernel.low]) && IdentityMapped(m.pages, kernel.dir)
  {
    var dir := AllocFrame(m);
    var d := dir / FRAME_SIZE;
    m.pages := m.pages[d := Zeros()];
    var table := AllocFrame(m);
    var t := table / FRAME_SIZE;
    FillKernelTable(m, t);
    m.pages := m.pages[d := SetEntry(m.pages[d], 0, MakeEntry(t, RW_USER))];
    kernel := Space(d, t);
    if d != 0 && t != 0 {
      KernelBuilt(m.pages, d, t);
    }
  }

  /** When one frame is free, the directory's table is frame 0. */
  method InitOneFrame(m: Memory, f: nat) returns (kernel: Space)
    requires m.Valid() && f < NUM_FRAMES && forall g :: 0 <= g < NUM_FRAMES ==> (g in m.used <==> g != f)
    modifies m
    ensures !KernelSpace(m.pages, kernel)
  {
    kernel := InitPaging(m);
  }

  /** The directory of a new space: its first table is a copy of the kernel's. */
  ghost function NewSpace(pages: seq<Page>, dir: nat, low: nat, kernelLow: nat): seq<Page>
    requires |pages| == ALL_PAGES && dir < NUM_FRAMES && low < NUM_FRAMES && kernelLow < NUM_FRAMES
  {
    pages[low := pages[kernelLow]][dir := SetEntry(Zeros(), 0, MakeEntry(low, RW_USER))]
  }

  /** A new space is made of its two frames, and none of its pages is open to users. */
  lemma NewSpaceOk(pages: seq<Page>, dir: nat, low: nat, kernelLow: nat)
    requires |pages| == ALL_PAGES && 0 < dir < NUM_FRAMES && 0 < low < NUM_FRAMES && kernelLow < NUM_FRAMES && dir != low
    requires KernelOnly(pages[kernelLow])
    ensures
      var pages' := NewSpace(pages, dir, low, kernelLow);
      && SpaceOk(pages', dir) && SpaceFrames(pages', dir) == {dir, low}
      && Present(Dir(pages', dir, 0)) && FrameOf(Dir(pages', dir, 0)) == low
      && (forall vp :: 0 <= vp < PAGE_COUNT ==> !UserPage(pages', dir, vp))
  {
    var pages' := NewSpace(pages, dir, low, kernelLow);
    OneTableSpace(pages', dir, low);
    OneTableDir(pages', dir, low, 0);
    forall vp | 0 <= vp < PAGE_COUNT ensures !UserPage(pages', dir, vp) {
      OneTableTranslate(pages', dir, low, vp);
    }
  }

  /** Used frames keep their contents. */
  ghost predicate KeepsUsed(pages: seq<Page>, pages': seq<Page>, used: set<nat>) {
    |pages| == |pages'| && forall f :: f in used && f < |pages| ==> pages'[f] == pages[f]
  }

  /** A new space in slot i: two frames that were free, no page open to users. */
  ghost predicate Created(used: set<nat>, pages: seq<Page>, used': set<nat>, pages': seq<Page>, s: Space) {
    var apart := s.dir !in used && s.low !in used && s.dir != s.low && used' == used + {s.dir, s.low};
    var made := SpaceOk(pages', s.dir) && SpaceFrames(pages', s.dir) == {s.dir, s.low}
                && Present(Dir(pages', s.dir, 0)) && FrameOf(Dir(pages', s.dir, 0)) == s.low
                && forall vp :: 0 <= vp < PAGE_COUNT ==> !UserPage(pages', s.dir, vp);
    apart && made && KeepsUsed(pages, pages', used)
  }

  lemma NewSpaceCreated(used: set<nat>, pages: seq<Page>, dir: nat, low: nat, kernelLow: nat)
    requires |pages| == ALL_PAGES && 0 < dir < NUM_FRAMES && 0 < low < NUM_FRAMES && kernelLow < NUM_FRAMES && dir != low
    requires KernelOnly(pages[kernelLow]) && dir !in used && low !in used
    ensures Created(used, pages, used + {dir, low}, NewSpace(pages, dir, low, kernelLow), Space(dir, low))
  {
    NewSpaceOk(pages, dir, low, kernelLow);
  }

  /** The body of address_space_create_user once a slot was found. */
  method BuildSpace(m: Memory, kernelLow: nat) returns (s: Space)
    requires m.Valid() && kernelLow in m.used && KernelOnly(m.pages[kernelLow])
    modifies m
    ensures m.Valid()
    ensures s.dir == 0 ==> m.used == old(m.used) && KeepsUsed(old(m.pages), m.pages, old(m.used)) && s == NO_SPACE
    ensures s.dir != 0 ==> Created(old(m.used), old(m.pages), m.used, m.pages, s)
    ensures s.dir != 0 <==> TwoFree(old(m.used))
  {
    ghost var used, pages := m.used, m.pages;
    var dir := AllocFrame(m);
    if dir == 0 {
      return NO_SPACE;
    }
    var d := dir / FRAME_SIZE;
    m.pages := m.pages[d := Zeros()];
    var table := AllocFrame(m);
    if table == 0 {
      FreeFrame(m, dir);
      assert m.used == used;
      return NO_SPACE;
    }
    var t := table / FRAME_SIZE;
    FillSpace(m, d, t, kernelLow, pages);
    NewSpaceCreated(used, pages, d, t, kernelLow);
    s := Space(d, t);
    assert m.used == used + {d, t};
  }

  /** The first table of a new space is copied from the kernel's, and the cleared directory points to it. */
  method FillSpace(m: Memory, d: nat, t: nat, kernelLow: nat, ghost pages: seq<Page>)
    requires |pages| == ALL_PAGES && d < NUM_FRAMES && t < NUM_FRAMES && kernelLow < NUM_FRAMES && d != t && d != kernelLow
    requires m.pages == pages[d := Zeros()]
    modifies m`pages
    ensures m.pages == NewSpace(pages, d, t, kernelLow)
  {
    m.pages := m.pages[t := m.pages[kernelLow]];
    m.pages := m.pages[d := SetEntry(m.pages[d], 0, MakeEntry(t, RW_USER))];
  }

  /** address_space_create_user: the first free slot of the pool, or -1. */
  method CreateUser(m: Memory, a: Spaces) returns (i: int)
    requires m.Valid() && a.kernel.low in m.used && KernelOnly(m.pages[a.kernel.low]) && |a.user| == MAX_ADDRESS_SPACES
    modifies m, a`user
    ensures m.Valid() && -1 <= i < MAX_ADDRESS_SPACES && |a.user| == MAX_ADDRESS_SPACES
    ensures i >= 0 <==> (exists k :: 0 <= k < MAX_ADDRESS_SPACES && old(a.user)[k].dir == 0) && TwoFree(old(m.used))
    ensures i == -1 ==> a.user == old(a.user) && m.used == old(m.used) && KeepsUsed(old(m.pages), m.pages, old(m.used))
    ensures i >= 0 ==>
      && old(a.user)[i].dir == 0 && (forall k :: 0 <= k < i ==> old(a.user)[k].dir != 0) && a.user == old(a.user)[i := a.user[i]]
      && a.user[i].dir != 0 && Created(old(m.used), old(m.pages), m.used, m.pages, a.user[i])
  {
    for k := 0 to MAX_ADDRESS_SPACES
      invariant m.Valid() && m.used == old(m.used) && m.pages == old(m.pages) && a.user == old(a.user)
      invariant forall x :: 0 <= x < k ==> a.user[x].dir != 0
    {
      if a.user[k].dir == 0 {
        var s := BuildSpace(m, a.kernel.low);
        if s.dir == 0 {
          return -1;
        }
        a.user := a.user[k := s];
        return k;
      }
    }
    return -1;
  }

  /** The frames of tables 1 to k - 1. */
  ghost function HighTables(pages: seq<Page>, dir: nat, k: nat): set<nat>
    requires dir < |pages| && k <= PAGE_ENTRIES
  {
    set j | 1 <= j < k && Present(Dir(pages, dir, j)) :: FrameOf(Dir(pages, dir, j))
  }

  lemma HighTablesNext(pages: seq<Page>, dir: nat, k: nat)
    requires |pages| == ALL_PAGES && TablesApart(pages, dir) && 1 <= k < PAGE_ENTRIES
    ensures
      var e := Dir(pages, dir, k);
      && HighTables(pages, dir, k + 1) == HighTables(pages, dir, k) + (if Present(e) then {FrameOf(e)} else {})
      && (Present(e) ==> FrameOf(e) !in HighTables(pages, dir, k) && FrameOf(e) in SpaceFrames(pages, dir))
  {
    var e, a, b := Dir(pages, dir, k), HighTables(pages, dir, k), HighTables(pages, dir, k + 1);
    if Present(e) {
      TableIn(pages, dir, k);
      assert FrameOf(e) in b;
    }
    forall x | x in a ensures x in b {
      var j :| 1 <= j < k && Present(Dir(pages, dir, j)) && FrameOf(Dir(pages, dir, j)) == x;
      assert j < k + 1;
    }
  }

  /** All tables, the first one included, and the directory: the frames of the space. */
  lemma AllTables(pages: seq<Page>, dir: nat)
    requires |pages| == ALL_PAGES && TablesApart(pages, dir) && Present(Dir(pages, dir, 0))
    ensures
      var low := FrameOf(Dir(pages, dir, 0));
      && SpaceFrames(pages, dir) == HighTables(pages, dir, PAGE_ENTRIES) + {low} + {dir}
      && low !in HighTables(pages, dir, PAGE_ENTRIES) && dir !in HighTables(pages, dir, PAGE_ENTRIES) && low != dir
  {
    var low, a, b := FrameOf(Dir(pages, dir, 0)), TablesFrom(pages, dir, 0), HighTables(pages, dir, PAGE_ENTRIES);
    assert low in a;
    forall x | x in b ensures x in a && x != low && x != dir {
      var j :| 1 <= j < PAGE_ENTRIES && Present(Dir(pages, dir, j)) && FrameOf(Dir(pages, dir, j)) == x;
    }
    forall x | x in a ensures x in b + {low} {
      var j :| 0 <= j < PAGE_ENTRIES && Present(Dir(pages, dir, j)) && FrameOf(Dir(pages, dir, j)) == x;
    }
  }

  /** The loop of address_space_destroy: every table but the first is freed, each exactly once. */
  method FreeHighTables(m: Memory, dir: nat)
    requires m.Valid() && TablesApart(m.pages, dir) && SpaceFrames(m.pages, dir) <= m.used
    modifies m
    ensures m.Valid() && Only(old(m.pages), m.pages, {dir})
    ensures m.used == old(m.used) - HighTables(old(m.pages), dir, PAGE_ENTRIES)
  {
    ghost var pages, used := m.pages, m.used;
    for k := 1 to PAGE_ENTRIES
      invariant m.Valid() && Only(pages, m.pages, {dir}) && m.used == used - HighTables(pages, dir, k)
      invariant forall j :: k <= j < PAGE_ENTRIES ==> Dir(m.pages, dir, j) == Dir(pages, dir, j)
    {
      var pde := Dir(m.pages, dir, k);
      HighTablesNext(pages, dir, k);
      if Present(pde) {
        assert FrameOf(pde) in m.used;
        FreeFrame(m, FrameOf(pde) * FRAME_SIZE);
        forall j | k + 1 <= j < PAGE_ENTRIES ensures Entry(SetEntry(m.pages[dir], k, 0), j) == Entry(m.pages[dir], j) {
          SetEntryAt(m.pages[dir], k, 0, j);
        }
        m.pages := m.pages[dir := SetEntry(m.pages[dir], k, 0)];
      }
    }
  }

  /** A space of the pool as the kernel made it: its first table is the low one. */
  ghost predicate UserSpace(pages: seq<Page>, s: Space) {
    SpaceOk(pages, s.dir) && Present(Dir(pages, s.dir, 0)) && FrameOf(Dir(pages, s.dir, 0)) == s.low
  }

  /** address_space_destroy: exactly the frames of the space are freed. */
  method Destroy(m: Memory, a: Spaces, i: int)
    requires m.Valid() && i < |a.user|
    requires i >= 0 && a.user[i].dir != 0 ==> UserSpace(m.pages, a.user[i]) && SpaceFrames(m.pages, a.user[i].dir) <= m.used
    requires i >= 0 && a.user[i].dir == 0 ==> a.user[i].low == 0
    modifies m, a`user
    ensures m.Valid() && |a.user| == old(|a.user|)
    ensures i < 0 ==> a.user == old(a.user) && m.used == old(m.used) && m.pages == old(m.pages)
    ensures i >= 0 ==> a.user == old(a.user)[i := NO_SPACE]
    ensures i >= 0 && old(a.user[i].dir) == 0 ==> m.used == old(m.used) && m.pages == old(m.pages)
    ensures i >= 0 && old(a.user[i].dir) != 0 ==>
      && m.used == old(m.used) - SpaceFrames(old(m.pages), old(a.user[i].dir))
      && Only(old(m.pages), m.pages, {old(a.user[i].dir)})
  {
    if i >= 0 && a.user[i].dir != 0 {
      var s := a.user[i];
      AllTables(m.pages, s.dir);
      FreeHighTables(m, s.dir);
      FreeFrame(m, s.low * FRAME_SIZE);
      FreeFrame(m, s.dir * FRAME_SIZE);
      a.user := a.user[i := NO_SPACE];
    }
  }
}
