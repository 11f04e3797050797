/** Two-level page tables as values: a directory of 1024 entries, each naming a table of 1024 entries, and the flat
    map from pages to frames they stand for (section 4.3 of the Intel SDM, volume 3A). */
module PageTables {
  import opened Bytes
  import opened Frames

  const PAGE_ENTRIES := 1024
  const PAGE_COUNT := 0x10_0000
  const RW_USER := 6

  function Entry(p: Page, i: nat): u32
    requires i < PAGE_ENTRIES
  {
    U32At(p, 4 * i)
  }

  function SetEntry(p: Page, i: nat, v: u32): Page
    requires i < PAGE_ENTRIES
  {
    Patch(p, 4 * i, U32Bytes(v))
  }

  lemma SetEntryAt(p: Page, i: nat, v: u32, j: nat)
    requires i < PAGE_ENTRIES && j < PAGE_ENTRIES
    ensures Entry(SetEntry(p, i, v), j) == if j == i then v else Entry(p, j)
  {
    var q, b := SetEntry(p, i, v), U32Bytes(v);
    assert j == i ==> forall k :: 0 <= k < 4 ==> q[4 * i + k] == b[k];
  }

  /** A zeroed frame. */
  function Zeros(): Page {
    seq(FRAME_SIZE, _ => 0)
  }

  predicate Present(e: u32) {
    e % 2 == 1
  }

  predicate Writable(e: u32) {
    e / 2 % 2 == 1
  }

  predicate ForUser(e: u32) {
    e / 4 % 2 == 1
  }

  function FrameOf(e: u32): nat {
    e / FRAME_SIZE
  }

  /** (phys & PAGE_ADDR_MASK) | flags | PAGE_PRESENT, for flags in the low twelve bits. */
  function MakeEntry(frame: nat, flags: nat): u32
    requires frame < PAGE_COUNT && flags < FRAME_SIZE
  {
    frame * FRAME_SIZE + if flags % 2 == 1 then flags else flags + 1
  }

  lemma Halved(e: nat, q: nat, r: nat)
    requires e == 2 * q + r && r < 2
    ensures e / 2 == q && e % 2 == r
  {
  }

  lemma LowBits(frame: nat, low: nat)
    requires low < FRAME_SIZE
    ensures
      var e := frame * FRAME_SIZE + low;
      e / FRAME_SIZE == frame && e % 2 == low % 2 && e / 2 % 2 == low / 2 % 2 && e / 4 % 2 == low / 4 % 2
  {
    var e := frame * FRAME_SIZE + low;
    Halved(e, 2048 * frame + low / 2, low % 2);
    Halved(e / 2, 1024 * frame + low / 4, low / 2 % 2);
    Halved(e / 4, 512 * frame + low / 8, low / 4 % 2);
  }

  lemma MakeEntryFields(frame: nat, flags: nat)
    requires frame < PAGE_COUNT && flags < FRAME_SIZE
    ensures
      var e := MakeEntry(frame, flags);
      && Present(e) && FrameOf(e) == frame
      && (Writable(e) <==> flags / 2 % 2 == 1) && (ForUser(e) <==> flags / 4 % 2 == 1)
  {
    LowBits(frame, if flags % 2 == 1 then flags else flags + 1);
  }

  // ---- the flat map ----

  /** What a page of an address space stands for; a user may use it when both levels say so. */
  datatype Mapping = Unmapped | Mapped(frame: nat, writable: bool, user: bool)

  function Dir(pages: seq<Page>, dir: nat, i: nat): u32
    requires dir < |pages| && i < PAGE_ENTRIES
  {
    Entry(pages[dir], i)
  }

  function Translate(pages: seq<Page>, dir: nat, vp: nat): Mapping
    requires |pages| == ALL_PAGES && dir < ALL_PAGES && vp < PAGE_COUNT
  {
    var pde := Dir(pages, dir, vp / PAGE_ENTRIES);
    if !Present(pde) then Unmapped
    else
      var pte := Entry(pages[FrameOf(pde)], vp % PAGE_ENTRIES);
      if !Present(pte) then Unmapped
      else Mapped(FrameOf(pte), Writable(pde) && Writable(pte), ForUser(pde) && ForUser(pte))
  }

  /** An entry field by field: the frame above bit 12, bit 2 for users, bit 1 for writing, bit 0 for being there. */
  function EntryWord(frame: nat, other: nat, user: bool, writable: bool, present: bool): u32
    requires frame < 0x10_0000 && other < 512
  {
    4096 * frame + 8 * other + (if user then 4 else 0) + (if writable then 2 else 0) + if present then 1 else 0
  }

  lemma ThreeBits(other: nat, u: nat, w: nat, p: nat)
    requires u < 2 && w < 2 && p < 2
    ensures
      var low := 8 * other + 4 * u + 2 * w + p;
      low % 2 == p && low / 2 % 2 == w && low / 4 % 2 == u
  {
    var low := 8 * other + 4 * u + 2 * w + p;
    Halved(low, 4 * other + 2 * u + w, p);
    Halved(low / 2, 2 * other + u, w);
    Halved(low / 4, other, u);
  }

  lemma EntryWordFields(frame: nat, other: nat, user: bool, writable: bool, present: bool)
    requires frame < 0x10_0000 && other < 512
    ensures
      var e := EntryWord(frame, other, user, writable, present);
      FrameOf(e) == frame && (ForUser(e) <==> user) && (Writable(e) <==> writable) && (Present(e) <==> present)
  {
    var u, w, p := if user then 1 else 0, if writable then 1 else 0, if present then 1 else 0;
    ThreeBits(other, u, w, p);
    LowBits(frame, 8 * other + 4 * u + 2 * w + p);
  }

  /** The walk of the processor for an address: its top ten bits pick a word of the directory, the next ten a word of the table
      that names, and that names the frame. */
  lemma Walk(pages: seq<Page>, dir: nat, hi: nat, mid: nat, low: nat, table: nat, frame: nat,
             o1: nat, u1: bool, w1: bool, p1: bool, o2: nat, u2: bool, w2: bool, p2: bool)
    requires |pages| == ALL_PAGES && dir < ALL_PAGES && hi < 1024 && mid < 1024 && low < 4096
    requires table < 0x10_0000 && frame < 0x10_0000 && o1 < 512 && o2 < 512
    requires U32At(pages[dir], 4 * hi) == EntryWord(table, o1, u1, w1, p1) && U32At(pages[table], 4 * mid) == EntryWord(frame, o2, u2, w2, p2)
    ensures
      var va := 0x40_0000 * hi + 0x1000 * mid + low;
      va / FRAME_SIZE < PAGE_COUNT && Translate(pages, dir, va / FRAME_SIZE) == if p1 && p2 then Mapped(frame, w1 && w2, u1 && u2) else Unmapped
  {
    EntryWordFields(table, o1, u1, w1, p1);
    EntryWordFields(frame, o2, u2, w2, p2);
    assert (0x40_0000 * hi + 0x1000 * mid + low) / FRAME_SIZE == 1024 * hi + mid;
    assert (1024 * hi + mid) / PAGE_ENTRIES == hi && (1024 * hi + mid) % PAGE_ENTRIES == mid;
  }

  /** Each directory entry has a table of its own. */
  ghost predicate TablesApart(pages: seq<Page>, dir: nat)
    requires |pages| == ALL_PAGES
  {
    && 0 < dir < NUM_FRAMES
    && (forall i :: 0 <= i < PAGE_ENTRIES && Present(Dir(pages, dir, i)) ==>
          0 < FrameOf(Dir(pages, dir, i)) < NUM_FRAMES && FrameOf(Dir(pages, dir, i)) != dir)
    && (forall i, j :: 0 <= i < j < PAGE_ENTRIES && Present(Dir(pages, dir, i)) && Present(Dir(pages, dir, j)) ==>
          FrameOf(Dir(pages, dir, i)) != FrameOf(Dir(pages, dir, j)))
  }

  /** The frames of the tables from entry `from` on. */
  ghost function TablesFrom(pages: seq<Page>, dir: nat, from: nat): set<nat>
    requires dir < |pages|
  {
    set i | from <= i < PAGE_ENTRIES && Present(Dir(pages, dir, i)) :: FrameOf(Dir(pages, dir, i))
  }

  /** The frames an address space is made of. */
  ghost function SpaceFrames(pages: seq<Page>, dir: nat): set<nat>
    requires dir < |pages|
  {
    {dir} + TablesFrom(pages, dir, 0)
  }

  lemma TableIn(pages: seq<Page>, dir: nat, i: nat)
    requires dir < |pages| && i < PAGE_ENTRIES && Present(Dir(pages, dir, i))
    ensures FrameOf(Dir(pages, dir, i)) in SpaceFrames(pages, dir)
  {
    assert FrameOf(Dir(pages, dir, i)) in TablesFrom(pages, dir, 0);
  }

  lemma TranslateSame(pages: seq<Page>, pages': seq<Page>, dir: nat, vp: nat)
    requires |pages| == |pages'| == ALL_PAGES && dir < ALL_PAGES && vp < PAGE_COUNT
    requires forall f :: f in SpaceFrames(pages, dir) && f < ALL_PAGES ==> pages'[f] == pages[f]
    ensures Translate(pages', dir, vp) == Translate(pages, dir, vp)
  {
    assert dir in SpaceFrames(pages, dir);
    if Present(Dir(pages, dir, vp / PAGE_ENTRIES)) {
      TableIn(pages, dir, vp / PAGE_ENTRIES);
    }
  }

  /** Writing frames outside an address space changes nothing in it. */
  lemma SpaceUntouched(pages: seq<Page>, pages': seq<Page>, dir: nat)
    requires |pages| == |pages'| == ALL_PAGES && TablesApart(pages, dir)
    requires forall f :: f in SpaceFrames(pages, dir) && f < ALL_PAGES ==> pages'[f] == pages[f]
    ensures TablesApart(pages', dir) && SpaceFrames(pages', dir) == SpaceFrames(pages, dir)
    ensures forall vp :: 0 <= vp < PAGE_COUNT ==> Translate(pages', dir, vp) == Translate(pages, dir, vp)
  {
    assert dir in SpaceFrames(pages, dir);
    assert forall i :: 0 <= i < PAGE_ENTRIES ==> Dir(pages', dir, i) == Dir(pages, dir, i);
    forall vp | 0 <= vp < PAGE_COUNT ensures Translate(pages', dir, vp) == Translate(pages, dir, vp) {
      TranslateSame(pages, pages', dir, vp);
    }
  }

  // ---- changing one page ----

  /** The table entry of a page is set; its table is there. */
  ghost function WithPte(pages: seq<Page>, dir: nat, vp: nat, v: u32): seq<Page>
    requires |pages| == ALL_PAGES && dir < ALL_PAGES && vp < PAGE_COUNT
  {
    var t := FrameOf(Dir(pages, dir, vp / PAGE_ENTRIES));
    pages[t := SetEntry(pages[t], vp % PAGE_ENTRIES, v)]
  }

  ghost function Leaf(pde: u32, pte: u32): Mapping {
    Mapped(FrameOf(pte), Writable(pde) && Writable(pte), ForUser(pde) && ForUser(pte))
  }

  lemma WithPteDir(pages: seq<Page>, dir: nat, vp: nat, v: u32)
    requires |pages| == ALL_PAGES && TablesApart(pages, dir) && vp < PAGE_COUNT && Present(Dir(pages, dir, vp / PAGE_ENTRIES))
    ensures WithPte(pages, dir, vp, v)[dir] == pages[dir]
    ensures TablesApart(WithPte(pages, dir, vp, v), dir)
    ensures SpaceFrames(WithPte(pages, dir, vp, v), dir) == SpaceFrames(pages, dir)
  {
    var pages' := WithPte(pages, dir, vp, v);
    assert pages'[dir] == pages[dir];
    assert forall i :: 0 <= i < PAGE_ENTRIES ==> Dir(pages', dir, i) == Dir(pages, dir, i);
  }

  /** Exactly one page's translation changes. */
  lemma WithPteTranslate(pages: seq<Page>, dir: nat, vp: nat, v: u32, x: nat)
    requires |pages| == ALL_PAGES && TablesApart(pages, dir) && vp < PAGE_COUNT && x < PAGE_COUNT
    requires Present(Dir(pages, dir, vp / PAGE_ENTRIES)) && Present(v)
    ensures Translate(WithPte(pages, dir, vp, v), dir, x)
      == if x == vp then Leaf(Dir(pages, dir, vp / PAGE_ENTRIES), v) else Translate(pages, dir, x)
  {
    WithPteDir(pages, dir, vp, v);
    var a, b := vp / PAGE_ENTRIES, x / PAGE_ENTRIES;
    SetEntryAt(pages[FrameOf(Dir(pages, dir, a))], vp % PAGE_ENTRIES, v, x % PAGE_ENTRIES);
    if a != b && Present(Dir(pages, dir, b)) {
      assert FrameOf(Dir(pages, dir, a)) != FrameOf(Dir(pages, dir, b));
    }
  }

  // ---- a fresh table ----

  /** A zeroed table in frame f is entered in the directory. */
  ghost function WithTable(pages: seq<Page>, dir: nat, i: nat, f: nat): seq<Page>
    requires |pages| == ALL_PAGES && dir < ALL_PAGES && i < PAGE_ENTRIES && f < NUM_FRAMES
  {
    pages[f := Zeros()][dir := SetEntry(pages[dir], i, MakeEntry(f, RW_USER))]
  }

  lemma ZerosEntry(j: nat)
    requires j < PAGE_ENTRIES
    ensures Entry(Zeros(), j) == 0
  {
  }

  lemma WithTableDir(pages: seq<Page>, dir: nat, i: nat, f: nat, j: nat)
    requires |pages| == ALL_PAGES && dir < ALL_PAGES && i < PAGE_ENTRIES && f < NUM_FRAMES && f != dir && j < PAGE_ENTRIES
    ensures Dir(WithTable(pages, dir, i, f), dir, j) == if j == i then MakeEntry(f, RW_USER) else Dir(pages, dir, j)
  {
    SetEntryAt(pages[dir], i, MakeEntry(f, RW_USER), j);
  }

  lemma WithTableApart(pages: seq<Page>, dir: nat, i: nat, f: nat)
    requires |pages| == ALL_PAGES && TablesApart(pages, dir) && i < PAGE_ENTRIES && !Present(Dir(pages, dir, i))
    requires 0 < f < NUM_FRAMES && f !in SpaceFrames(pages, dir)
    ensures TablesApart(WithTable(pages, dir, i, f), dir)
    ensures Dir(WithTable(pages, dir, i, f), dir, i) == MakeEntry(f, RW_USER)
  {
    var pages' := WithTable(pages, dir, i, f);
    assert dir in SpaceFrames(pages, dir);
    MakeEntryFields(f, RW_USER);
    forall j | 0 <= j < PAGE_ENTRIES
      ensures Dir(pages', dir, j) == if j == i then MakeEntry(f, RW_USER) else Dir(pages, dir, j)
      ensures Present(Dir(pages, dir, j)) ==> FrameOf(Dir(pages, dir, j)) != f
    {
      WithTableDir(pages, dir, i, f, j);
      if Present(Dir(pages, dir, j)) {
        TableIn(pages, dir, j);
      }
    }
  }

  lemma WithTableFrames(pages: seq<Page>, dir: nat, i: nat, f: nat)
    requires |pages| == ALL_PAGES && TablesApart(pages, dir) && i < PAGE_ENTRIES && !Present(Dir(pages, dir, i))
    requires 0 < f < NUM_FRAMES && f !in SpaceFrames(pages, dir)
    ensures SpaceFrames(WithTable(pages, dir, i, f), dir) == SpaceFrames(pages, dir) + {f}
  {
    var pages' := WithTable(pages, dir, i, f);
    assert dir in SpaceFrames(pages, dir);
    MakeEntryFields(f, RW_USER);
    forall j | 0 <= j < PAGE_ENTRIES
      ensures Dir(pages', dir, j) == if j == i then MakeEntry(f, RW_USER) else Dir(pages, dir, j)
    {
      WithTableDir(pages, dir, i, f, j);
    }
    var a, b := TablesFrom(pages, dir, 0), TablesFrom(pages', dir, 0);
    forall x | x in a ensures x in b {
      var j :| 0 <= j < PAGE_ENTRIES && Present(Dir(pages, dir, j)) && FrameOf(Dir(pages, dir, j)) == x;
      assert Dir(pages', dir, j) == Dir(pages, dir, j);
    }
    assert FrameOf(Dir(pages', dir, i)) == f && f in b;
    forall x | x in b ensures x in a + {f} {
      var j :| 0 <= j < PAGE_ENTRIES && Present(Dir(pages', dir, j)) && FrameOf(Dir(pages', dir, j)) == x;
      assert j != i ==> Dir(pages', dir, j) == Dir(pages, dir, j);
    }
  }

  /** A fresh table maps nothing. */
  lemma WithTableTranslate(pages: seq<Page>, dir: nat, i: nat, f: nat, vp: nat)
    requires |pages| == ALL_PAGES && TablesApart(pages, dir) && i < PAGE_ENTRIES && !Present(Dir(pages, dir, i))
    requires 0 < f < NUM_FRAMES && f !in SpaceFrames(pages, dir) && vp < PAGE_COUNT
    ensures Translate(WithTable(pages, dir, i, f), dir, vp) == Translate(pages, dir, vp)
  {
    var a := vp / PAGE_ENTRIES;
    assert dir in SpaceFrames(pages, dir);
    MakeEntryFields(f, RW_USER);
    WithTableDir(pages, dir, i, f, a);
    ZerosEntry(vp % PAGE_ENTRIES);
    if a != i && Present(Dir(pages, dir, a)) {
      TableIn(pages, dir, a);
    }
  }
}
