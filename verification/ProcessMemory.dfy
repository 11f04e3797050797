/** The frames of a user process: the frames of its address space and those its pages stand for. */
module ProcessMemory {
  import opened Bytes
  import opened Folding
  import opened Frames
  import opened PageTables
  import opened Paging

  /** A page of a program: its bytes, and whether the program may write to it. */
  datatype Cell = Cell(bytes: Page, writable: bool)

  /** What the user pages of a space hold. */
  type Contents = map<nat, Cell>

  /** The user pages of the space are those of img, with its contents, in frames of `data`. */
  ghost predicate Holds(pages: seq<Page>, dir: nat, data: set<nat>, img: Contents)
    requires |pages| == ALL_PAGES && dir < ALL_PAGES
  {
    forall vp :: 0 <= vp < PAGE_COUNT ==>
      && (UserPage(pages, dir, vp) <==> vp in img)
      && (vp in img ==>
            && Translate(pages, dir, vp).frame in data && pages[Translate(pages, dir, vp).frame] == img[vp].bytes
            && Translate(pages, dir, vp).writable == img[vp].writable)
  }

  /** No two user pages stand for the same frame. */
  ghost predicate OneToOne(pages: seq<Page>, dir: nat)
    requires |pages| == ALL_PAGES && dir < ALL_PAGES
  {
    forall vp, vq :: 0 <= vp < PAGE_COUNT && 0 <= vq < PAGE_COUNT && UserPage(pages, dir, vp) && UserPage(pages, dir, vq) ==>
      Translate(pages, dir, vp).frame == Translate(pages, dir, vq).frame ==> vp == vq
  }

  ghost predicate FoldedOne(pages: seq<Page>, dir: nat) {
    |pages| == ALL_PAGES && dir < ALL_PAGES && forall k :: Asked(k) ==> OneToOne(pages, dir)
  }

  lemma OneNone(pages: seq<Page>, dir: nat)
    requires |pages| == ALL_PAGES && dir < ALL_PAGES && forall vp :: 0 <= vp < PAGE_COUNT ==> !UserPage(pages, dir, vp)
    ensures FoldedOne(pages, dir)
  {
  }

  lemma OneSame(pages: seq<Page>, pages': seq<Page>, dir: nat)
    requires FoldedOne(pages, dir) && |pages'| == ALL_PAGES
    requires forall vp :: 0 <= vp < PAGE_COUNT ==> Translate(pages', dir, vp) == Translate(pages, dir, vp)
    ensures FoldedOne(pages', dir)
  {
    assert Asked(0);
  }

  lemma OneMap(pages: seq<Page>, pages': seq<Page>, dir: nat, vp: nat, f: nat, writable: bool)
    requires FoldedOne(pages, dir) && |pages'| == ALL_PAGES && vp < PAGE_COUNT && NotMapped(pages, dir, f)
    requires MapsOne(pages, pages', dir, vp, Mapped(f, writable, true))
    ensures FoldedOne(pages', dir)
  {
    assert Asked(0);
    forall x, y | 0 <= x < PAGE_COUNT && 0 <= y < PAGE_COUNT && UserPage(pages', dir, x) && UserPage(pages', dir, y)
      && Translate(pages', dir, x).frame == Translate(pages', dir, y).frame
      ensures x == y
    {
      assert x != vp ==> UserPage(pages, dir, x);
      assert y != vp ==> UserPage(pages, dir, y);
    }
  }

  /** No user page stands for frame f. */
  ghost predicate NotMapped(pages: seq<Page>, dir: nat, f: nat)
    requires |pages| == ALL_PAGES && dir < ALL_PAGES
  {
    forall vp :: 0 <= vp < PAGE_COUNT && UserPage(pages, dir, vp) ==> Translate(pages, dir, vp).frame != f
  }

  /** The frames taken since (used0, pages0) are exactly those of the space and `data`, and are all that was written. */
  ghost predicate Taken1(used0: set<nat>, pages0: seq<Page>, used: set<nat>, pages: seq<Page>, dir: nat, data: set<nat>)
    requires dir < |pages|
  {
    var space := SpaceFrames(pages, dir);
    var apart := used0 !! space && used0 !! data && space !! data;
    apart && used == used0 + space + data && KeepsUsed(pages0, pages, used0)
  }

  /** A process being loaded since (used0, pages0). */
  ghost predicate Loading(used0: set<nat>, pages0: seq<Page>, used: set<nat>, pages: seq<Page>, s: Space, data: set<nat>, img: Contents) {
    var sound := UserSpace(pages, s) && (forall f :: f in data ==> 0 < f < NUM_FRAMES);
    sound && Taken1(used0, pages0, used, pages, s.dir, data) && Holds(pages, s.dir, data, img) && FoldedOne(pages, s.dir)
  }

  /** A fresh space starts a load. */
  lemma StartLoading(used: set<nat>, pages: seq<Page>, used': set<nat>, pages': seq<Page>, s: Space)
    requires Created(used, pages, used', pages', s)
    ensures Loading(used, pages, used', pages', s, {}, map[])
  {
    OneNone(pages', s.dir);
  }

  /** A frame is allocated to the process. */
  lemma LoadAlloc(used0: set<nat>, pages0: seq<Page>, used: set<nat>, pages: seq<Page>, s: Space, data: set<nat>, img: Contents, f: nat)
    requires Loading(used0, pages0, used, pages, s, data, img) && f !in used && 0 < f < NUM_FRAMES
    ensures Loading(used0, pages0, used + {f}, pages, s, data + {f}, img) && NotMapped(pages, s.dir, f)
  {
  }

  /** A frame that no page stands for is given back. */
  lemma LoadFree(used0: set<nat>, pages0: seq<Page>, used: set<nat>, pages: seq<Page>, s: Space, data: set<nat>, img: Contents, f: nat)
    requires Loading(used0, pages0, used, pages, s, data + {f}, img) && f !in data && NotMapped(pages, s.dir, f)
    ensures Loading(used0, pages0, used - {f}, pages, s, data, img)
  {
    assert f in data + {f};
  }

  lemma SpaceKept(pages: seq<Page>, f: nat, content: Page, s: Space)
    requires UserSpace(pages, s) && f < ALL_PAGES && f !in SpaceFrames(pages, s.dir)
    ensures
      var pages' := pages[f := content];
      && UserSpace(pages', s) && SpaceFrames(pages', s.dir) == SpaceFrames(pages, s.dir)
      && forall vp :: 0 <= vp < PAGE_COUNT ==> Translate(pages', s.dir, vp) == Translate(pages, s.dir, vp)
  {
    var pages' := pages[f := content];
    assert s.dir in SpaceFrames(pages, s.dir);
    SpaceUntouched(pages, pages', s.dir);
    SameDirOk(pages, pages', s.dir);
  }

  /** A frame of the process that no page stands for yet is written. */
  lemma LoadWrite(used0: set<nat>, pages0: seq<Page>, used: set<nat>, pages: seq<Page>, s: Space, data: set<nat>, img: Contents,
                  f: nat, content: Page)
    requires Loading(used0, pages0, used, pages, s, data, img) && f in data && NotMapped(pages, s.dir, f)
    ensures Loading(used0, pages0, used, pages[f := content], s, data, img) && NotMapped(pages[f := content], s.dir, f)
  {
    SpaceKept(pages, f, content, s);
    OneSame(pages, pages[f := content], s.dir);
  }

  /** Mapping leaves the first table where it is. */
  lemma MappedUserSpace(used: set<nat>, pages: seq<Page>, used': set<nat>, pages': seq<Page>, s: Space, vp: nat, leaf: Mapping)
    requires UserSpace(pages, s) && |pages'| == ALL_PAGES && Mapped1(used, pages, used', pages', s.dir, vp, leaf)
    ensures UserSpace(pages', s)
  {
  }

  /** A frame of the process is mapped at page vp, for the user. */
  lemma LoadMap(used0: set<nat>, pages0: seq<Page>, used: set<nat>, pages: seq<Page>, s: Space, data: set<nat>, img: Contents,
                used': set<nat>, pages': seq<Page>, vp: nat, f: nat, writable: bool)
    requires Loading(used0, pages0, used, pages, s, data, img) && f in data && NotMapped(pages, s.dir, f)
    requires |pages'| == ALL_PAGES && vp < PAGE_COUNT
    requires Mapped1(used, pages, used', pages', s.dir, vp, Mapped(f, writable, true))
    ensures Loading(used0, pages0, used', pages', s, data, img[vp := Cell(pages[f], writable)])
  {
    MappedUserSpace(used, pages, used', pages', s, vp, Mapped(f, writable, true));
    assert s.dir in SpaceFrames(pages, s.dir);
    LoadMapTaken(used0, pages0, used, pages, s, data, img, used', pages', vp, f, writable);
    LoadMapHolds(pages, s.dir, data, img, pages', vp, f, writable);
    OneMap(pages, pages', s.dir, vp, f, writable);
  }

  lemma LoadMapTaken(used0: set<nat>, pages0: seq<Page>, used: set<nat>, pages: seq<Page>, s: Space, data: set<nat>, img: Contents,
                     used': set<nat>, pages': seq<Page>, vp: nat, f: nat, writable: bool)
    requires Loading(used0, pages0, used, pages, s, data, img) && f in data
    requires |pages'| == ALL_PAGES && vp < PAGE_COUNT
    requires Mapped1(used, pages, used', pages', s.dir, vp, Mapped(f, writable, true))
    ensures Taken1(used0, pages0, used', pages', s.dir, data)
    ensures forall x :: x in data ==> pages'[x] == pages[x]
  {
  }

  lemma LoadMapHolds(pages: seq<Page>, dir: nat, data: set<nat>, img: Contents, pages': seq<Page>, vp: nat, f: nat, writable: bool)
    requires |pages| == |pages'| == ALL_PAGES && dir < ALL_PAGES && vp < PAGE_COUNT && f in data && f < ALL_PAGES
    requires Holds(pages, dir, data, img) && MapsOne(pages, pages', dir, vp, Mapped(f, writable, true))
    requires forall x :: x in data && x < ALL_PAGES ==> pages'[x] == pages[x]
    ensures Holds(pages', dir, data, img[vp := Cell(pages[f], writable)])
  {
  }

  // ---- what a load can draw on ----

  /** The directory entries that have a table, and the number of free frames; below 0 there were too few. */
  datatype Supply = Supply(have: set<nat>, left: int)

  /** The frames it takes to map a page: its own, and a table's if there is none. */
  function Price(s: Supply, vp: nat): nat {
    if DirIndex(vp) in s.have then 1 else 2
  }

  function Spend(s: Supply, vp: nat): Supply {
    Supply(s.have + {DirIndex(vp)}, s.left - Price(s, vp))
  }

  ghost predicate Tabled(pages: seq<Page>, dir: nat, have: set<nat>) {
    dir < |pages| && forall i :: 0 <= i < PAGE_ENTRIES ==> (Present(Dir(pages, dir, i)) <==> i in have)
  }

  ghost predicate FoldedTabled(pages: seq<Page>, dir: nat, have: set<nat>) {
    forall k :: Asked(k) ==> Tabled(pages, dir, have)
  }

  /** This is what there is. */
  ghost predicate Stocked(used: set<nat>, pages: seq<Page>, dir: nat, s: Supply) {
    Left(used) == s.left && FoldedTabled(pages, dir, s.have)
  }

  lemma TabledAt(pages: seq<Page>, dir: nat, have: set<nat>, i: nat)
    requires FoldedTabled(pages, dir, have) && i < PAGE_ENTRIES
    ensures dir < |pages| && TablePrice(pages, dir, i) == if i in have then 0 else 1
  {
    assert Asked(0);
  }

  lemma TabledMore(pages: seq<Page>, pages': seq<Page>, dir: nat, have: set<nat>, i: nat)
    requires FoldedTabled(pages, dir, have) && dir < |pages| && dir < |pages'| && TableAdded(pages, pages', dir, i)
    ensures FoldedTabled(pages', dir, have + {i})
  {
    assert Asked(0);
  }

  lemma TabledSame(pages: seq<Page>, pages': seq<Page>, dir: nat, have: set<nat>)
    requires FoldedTabled(pages, dir, have) && dir < |pages| && dir < |pages'| && pages'[dir] == pages[dir]
    ensures FoldedTabled(pages', dir, have)
  {
    assert Asked(0);
    assert forall i :: 0 <= i < PAGE_ENTRIES ==> Dir(pages', dir, i) == Dir(pages, dir, i);
  }

  lemma TabledNew(used: set<nat>, pages: seq<Page>, used': set<nat>, pages': seq<Page>, s: Space)
    requires Created(used, pages, used', pages', s)
    ensures FoldedTabled(pages', s.dir, {0})
  {
    forall i | 0 < i < PAGE_ENTRIES ensures !Present(Dir(pages', s.dir, i)) {
      if Present(Dir(pages', s.dir, i)) {
        TableIn(pages', s.dir, i);
      }
    }
  }

  // ---- the same, folded, for methods that only pass it on ----

  ghost predicate Folded(used0: set<nat>, pages0: seq<Page>, used: set<nat>, pages: seq<Page>, s: Space, data: set<nat>, img: Contents) {
    forall k :: Asked(k) ==> Loading(used0, pages0, used, pages, s, data, img)
  }

  /** Frame f has been taken for the process, but no page stands for it yet. */
  ghost predicate InHand(used0: set<nat>, pages0: seq<Page>, used: set<nat>, pages: seq<Page>, s: Space, data: set<nat>, img: Contents, f: nat) {
    && 0 < f < NUM_FRAMES && f !in data
    && forall k :: Asked(k) ==> Loading(used0, pages0, used, pages, s, data + {f}, img) && NotMapped(pages, s.dir, f)
  }

  lemma Unfold(used0: set<nat>, pages0: seq<Page>, used: set<nat>, pages: seq<Page>, s: Space, data: set<nat>, img: Contents)
    requires Folded(used0, pages0, used, pages, s, data, img)
    ensures Loading(used0, pages0, used, pages, s, data, img)
  {
    assert Asked(0);
  }

  lemma UnfoldHand(used0: set<nat>, pages0: seq<Page>, used: set<nat>, pages: seq<Page>, s: Space, data: set<nat>, img: Contents, f: nat)
    requires InHand(used0, pages0, used, pages, s, data, img, f)
    ensures Loading(used0, pages0, used, pages, s, data + {f}, img) && NotMapped(pages, s.dir, f) && f in data + {f}
  {
    assert Asked(0);
  }

  /** alloc_frame on behalf of a process. */
  method TakeFrame(m: Memory, ghost used0: set<nat>, ghost pages0: seq<Page>, ghost s: Space, ghost data: set<nat>, ghost img: Contents)
    returns (f: nat)
    requires m.Valid() && Folded(used0, pages0, m.used, m.pages, s, data, img)
    modifies m
    ensures m.Valid() && m.pages == old(m.pages)
    ensures if f == 0 then Folded(used0, pages0, m.used, m.pages, s, data, img)
            else InHand(used0, pages0, m.used, m.pages, s, data, img, f)
    ensures if f == 0 then Left(old(m.used)) == 0 else Left(m.used) + 1 == Left(old(m.used))
  {
    ghost var used := m.used;
    LeftNone(used);
    var addr := AllocFrame(m);
    f := addr / FRAME_SIZE;
    if f != 0 {
      LeftTake(used, f);
      Unfold(used0, pages0, used, m.pages, s, data, img);
      LoadAlloc(used0, pages0, used, m.pages, s, data, img, f);
    }
  }

  /** The frame in hand is written. */
  method WriteFrame(m: Memory, f: nat, page: Page, ghost used0: set<nat>, ghost pages0: seq<Page>, ghost s: Space, ghost data: set<nat>,
                    ghost img: Contents)
    requires m.Valid() && InHand(used0, pages0, m.used, m.pages, s, data, img, f)
    modifies m`pages
    ensures m.Valid() && InHand(used0, pages0, m.used, m.pages, s, data, img, f) && m.pages[f] == page
    ensures s.dir < ALL_PAGES && m.pages[s.dir] == old(m.pages)[s.dir]
  {
    UnfoldHand(used0, pages0, m.used, m.pages, s, data, img, f);
    LoadWrite(used0, pages0, m.used, m.pages, s, data + {f}, img, f, page);
    assert s.dir in SpaceFrames(m.pages, s.dir);
    m.pages := m.pages[f := page];
  }

  /** The frame in hand is mapped for the user at page vp; when that fails it is given back. */
  method MapFrame(m: Memory, dir: nat, va: u32, f: nat, flags: nat, ghost used0: set<nat>, ghost pages0: seq<Page>, ghost s: Space,
                  ghost data: set<nat>, ghost img: Contents, ghost vp: nat)
    returns (ok: bool)
    requires m.Valid() && InHand(used0, pages0, m.used, m.pages, s, data, img, f)
    requires dir == s.dir && flags < FRAME_SIZE && flags / 4 % 2 == 1 && vp == va / FRAME_SIZE
    modifies m
    ensures m.Valid() && s.dir < ALL_PAGES
    ensures if ok then Folded(used0, pages0, m.used, m.pages, s, data + {f}, img[vp := Cell(old(m.pages)[f], flags / 2 % 2 == 1)])
            else Folded(used0, pages0, m.used, m.pages, s, data, img)
    ensures ok <==> TablePrice(old(m.pages), s.dir, DirIndex(vp)) <= Left(old(m.used))
    ensures ok ==>
      TableAdded(old(m.pages), m.pages, s.dir, DirIndex(vp)) && Left(m.used) + TablePrice(old(m.pages), s.dir, DirIndex(vp)) == Left(old(m.used))
  {
    UnfoldHand(used0, pages0, m.used, m.pages, s, data, img, f);
    ghost var used, pages := m.used, m.pages;
    ok := MapPage(m, dir, va, f * FRAME_SIZE, flags);
    if ok {
      LoadMap(used0, pages0, used, pages, s, data + {f}, img, m.used, m.pages, vp, f, flags / 2 % 2 == 1);
    } else {
      LoadFree(used0, pages0, m.used, m.pages, s, data, img, f);
      FreeFrame(m, f * FRAME_SIZE);
    }
  }

  /** A frame is taken, filled and mapped for the user at page vp; 0 when there is none, or none for the table it needs. */
  method PlaceFrame(m: Memory, dir: nat, va: u32, page: Page, flags: nat, ghost used0: set<nat>, ghost pages0: seq<Page>, ghost s: Space,
                    ghost data: set<nat>, ghost img: Contents, ghost vp: nat, ghost cell: Cell, ghost sup: Supply)
    returns (f: nat)
    requires m.Valid() && Folded(used0, pages0, m.used, m.pages, s, data, img) && Stocked(m.used, m.pages, s.dir, sup)
    requires cell == Cell(page, flags / 2 % 2 == 1)
    requires dir == s.dir && flags < FRAME_SIZE && flags / 4 % 2 == 1 && vp == va / FRAME_SIZE
    modifies m
    ensures m.Valid() && (f != 0 <==> Price(sup, vp) <= sup.left)
    ensures if f == 0 then Folded(used0, pages0, m.used, m.pages, s, data, img)
            else f !in data && Folded(used0, pages0, m.used, m.pages, s, data + {f}, img[vp := cell])
    ensures f != 0 ==> Stocked(m.used, m.pages, s.dir, Spend(sup, vp))
  {
    f := TakeFrame(m, used0, pages0, s, data, img);
    if f != 0 {
      ghost var taken := m.pages;
      WriteFrame(m, f, page, used0, pages0, s, data, img);
      TabledSame(taken, m.pages, s.dir, sup.have);
      TabledAt(m.pages, s.dir, sup.have, DirIndex(vp));
      ghost var written := m.pages;
      var ok := MapFrame(m, dir, va, f, flags, used0, pages0, s, data, img, vp);
      if ok {
        TabledMore(written, m.pages, s.dir, sup.have, DirIndex(vp));
      } else {
        f := 0;
      }
    }
  }
}
