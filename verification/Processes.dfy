/** Starting and clearing processes: every frame taken is given back, and processes do not share frames. */
module Processes {
  import opened Sequences
  import opened Bytes
  import opened Frames
  import opened PageTables
  import opened Paging
  import opened ProcessMemory
  import opened Elf
  import opened InitialStack
  import opened Loader

  const STACK_PAGE := STACK_START / FRAME_SIZE

  // ---- the stack ----

  /** The memory of a program that has its stack page only, which it may write to. */
  function StackOnly(stack: Page): Contents {
    map[STACK_PAGE := Cell(stack, true)]
  }

  /** user_process_map_stack, on a process that has no frames yet. */
  method MapStack(m: Memory, a: Spaces, p: Process, ghost used0: set<nat>, ghost pages0: seq<Page>, ghost sup: Supply) returns (ok: bool)
    requires InLoad(m, a, p, used0, pages0, map[]) && p.Frames() == [] && p.stackFrame == 0 && InStock(m, a, p, sup)
    modifies m, p`stackFrame
    ensures ok <==> Price(sup, STACK_PAGE) <= sup.left
    ensures !ok ==> InLoad(m, a, p, used0, pages0, map[]) && p.stackFrame == 0
    ensures ok ==>
      InLoad(m, a, p, used0, pages0, StackOnly(Zeros())) && p.Frames() == [p.stackFrame] && InStock(m, a, p, Spend(sup, STACK_PAGE))
  {
    ghost var none: Contents := map[];
    var f := PlaceFrame(m, a.user[p.space].dir, STACK_START, Zeros(), PAGE_RW + PAGE_USER, used0, pages0, a.user[p.space], SetOf([]), none,
                        STACK_PAGE, Cell(Zeros(), true), sup);
    ok := f != 0;
    if ok {
      p.stackFrame := f;
      assert p.Frames() == [f] && SetOf([f]) == SetOf([]) + {f};
      assert none[STACK_PAGE := Cell(Zeros(), true)] == StackOnly(Zeros());
    }
  }

  /** With the stack page the only user page, its frame can be rewritten. */
  lemma LoadRewrite(used0: set<nat>, pages0: seq<Page>, used: set<nat>, pages: seq<Page>, s: Space, f: nat, vp: nat, x: Cell, y: Page)
    requires Loading(used0, pages0, used, pages, s, {f}, map[vp := x]) && vp < PAGE_COUNT
    ensures f < ALL_PAGES && Loading(used0, pages0, used, pages[f := y], s, {f}, map[vp := x.(bytes := y)])
    ensures s.dir < ALL_PAGES && s.dir != f
  {
    assert f in {f} && s.dir in SpaceFrames(pages, s.dir);
    SpaceKept(pages, f, y, s);
    OneSame(pages, pages[f := y], s.dir);
  }

  /** user_process_set_args and user_process_build_initial_stack. */
  method FillStack(m: Memory, a: Spaces, p: Process, argv: seq<seq<byte>>, ghost used0: set<nat>, ghost pages0: seq<Page>, ghost sup: Supply)
    returns (ok: bool, entry: u32, page: Page, ghost ptrs: seq<u32>)
    requires InLoad(m, a, p, used0, pages0, StackOnly(Zeros())) && p.Frames() == [p.stackFrame] && InStock(m, a, p, sup)
    requires |argv| <= USER_MAX_ARGS && forall i :: 0 <= i < |argv| ==> |argv[i]| < USER_ARG_MAX
    modifies m`pages
    ensures ok && StackOf(page, entry, argv, ptrs) && InLoad(m, a, p, used0, pages0, StackOnly(page)) && InStock(m, a, p, sup)
  {
    ok, page, entry, ptrs := BuildInitialStack(argv);
    ghost var space, f := a.user[p.space], p.stackFrame;
    assert SetOf(p.Frames()) == {f};
    Unfold(used0, pages0, m.used, m.pages, space, {f}, StackOnly(Zeros()));
    LoadRewrite(used0, pages0, m.used, m.pages, space, f, STACK_PAGE, Cell(Zeros(), true), page);
    TabledSame(m.pages, m.pages[f := page], space.dir, sup.have);
    m.pages := m.pages[p.stackFrame := page];
  }

  // ---- user_process_clear ----

  /** Frees recorded frames, each of them in use when it is freed. */
  method FreeFrames(m: Memory, frames: seq<nat>)
    requires m.Valid() && NoDup(frames) && forall f :: f in frames ==> 0 < f < NUM_FRAMES && f in m.used
    modifies m`words, m`used
    ensures m.Valid() && m.used == old(m.used) - SetOf(frames)
  {
    for i := 0 to |frames|
      invariant m.Valid() && m.used == old(m.used) - SetOf(frames[..i])
    {
      assert frames[i] in m.used;
      FreeFrame(m, frames[i] * FRAME_SIZE);
      assert frames[..i + 1] == frames[..i] + [frames[i]];
    }
    assert frames[..|frames|] == frames;
  }

  /** The frames of a process are free of each other and of its tables. */
  lemma ClearFacts(used0: set<nat>, pages0: seq<Page>, used: set<nat>, pages: seq<Page>, s: Space, data: set<nat>, img: Contents)
    requires Folded(used0, pages0, used, pages, s, data, img)
    ensures UserSpace(pages, s) && data <= used && SpaceFrames(pages, s.dir) <= used - data && s.dir !in used0
    ensures used - data - SpaceFrames(pages, s.dir) == used0 && (forall f :: f in data ==> 0 < f < NUM_FRAMES)
    ensures KeepsUsed(pages0, pages, used0)
  {
    Unfold(used0, pages0, used, pages, s, data, img);
    assert s.dir in SpaceFrames(pages, s.dir);
  }

  lemma PartsApart(x: seq<nat>, y: seq<nat>, z: seq<nat>)
    requires NoDup(x + y + z)
    ensures NoDup(x) && NoDup(y) && NoDup(z)
    ensures SetOf(x) !! SetOf(y) && SetOf(x) !! SetOf(z) && SetOf(y) !! SetOf(z)
    ensures SetOf(x + y + z) == SetOf(x) + SetOf(y) + SetOf(z)
  {
    var all := x + y + z;
    assert forall i :: 0 <= i < |x| ==> all[i] == x[i];
    assert forall i :: 0 <= i < |y| ==> all[|x| + i] == y[i];
    assert forall i :: 0 <= i < |z| ==> all[|x| + |y| + i] == z[i];
  }

  /** The first part of user_process_clear: the recorded frames, each freed exactly once. */
  method FreeOwned(m: Memory, p: Process)
    requires m.Valid() && NoDup(p.Frames()) && forall f :: f in SetOf(p.Frames()) ==> 0 < f < NUM_FRAMES && f in m.used
    modifies m`words, m`used, p`stackFrame, p`imageFrames, p`elfFrames
    ensures m.Valid() && m.used == old(m.used) - old(SetOf(p.Frames())) && p.Frames() == []
  {
    ghost var stack := if p.stackFrame != 0 then [p.stackFrame] else [];
    PartsApart(stack, p.imageFrames, p.elfFrames);
    if p.stackFrame != 0 {
      assert p.stackFrame in SetOf(stack);
      FreeFrame(m, p.stackFrame * FRAME_SIZE);
      p.stackFrame := 0;
    }
    assert m.used == old(m.used) - SetOf(stack);
    assert forall f :: f in p.imageFrames ==> f in SetOf(p.imageFrames);
    FreeFrames(m, p.imageFrames);
    p.imageFrames := [];
    assert forall f :: f in p.elfFrames ==> f in SetOf(p.elfFrames);
    FreeFrames(m, p.elfFrames);
    p.elfFrames := [];
  }

  /** user_process_clear, the memory part: everything taken since used0 is given back. */
  method Clear(m: Memory, a: Spaces, p: Process, ghost used0: set<nat>, ghost pages0: seq<Page>, ghost img: Contents)
    requires m.Valid() && p.space < |a.user|
    requires p.space >= 0 ==> InLoad(m, a, p, used0, pages0, img)
    requires p.space < 0 ==> p.Frames() == [] && m.used == used0 && KeepsUsed(pages0, m.pages, used0)
    modifies m, a`user, p
    ensures m.Valid() && m.used == used0 && KeepsUsed(pages0, m.pages, used0)
    ensures p.space == -1 && p.Frames() == [] && |a.user| == old(|a.user|)
    ensures a.user == if old(p.space) >= 0 then old(a.user)[old(p.space) := NO_SPACE] else old(a.user)
  {
    if p.space >= 0 {
      ClearFacts(used0, pages0, m.used, m.pages, a.user[p.space], SetOf(p.Frames()), img);
    }
    FreeOwned(m, p);
    Destroy(m, a, p.space);
    p.space, p.regions := -1, [];
  }

  // ---- starting a process ----

  /** The pool of address spaces: a free slot is empty. */
  ghost predicate PoolOk(user: seq<Space>) {
    |user| == MAX_ADDRESS_SPACES && forall k :: 0 <= k < |user| && user[k].dir == 0 ==> user[k] == NO_SPACE
  }

  /** What the kernel provides for processes. */
  ghost predicate KernelOk(m: Memory, a: Spaces)
    reads m, a
  {
    && m.Valid() && PoolOk(a.user) && a.kernel.dir in m.used && a.kernel.low in m.used
    && a.kernel.low < NUM_FRAMES && KernelOnly(m.pages[a.kernel.low]) && FoldedKernel(m.pages, a.kernel)
  }

  /** A program as run_user_elf_file leaves it in memory: its stack, and over that its segments. */
  ghost predicate Program(image: seq<byte>, argv: seq<seq<byte>>, entry: u32, regions: seq<Region>, stackEntry: u32,
                          stack: Page, ptrs: seq<u32>, img: Contents)
  {
    && Acceptable(image)
    && img == ImageOf(image, PhNum(image), StackOnly(stack)) && StackOf(stack, stackEntry, argv, ptrs)
    && regions == RegionsOf(image, PhNum(image)) + [STACK_REGION] && entry == Entry32(image)
  }

  /** The frames the segments of an image take: one for each page of each segment, and one for each table but the first. */
  ghost function FramesFor(image: seq<byte>): nat {
    if SegmentsOk(image) then PagesOf(image, PhNum(image)) + |TablesOf(image, PhNum(image)) - {0}| else 0
  }

  lemma ImageFrames(image: seq<byte>, left: int)
    requires SegmentsOk(image)
    ensures SpendImage(image, PhNum(image), Supply({0}, left)).left == left - FramesFor(image)
  {
    var tables := TablesOf(image, PhNum(image));
    ImageTotal(image, PhNum(image), Supply({0}, left));
    assert {0} + tables == {0} + (tables - {0});
  }

  /** The frame and table work of run_user_elf_file on a process that has a space. */
  method Populate(m: Memory, a: Spaces, p: Process, image: seq<byte>, argv: seq<seq<byte>>, ghost used0: set<nat>, ghost pages0: seq<Page>,
                  ghost left: nat)
    returns (ok: bool, stackEntry: u32, ghost img: Contents, ghost stack: Page, ghost ptrs: seq<u32>)
    requires InLoad(m, a, p, used0, pages0, map[]) && p.Frames() == [] && p.stackFrame == 0 && InStock(m, a, p, Supply({0}, left))
    requires |image| < 0x8000_0000 && HeadersReadable(image)
    requires |argv| <= USER_MAX_ARGS && forall i :: 0 <= i < |argv| ==> |argv[i]| < USER_ARG_MAX
    modifies m, p
    ensures p.space == old(p.space) && InLoad(m, a, p, used0, pages0, img)
    ensures ok ==> Program(image, argv, p.entry, p.regions, stackEntry, stack, ptrs, img)
    ensures ok <==> Acceptable(image) && 1 + FramesFor(image) <= left
    ensures ok ==> Left(m.used) + 1 + FramesFor(image) == left
  {
    img, stackEntry, stack, ptrs := map[], 0, Zeros(), [];
    assert |p.elfFrames| == 0 && DirIndex(STACK_PAGE) == 0;
    ghost var sup := Supply({0}, left);
    ok := MapStack(m, a, p, used0, pages0, sup);
    if ok {
      var page;
      sup := Supply({0}, left - 1);
      assert Spend(Supply({0}, left), STACK_PAGE) == sup;
      ok, stackEntry, page, ptrs := FillStack(m, a, p, argv, used0, pages0, sup);
      stack, img := page, StackOnly(page);
      ok, img := MapElfSegments(m, a, p, image, used0, pages0, img, sup);
      if Acceptable(image) {
        ImageFrames(image, left - 1);
      }
    }
  }

  lemma SlotRestored(user: seq<Space>, user1: seq<Space>, i: nat)
    requires PoolOk(user) && i < |user| == |user1| && user[i].dir == 0 && user1 == user[i := user1[i]]
    ensures user1[i := NO_SPACE] == user
  {
  }

  /** The pool has a free slot. */
  ghost predicate SpaceLeft(user: seq<Space>) {
    exists k :: 0 <= k < |user| && user[k].dir == 0
  }

  lemma LeftTwo(used: set<nat>)
    ensures TwoFree(used) <==> Left(used) >= 2
  {
    if TwoFree(used) {
      var f, g :| 0 <= f < g < NUM_FRAMES && f !in used && g !in used;
      LeftTake(used, f);
      LeftTake(used + {f}, g);
    } else if Left(used) >= 1 {
      var f :| f in FreeSet(used);
      assert FreeSet(used) == {f};
    }
  }

  lemma LeftCreated(used: set<nat>, pages: seq<Page>, used': set<nat>, pages': seq<Page>, s: Space)
    requires Created(used, pages, used', pages', s) && s.dir < NUM_FRAMES && s.low < NUM_FRAMES
    ensures Left(used') + 2 == Left(used)
  {
    LeftTake(used, s.dir);
    LeftTake(used + {s.dir}, s.low);
    assert used' == used + {s.dir} + {s.low};
  }

  /** address_space_create_user for a new process. */
  method GiveSpace(m: Memory, a: Spaces, p: Process) returns (ok: bool)
    requires KernelOk(m, a) && p.space == -1 && p.Frames() == []
    modifies m, a`user, p`space
    ensures ok <==> SpaceLeft(old(a.user)) && Left(old(m.used)) >= 2
    ensures ok ==>
      && InLoad(m, a, p, old(m.used), old(m.pages), map[]) && 0 <= p.space < |old(a.user)| == |a.user|
      && old(a.user)[p.space].dir == 0 && a.user == old(a.user)[p.space := a.user[p.space]]
      && InStock(m, a, p, Supply({0}, Left(old(m.used)) - 2))
    ensures !ok ==> m.Valid() && p.space == -1 && a.user == old(a.user) && m.used == old(m.used) && KeepsUsed(old(m.pages), m.pages, m.used)
  {
    ghost var used, pages := m.used, m.pages;
    LeftTwo(used);
    var i := CreateUser(m, a);
    ok := i >= 0;
    if ok {
      LeftCreated(used, pages, m.used, m.pages, a.user[i]);
      TabledNew(used, pages, m.used, m.pages, a.user[i]);
      StartLoading(used, pages, m.used, m.pages, a.user[i]);
      p.space := i;
      assert SetOf([]) == {};
    }
  }

  /** run_user_elf_file from the process slot on: a load that fails anywhere, or finds no task slot, leaves the frames and
      the pool as they were. */
  method LoadElf(m: Memory, a: Spaces, p: Process, image: seq<byte>, argv: seq<seq<byte>>, taskSlot: bool)
    returns (ok: bool, stackEntry: u32, ghost img: Contents, ghost stack: Page, ghost ptrs: seq<u32>)
    requires KernelOk(m, a) && p.space == -1 && p.Frames() == [] && p.stackFrame == 0
    requires |image| < 0x8000_0000 && HeadersReadable(image)
    requires |argv| <= USER_MAX_ARGS && forall i :: 0 <= i < |argv| ==> |argv[i]| < USER_ARG_MAX
    modifies m, a`user, p
    ensures ok <==> SpaceLeft(old(a.user)) && taskSlot && Acceptable(image) && Left(old(m.used)) >= 3 + FramesFor(image)
    ensures ok ==>
      && Left(m.used) + 3 + FramesFor(image) == Left(old(m.used))
      && InLoad(m, a, p, old(m.used), old(m.pages), img) && Program(image, argv, p.entry, p.regions, stackEntry, stack, ptrs, img)
      && 0 <= p.space < |old(a.user)| == |a.user| && old(a.user)[p.space].dir == 0 && a.user == old(a.user)[p.space := a.user[p.space]]
    ensures !ok ==>
      && m.Valid() && m.used == old(m.used) && KeepsUsed(old(m.pages), m.pages, m.used) && a.user == old(a.user)
      && p.space == -1 && p.Frames() == []
  {
    stackEntry, img, stack, ptrs := 0, map[], Zeros(), [];
    ok := GiveSpace(m, a, p);
    if ok {
      ghost var user1 := a.user;
      ok, stackEntry, img, stack, ptrs := Populate(m, a, p, image, argv, old(m.used), old(m.pages), Left(old(m.used)) - 2);
      ok := ok && taskSlot;
      if !ok {
        SlotRestored(old(a.user), user1, p.space);
        Clear(m, a, p, old(m.used), old(m.pages), img);
      }
    }
  }

  /** user_check_elf_file from the process slot on: whatever it finds, nothing is kept. */
  method CheckElf(m: Memory, a: Spaces, p: Process, image: seq<byte>) returns (ok: bool)
    requires KernelOk(m, a) && p.space == -1 && p.Frames() == [] && p.stackFrame == 0
    requires |image| < 0x8000_0000 && HeadersReadable(image)
    modifies m, a`user, p
    ensures m.Valid() && m.used == old(m.used) && KeepsUsed(old(m.pages), m.pages, m.used) && a.user == old(a.user)
    ensures p.space == -1 && p.Frames() == []
    ensures ok <==> SpaceLeft(a.user) && Acceptable(image) && Left(m.used) >= 2 + FramesFor(image)
  {
    ok := GiveSpace(m, a, p);
    if ok {
      ghost var user1, img, left := a.user, map[], Left(old(m.used)) - 2;
      assert |p.elfFrames| == 0;
      ok, img := MapElfSegments(m, a, p, image, old(m.used), old(m.pages), map[], Supply({0}, left));
      if Acceptable(image) {
        ImageFrames(image, left);
      }
      SlotRestored(old(a.user), user1, p.space);
      Clear(m, a, p, old(m.used), old(m.pages), img);
    }
  }

  // ---- what a loaded program finds in memory ----

  /** The byte a user of the space reads at an address. */
  ghost function ReadByte(pages: seq<Page>, dir: nat, va: nat): byte
    requires |pages| == ALL_PAGES && dir < ALL_PAGES && va / FRAME_SIZE < PAGE_COUNT && UserPage(pages, dir, va / FRAME_SIZE)
    requires Translate(pages, dir, va / FRAME_SIZE).frame < ALL_PAGES
  {
    pages[Translate(pages, dir, va / FRAME_SIZE).frame][va % FRAME_SIZE]
  }

  lemma HoldsByte(pages: seq<Page>, dir: nat, data: set<nat>, img: Contents, va: nat)
    requires |pages| == ALL_PAGES && dir < ALL_PAGES && Holds(pages, dir, data, img) && va / FRAME_SIZE < PAGE_COUNT && va / FRAME_SIZE in img
    requires forall f :: f in data ==> f < ALL_PAGES
    ensures UserPage(pages, dir, va / FRAME_SIZE) && Translate(pages, dir, va / FRAME_SIZE).frame in data
    ensures ReadByte(pages, dir, va) == img[va / FRAME_SIZE].bytes[va % FRAME_SIZE] && Translate(pages, dir, va / FRAME_SIZE).writable == img[va / FRAME_SIZE].writable
  {
  }

  lemma PageByte(s: Segment, image: seq<byte>, va: nat)
    requires s.offset + s.filesz <= |image|
    ensures SegmentPage(s, image, va / FRAME_SIZE * FRAME_SIZE)[va % FRAME_SIZE] == SegmentByte(s, image, va)
  {
    assert va / FRAME_SIZE * FRAME_SIZE + va % FRAME_SIZE == va;
  }

  /** Reading any address on a page that segment i is the last to cover gives the file's byte below filesz and zero
      elsewhere: in the segment beyond filesz, and on the rest of its pages. */
  lemma SegmentInMemory(pages: seq<Page>, dir: nat, data: set<nat>, img: Contents, image: seq<byte>, stack: Contents, i: nat, va: nat)
    requires |pages| == ALL_PAGES && dir < ALL_PAGES && Holds(pages, dir, data, img) && (forall f :: f in data ==> f < ALL_PAGES)
    requires SegmentsOk(image) && i < PhNum(image) && img == ImageOf(image, PhNum(image), stack)
    requires va / FRAME_SIZE < PAGE_COUNT && Covers(image, i, va / FRAME_SIZE)
    requires forall j :: i < j < PhNum(image) ==> !Covers(image, j, va / FRAME_SIZE)
    ensures HeaderAtOk(image, i) && UserPage(pages, dir, va / FRAME_SIZE) && Translate(pages, dir, va / FRAME_SIZE).frame in data
    ensures ReadByte(pages, dir, va) == SegmentByte(SegmentAt(image, i), image, va)
    ensures Translate(pages, dir, va / FRAME_SIZE).writable <==> SegmentAt(image, i).flags / 2 % 2 == 1
  {
    ImageAt(image, PhNum(image), stack, i, va / FRAME_SIZE);
    HoldsByte(pages, dir, data, img, va);
    PageByte(SegmentAt(image, i), image, va);
  }

  /** No page is covered by two segments. */
  ghost predicate PageDisjoint(image: seq<byte>)
    requires SegmentsOk(image)
  {
    forall i, j, vp :: 0 <= i < j < PhNum(image) ==> !(Covers(image, i, vp) && Covers(image, j, vp))
  }

  /** Of a program with page-disjoint segments, every address of every segment reads as the program header says. */
  lemma ProgramInMemory(pages: seq<Page>, dir: nat, data: set<nat>, image: seq<byte>, stack: Contents, i: nat, va: nat)
    requires |pages| == ALL_PAGES && dir < ALL_PAGES && (forall f :: f in data ==> f < ALL_PAGES)
    requires SegmentsOk(image) && AllInBounds(image, PhNum(image)) && PageDisjoint(image) && i < PhNum(image) && HeaderAtOk(image, i)
    requires Holds(pages, dir, data, ImageOf(image, PhNum(image), stack))
    requires var s := SegmentAt(image, i); s.kind == PT_LOAD && s.vaddr <= va < s.vaddr + s.memsz
    ensures va / FRAME_SIZE < PAGE_COUNT && UserPage(pages, dir, va / FRAME_SIZE) && Translate(pages, dir, va / FRAME_SIZE).frame in data
    ensures var s := SegmentAt(image, i); s.offset + s.filesz <= |image| && ReadByte(pages, dir, va) == SegmentByte(s, image, va)
    ensures Translate(pages, dir, va / FRAME_SIZE).writable <==> SegmentAt(image, i).flags / 2 % 2 == 1
  {
    var s := SegmentAt(image, i);
    PagesTouched(s, |image|, va / FRAME_SIZE);
    StackPageFree(s, |image|);
    assert Covers(image, i, va / FRAME_SIZE);
    SegmentInMemory(pages, dir, data, ImageOf(image, PhNum(image), stack), image, stack, i, va);
  }

  /** The segments do not reach the stack page: the program finds the stack that was built. */
  lemma StackInMemory(pages: seq<Page>, dir: nat, data: set<nat>, image: seq<byte>, stack: Page, va: nat)
    requires |pages| == ALL_PAGES && dir < ALL_PAGES && (forall f :: f in data ==> f < ALL_PAGES)
    requires SegmentsOk(image) && AllInBounds(image, PhNum(image)) && STACK_START <= va < USER_STACK_TOP
    requires Holds(pages, dir, data, ImageOf(image, PhNum(image), StackOnly(stack)))
    ensures UserPage(pages, dir, STACK_PAGE) && va / FRAME_SIZE == STACK_PAGE && Translate(pages, dir, STACK_PAGE).frame in data
    ensures ReadByte(pages, dir, va) == stack[va - STACK_START] && Translate(pages, dir, STACK_PAGE).writable
  {
    forall j | 0 <= j < PhNum(image) ensures !Covers(image, j, STACK_PAGE) {
      assert HeaderAtOk(image, j);
      if SegmentAt(image, j).kind == PT_LOAD {
        StackPageFree(SegmentAt(image, j), |image|);
      }
    }
    ImageElsewhere(image, PhNum(image), StackOnly(stack), STACK_PAGE);
    HoldsByte(pages, dir, data, ImageOf(image, PhNum(image), StackOnly(stack)), va);
  }

  // ---- the regions of a program are its own pages ----

  /** Every page a region touches is a user page of the program. */
  ghost predicate RegionCovered(r: Region, img: Contents) {
    r.len > 0 && r.start + r.len < U32_MOD &&
    forall vp :: r.start / FRAME_SIZE <= vp <= (r.start + r.len - 1) / FRAME_SIZE ==> vp in img
  }

  ghost predicate Covered(regions: seq<Region>, img: Contents) {
    forall k :: 0 <= k < |regions| ==> RegionCovered(regions[k], img)
  }

  lemma CoveredMore(r: Region, img: Contents, s: Segment, image: seq<byte>, a: nat, b: nat)
    requires RegionCovered(r, img) && s.offset + s.filesz <= |image|
    ensures RegionCovered(r, AddPages(img, s, image, a, b))
  {
    forall vp | r.start / FRAME_SIZE <= vp <= (r.start + r.len - 1) / FRAME_SIZE ensures vp in AddPages(img, s, image, a, b) {
      AddPagesAt(img, s, image, a, b, vp);
    }
  }

  lemma SegmentCovered(s: Segment, image: seq<byte>, img: Contents)
    requires s.kind == PT_LOAD && SegmentOk(s, |image|)
    ensures RegionCovered(Region(s.vaddr, s.memsz, RegionFlags(s.flags)), AddPages(img, s, image, FirstPage(s), EndPage(s)))
  {
    forall vp | s.vaddr / FRAME_SIZE <= vp <= (s.vaddr + s.memsz - 1) / FRAME_SIZE
      ensures vp in AddPages(img, s, image, FirstPage(s), EndPage(s))
    {
      AddPagesAt(img, s, image, FirstPage(s), EndPage(s), vp);
    }
  }

  lemma AllCoveredMore(regions: seq<Region>, img: Contents, s: Segment, image: seq<byte>, a: nat, b: nat)
    requires Covered(regions, img) && s.offset + s.filesz <= |image|
    ensures Covered(regions, AddPages(img, s, image, a, b))
  {
    forall k | 0 <= k < |regions| ensures RegionCovered(regions[k], AddPages(img, s, image, a, b)) {
      CoveredMore(regions[k], img, s, image, a, b);
    }
  }

  lemma {:induction false} RegionsCovered(image: seq<byte>, n: nat, start: Contents)
    requires SegmentsOk(image) && n <= PhNum(image) && RegionCovered(STACK_REGION, start)
    ensures Covered(RegionsOf(image, n), ImageOf(image, n, start)) && RegionCovered(STACK_REGION, ImageOf(image, n, start))
  {
    if n > 0 {
      RegionsCovered(image, n - 1, start);
      HeaderStep(image, n - 1, start);
      var s, before := SegmentAt(image, n - 1), ImageOf(image, n - 1, start);
      if s.kind == PT_LOAD {
        AllCoveredMore(RegionsOf(image, n - 1), before, s, image, FirstPage(s), EndPage(s));
        CoveredMore(STACK_REGION, before, s, image, FirstPage(s), EndPage(s));
        SegmentCovered(s, image, before);
      }
    }
  }

  /** The regions of a loaded program, the stack included, are pages of the program. */
  lemma ProgramCovered(image: seq<byte>, argv: seq<seq<byte>>, entry: u32, regions: seq<Region>, stackEntry: u32, stack: Page,
                       ptrs: seq<u32>, img: Contents)
    requires Program(image, argv, entry, regions, stackEntry, stack, ptrs, img)
    ensures Covered(regions, img)
  {
    RegionsCovered(image, PhNum(image), StackOnly(stack));
  }

  /** Marking pages that are user pages already changes no translation. */
  lemma MarkOwn(pages: seq<Page>, pages': seq<Page>, dir: nat, data: set<nat>, img: Contents, a: nat, b: nat)
    requires |pages| == |pages'| == ALL_PAGES && SpaceOk(pages, dir) && MarkedSpace(pages, pages', dir, a, b)
    requires Holds(pages, dir, data, img) && SpaceFrames(pages, dir) !! data && (forall f :: f in data ==> f < ALL_PAGES)
    requires forall vp :: a <= vp <= b ==> vp in img
    ensures Holds(pages', dir, data, img)
  {
    forall vp | 0 <= vp < PAGE_COUNT ensures Translate(pages', dir, vp) == Translate(pages, dir, vp) {
      assert a <= vp <= b ==> UserPage(pages, dir, vp);
    }
  }
}
