/** The process table: processes never share frames with each other, with page tables or with the kernel. */
module Isolation {
  import opened Sequences
  import opened Bytes
  import opened Limits
  import opened Folding
  import opened Frames
  import opened PageTables
  import opened Paging
  import opened ProcessMemory
  import opened Elf
  import opened InitialStack
  import opened Loader
  import opened Processes
  import opened FlatImage

  /** A slot of the process table: free, or a process with its space (in a slot of the pool), the frames recorded as its
      own, and what its user pages hold. */
  datatype Slot = Free | Live(slot: int, s: Space, data: set<nat>, img: Contents)

  /** All frames a process holds. */
  ghost function Holding(pages: seq<Page>, p: Slot): set<nat> {
    if p.Free? || p.s.dir >= |pages| then {} else SpaceFrames(pages, p.s.dir) + p.data
  }

  ghost predicate Apart(pages: seq<Page>, own: set<nat>, p: Slot) {
    own !! Holding(pages, p)
  }

  /** The pages of a process open to users are exactly those of its program, and stand for its own frames. */
  ghost predicate Sound(used: set<nat>, pages: seq<Page>, p: Slot)
    requires p.Live?
  {
    var space := UserSpace(pages, p.s) && Holding(pages, p) <= used && SpaceFrames(pages, p.s.dir) !! p.data;
    var bounds := forall f :: f in p.data ==> 0 < f < NUM_FRAMES;
    space && bounds && Holds(pages, p.s.dir, p.data, p.img) && FoldedOne(pages, p.s.dir)
  }

  /** Every process is sound, and no two of them hold a common frame, nor one of the kernel's own. */
  ghost predicate SystemOk(used: set<nat>, pages: seq<Page>, own: set<nat>, procs: seq<Slot>) {
    && own <= used
    && (forall i :: 0 <= i < |procs| && procs[i].Live? ==> Sound(used, pages, procs[i]) && Apart(pages, own, procs[i]))
    && (forall i, j :: 0 <= i < j < |procs| && procs[i].Live? && procs[j].Live? ==>
          procs[i].slot != procs[j].slot && Holding(pages, procs[i]) !! Holding(pages, procs[j]))
  }

  /** A process whose frames were not written is as it was. */
  lemma Undisturbed(used: set<nat>, pages: seq<Page>, used': set<nat>, pages': seq<Page>, p: Slot)
    requires p.Live? && Sound(used, pages, p) && |pages'| == |pages| && Holding(pages, p) <= used'
    requires forall f :: f in Holding(pages, p) && f < |pages| ==> pages'[f] == pages[f]
    ensures Sound(used', pages', p) && Holding(pages', p) == Holding(pages, p)
  {
    assert p.s.dir in SpaceFrames(pages, p.s.dir);
    SpaceUntouched(pages, pages', p.s.dir);
    SameDirOk(pages, pages', p.s.dir);
    OneSame(pages, pages', p.s.dir);
  }

  /** A process that was loaded since (used, pages) joins the table. */
  lemma Joins(used: set<nat>, pages: seq<Page>, own: set<nat>, procs: seq<Slot>, used': set<nat>, pages': seq<Page>, i: nat, p: Slot)
    requires SystemOk(used, pages, own, procs) && i < |procs| && procs[i].Free? && p.Live?
    requires Loading(used, pages, used', pages', p.s, p.data, p.img)
    requires forall j :: 0 <= j < |procs| && procs[j].Live? ==> procs[j].slot != p.slot
    ensures SystemOk(used', pages', own, procs[i := p])
  {
    var procs' := procs[i := p];
    assert Sound(used', pages', p) && Holding(pages', p) !! used;
    forall j | 0 <= j < |procs| && procs[j].Live?
      ensures Sound(used', pages', procs[j]) && Holding(pages', procs[j]) == Holding(pages, procs[j])
    {
      Undisturbed(used, pages, used', pages', procs[j]);
    }
  }

  /** A live process is loaded relative to everything but itself. */
  lemma AsLoading(used: set<nat>, pages: seq<Page>, p: Slot)
    requires p.Live? && Sound(used, pages, p)
    ensures Loading(used - Holding(pages, p), pages, used, pages, p.s, p.data, p.img)
  {
  }

  /** A process leaves the table when its frames are free again. */
  lemma Leaves(used: set<nat>, pages: seq<Page>, own: set<nat>, procs: seq<Slot>, pages': seq<Page>, i: nat)
    requires SystemOk(used, pages, own, procs) && i < |procs| && procs[i].Live?
    requires KeepsUsed(pages, pages', used - Holding(pages, procs[i]))
    ensures SystemOk(used - Holding(pages, procs[i]), pages', own, procs[i := Free])
  {
    var used' := used - Holding(pages, procs[i]);
    forall j | 0 <= j < |procs| && j != i && procs[j].Live?
      ensures Sound(used', pages', procs[j]) && Holding(pages', procs[j]) == Holding(pages, procs[j])
    {
      assert Holding(pages, procs[i]) !! Holding(pages, procs[j]);
      Undisturbed(used, pages, used', pages', procs[j]);
    }
  }

  // ---- the table in place ----

  /** What create_task puts on a new stack: seven words. */
  const TOP_BYTES := 28

  /** The process and its slot agree. */
  ghost predicate Agrees(p: Process, slot: Slot, user: seq<Space>)
    reads p
  {
    if slot.Free? then p.space == -1 && p.Frames() == [] && p.stackFrame == 0
    else
      && slot.slot == p.space && 0 <= p.space < |user| && user[p.space] == slot.s && slot.s.dir != 0
      && NoDup(p.Frames()) && slot.data == SetOf(p.Frames()) && Covered(p.regions, slot.img)
  }

  /** What the process table and physical memory are at a moment. */
  datatype State = State(used: set<nat>, pages: seq<Page>, user: seq<Space>, slots: seq<Slot>, stacks: set<nat>)

  /** Nothing happened, but free frames may have been written. */
  ghost predicate Calm(a: State, b: State) {
    b == a.(pages := b.pages) && KeepsUsed(a.pages, b.pages, a.used)
  }

  /** run_user_elf_file works: a free space and task, an image it takes, and frames for directory, first table, stack and image. */
  ghost predicate ElfStarts(a: State, image: seq<byte>, taskSlot: bool) {
    SpaceLeft(a.user) && taskSlot && Acceptable(image) && Left(a.used) >= 3 + FramesFor(image)
  }

  ghost predicate FlatStarts(a: State, image: seq<byte>, taskSlot: bool) {
    SpaceLeft(a.user) && taskSlot && BinaryOk(image) && Left(a.used) >= 3 + ImagePages(|image|)
  }

  /** The memory of a program that was just loaded. */
  ghost predicate ElfLoaded(image: seq<byte>, argv: seq<seq<byte>>, img: Contents) {
    exists entry, regions, stackEntry, stack, ptrs :: Program(image, argv, entry, regions, stackEntry, stack, ptrs, img)
  }

  ghost predicate FlatLoaded(image: seq<byte>, argv: seq<seq<byte>>, img: Contents) {
    exists entry, regions, stackEntry, stack, ptrs :: FlatProgram(image, argv, entry, regions, stackEntry, stack, ptrs, img)
  }

  /** A process is in slot i, in a free space of the pool and in frames that were free, and its task has a stack in another
      frame that was free; if the process took all the frames there were, the stack is in frame 0. */
  ghost predicate Launched(a: State, b: State, i: nat, need: nat) {
    && i < |a.slots| == |b.slots| && a.slots[i].Free? && b.slots[i].Live?
    && var p, stack := b.slots[i], b.stacks - a.stacks;
    && b.slots == a.slots[i := p] && 0 <= p.slot < |a.user| && a.user[p.slot].dir == 0 && b.user == a.user[p.slot := p.s]
    && a.stacks <= b.stacks && |stack| == (if Left(a.used) == need then 0 else 1)
    && Holding(b.pages, p) !! a.used && stack !! a.used && stack !! Holding(b.pages, p)
    && b.used == a.used + Holding(b.pages, p) + stack
    && |b.pages| == |a.pages| && forall f :: f in a.used && 0 < f < |a.pages| ==> b.pages[f] == a.pages[f]
  }

  /** The same before the task has its stack. */
  ghost predicate Admitted(a: State, b: State, i: nat) {
    && i < |a.slots| == |b.slots| && a.slots[i].Free? && b.slots[i].Live? && b.slots == a.slots[i := b.slots[i]] && b.stacks == a.stacks
    && var p := b.slots[i];
    && 0 <= p.slot < |a.user| && a.user[p.slot].dir == 0 && b.user == a.user[p.slot := p.s]
    && Holding(b.pages, p) !! a.used && b.used == a.used + Holding(b.pages, p) && KeepsUsed(a.pages, b.pages, a.used)
  }

  /** A stack in frame f beside it. */
  lemma StackBeside(a: State, c: State, b: State, i: nat, need: nat, f: nat)
    requires Admitted(a, c, i) && a.stacks <= a.used && Left(c.used) + need == Left(a.used) && (f == 0 <==> Left(c.used) == 0)
    requires f < |c.pages| == |b.pages| && b == State(b.used, c.pages[f := b.pages[f]], c.user, c.slots, b.stacks)
    requires if f == 0 then b.used == c.used && b.stacks == c.stacks else f !in c.used && b.used == c.used + {f} && b.stacks == c.stacks + {f}
    requires Holding(b.pages, b.slots[i]) == Holding(c.pages, c.slots[i])
    ensures Launched(a, b, i, need)
  {
    assert b.stacks - a.stacks == if f == 0 then {} else {f};
  }

  /** The process of slot i is gone, and all it held is free. */
  ghost predicate Stopped(a: State, b: State, i: nat) {
    && i < |a.slots| && a.slots[i].Live? && 0 <= a.slots[i].slot < |a.user|
    && b == State(a.used - Holding(a.pages, a.slots[i]), b.pages, a.user[a.slots[i].slot := NO_SPACE], a.slots[i := Free], a.stacks)
    && KeepsUsed(a.pages, b.pages, b.used)
  }

  class ProcessTable {
    const m: Memory
    const a: Spaces
    const procs: seq<Process>
    ghost var slots: seq<Slot>
    /** The frames of kernel stacks. */
    ghost var stacks: set<nat>

    /** The kernel's own frames. */
    ghost function Own(): set<nat>
      reads this, a
    {
      {a.kernel.dir, a.kernel.low} + stacks
    }

    constructor (m: Memory, a: Spaces, procs: seq<Process>)
      requires KernelOk(m, a) && |procs| == MAX_USER_PROCESSES && NoDup(procs)
      requires forall i :: 0 <= i < |procs| ==> Agrees(procs[i], Free, a.user)
      ensures Valid() && this.m == m && this.a == a && this.procs == procs && |procs| == 8 && stacks == {}
      ensures forall i :: 0 <= i < |slots| ==> slots[i].Free?
    {
      this.m, this.a, this.procs := m, a, procs;
      slots, stacks := seq(|procs|, _ => Free), {};
    }

    ghost predicate Valid()
      reads this, m, a, procs
    {
      && KernelOk(m, a) && |procs| == |slots| == MAX_USER_PROCESSES && NoDup(procs)
      && FoldedSystem(m.used, m.pages, Own(), slots)
      && forall i :: 0 <= i < |procs| ==> Agrees(procs[i], slots[i], a.user)
    }

    /** The stack of create_task: seven words at the top of a frame. It does not look whether there was a frame; if there was
        none, they go to frame 0. */
    method KernelStack(top: seq<byte>) returns (f: nat)
      requires Valid() && |top| == TOP_BYTES
      modifies this`stacks, m
      ensures Valid() && KernelKept(old(m.pages), m.pages, a.kernel)
      ensures f == 0 <==> Left(old(m.used)) == 0
      ensures if f == 0 then m.used == old(m.used) && stacks == old(stacks)
              else f !in old(m.used) && m.used == old(m.used) + {f} && stacks == old(stacks) + {f}
      ensures m.pages == old(m.pages)[f := Patch(old(m.pages)[f], FRAME_SIZE - TOP_BYTES, top)]
    {
      ghost var used, pages := m.used, m.pages;
      LeftNone(used);
      var addr := AllocFrame(m);
      f := addr / FRAME_SIZE;
      var page: Page := Patch(m.pages[f], FRAME_SIZE - TOP_BYTES, top);
      KernelNotZero(pages, a.kernel);
      if f == 0 {
        FoldedZero(used, pages, Own(), slots, page);
      } else {
        FoldedTaken(used, pages, Own(), slots, f, page);
      }
      m.pages := m.pages[f := page];
      KernelStays(pages, m.pages, a.kernel);
      if f != 0 {
        assert Own() + {f} == {a.kernel.dir, a.kernel.low} + (stacks + {f});
        stacks := stacks + {f};
      }
    }

    ghost function View(): State
      reads this, m, a
    {
      State(m.used, m.pages, a.user, slots, stacks)
    }

    /** A process loaded since state s joins the table. */
    ghost method Admit(i: nat, img: Contents, s: State)
      requires KernelOk(m, a) && |procs| == |slots| == MAX_USER_PROCESSES && NoDup(procs) && i < |procs| && slots[i].Free?
      requires s.slots == slots && s.stacks == stacks && FoldedSystem(s.used, s.pages, Own(), slots)
      requires InLoad(m, a, procs[i], s.used, s.pages, img) && Covered(procs[i].regions, img)
      requires forall j :: 0 <= j < |procs| && j != i ==> Agrees(procs[j], slots[j], s.user)
      requires procs[i].space < |s.user| == |a.user| && s.user[procs[i].space].dir == 0 && a.user == s.user[procs[i].space := a.user[procs[i].space]]
      modifies this`slots
      ensures Valid() && Admitted(s, View(), i) && slots[i].img == img
    {
      var p := Live(procs[i].space, a.user[procs[i].space], SetOf(procs[i].Frames()), img);
      FoldedJoins(s.used, s.pages, Own(), slots, m.used, m.pages, i, p);
      slots := slots[i := p];
    }

    /** run_user_elf_file in a free slot of the table. */
    method Start(i: nat, image: seq<byte>, argv: seq<seq<byte>>, taskSlot: bool, top: seq<byte>) returns (ok: bool)
      requires Valid() && i < |procs| && slots[i].Free? && |top| == TOP_BYTES
      requires |image| < 0x8000_0000 && HeadersReadable(image)
      requires |argv| <= USER_MAX_ARGS && forall k :: 0 <= k < |argv| ==> |argv[k]| < USER_ARG_MAX
      modifies this, m, a`user, procs[i]
      ensures Valid() && KernelKept(old(m.pages), m.pages, a.kernel)
      ensures ok <==> ElfStarts(old(View()), image, taskSlot)
      ensures if ok then Launched(old(View()), View(), i, 3 + FramesFor(image)) && ElfLoaded(image, argv, slots[i].img)
              else Calm(old(View()), View())
    {
      ghost var before := View();
      var entry;
      ghost var img, stack, ptrs;
      ok, entry, img, stack, ptrs := LoadElf(m, a, procs[i], image, argv, taskSlot);
      if ok {
        ProgramCovered(image, argv, procs[i].entry, procs[i].regions, entry, stack, ptrs, img);
        Loaded(i, img, before);
        ghost var loaded := m.pages;
        Enter(i, img, before, top, 3 + FramesFor(image));
        KernelThrough(before.pages, loaded, m.pages, a.kernel);
      } else {
        FoldedStays(before.used, before.pages, m.pages, Own(), slots);
        KernelStays(before.pages, m.pages, a.kernel);
      }
    }

    /** The end of a start: the process is in the table and its task has a stack. */
    method Enter(i: nat, ghost img: Contents, ghost s: State, top: seq<byte>, ghost need: nat)
      requires KernelOk(m, a) && |procs| == |slots| == MAX_USER_PROCESSES && NoDup(procs) && i < |procs| && slots[i].Free? && |top| == TOP_BYTES
      requires s.slots == slots && s.stacks == stacks && FoldedSystem(s.used, s.pages, Own(), slots)
      requires InLoad(m, a, procs[i], s.used, s.pages, img) && Covered(procs[i].regions, img)
      requires forall j :: 0 <= j < |procs| && j != i ==> Agrees(procs[j], slots[j], s.user)
      requires procs[i].space < |s.user| == |a.user| && s.user[procs[i].space].dir == 0 && a.user == s.user[procs[i].space := a.user[procs[i].space]]
      requires Left(m.used) + need == Left(s.used)
      modifies this`slots, this`stacks, m
      ensures Valid() && KernelKept(old(m.pages), m.pages, a.kernel) && Launched(s, View(), i, need) && slots[i].img == img
    {
      StacksUsed(s.used, s.pages, Own(), slots);
      Admit(i, img, s);
      ghost var c := View();
      var f := KernelStack(top);
      HoldingStays(c.pages, m.pages, f, m.used, Own(), slots, i);
      StackBeside(s, c, View(), i, need, f);
    }

    /** What a load that worked leaves of the kernel's provisions. */
    ghost method Loaded(i: nat, img: Contents, s: State)
      requires m.Valid() && i < |procs| && InLoad(m, a, procs[i], s.used, s.pages, img)
      requires PoolOk(s.user) && |a.user| == |s.user| && a.user == s.user[procs[i].space := a.user[procs[i].space]]
      requires FoldedKernel(s.pages, a.kernel) && a.kernel.low < NUM_FRAMES && |s.pages| == ALL_PAGES && KernelOnly(s.pages[a.kernel.low])
      requires a.kernel.dir in s.used && a.kernel.low in s.used
      ensures KernelOk(m, a) && KernelKept(s.pages, m.pages, a.kernel)
    {
      LoadKept(s.used, s.pages, m.used, m.pages, a.user[procs[i].space], SetOf(procs[i].Frames()), img);
      KernelStays(s.pages, m.pages, a.kernel);
    }

    /** run_user_file in a free slot of the table. */
    method StartFlat(i: nat, image: seq<byte>, argv: seq<seq<byte>>, taskSlot: bool, top: seq<byte>) returns (ok: bool)
      requires Valid() && i < |procs| && slots[i].Free? && |top| == TOP_BYTES
      requires |argv| <= USER_MAX_ARGS && forall k :: 0 <= k < |argv| ==> |argv[k]| < USER_ARG_MAX
      modifies this, m, a`user, procs[i]
      ensures Valid() && KernelKept(old(m.pages), m.pages, a.kernel)
      ensures ok <==> FlatStarts(old(View()), image, taskSlot)
      ensures if ok then Launched(old(View()), View(), i, 3 + ImagePages(|image|)) && FlatLoaded(image, argv, slots[i].img)
              else Calm(old(View()), View())
    {
      ghost var before := View();
      var entry;
      ghost var img, stack, ptrs;
      ok, entry, img, stack, ptrs := LoadFlat(m, a, procs[i], image, argv, taskSlot);
      if ok {
        FlatCovered(image, argv, procs[i].entry, procs[i].regions, entry, stack, ptrs, img);
        Loaded(i, img, before);
        ghost var loaded := m.pages;
        Enter(i, img, before, top, 3 + ImagePages(|image|));
        KernelThrough(before.pages, loaded, m.pages, a.kernel);
      } else {
        FoldedStays(before.used, before.pages, m.pages, Own(), slots);
        KernelStays(before.pages, m.pages, a.kernel);
      }
    }

    /** user_check_elf_file in a free slot of the table. */
    method Check(i: nat, image: seq<byte>) returns (ok: bool)
      requires Valid() && i < |procs| && slots[i].Free?
      requires |image| < 0x8000_0000 && HeadersReadable(image)
      modifies m, a`user, procs[i]
      ensures Valid() && KernelKept(old(m.pages), m.pages, a.kernel) && Calm(old(View()), View())
      ensures ok <==> SpaceLeft(a.user) && Acceptable(image) && Left(m.used) >= 2 + FramesFor(image)
    {
      ghost var pages := m.pages;
      ok := CheckElf(m, a, procs[i], image);
      FoldedStays(m.used, pages, m.pages, Own(), slots);
      KernelStays(pages, m.pages, a.kernel);
    }

    /** prepare_user_program before the process runs: its regions are marked, which are its own pages already. */
    method Prepare(i: nat)
      requires Valid() && i < |procs| && slots[i].Live?
      modifies m
      ensures Valid() && KernelKept(old(m.pages), m.pages, a.kernel) && m.used == old(m.used)
      ensures SameSpace(old(m.pages), m.pages, slots[i].s.dir)
    {
      var regions := procs[i].regions;
      KernelStays(m.pages, m.pages, a.kernel);
      SpaceThere(m.used, m.pages, Own(), slots, i);
      for k := 0 to |regions|
        invariant Valid() && KernelKept(old(m.pages), m.pages, a.kernel) && m.used == old(m.used)
        invariant SameSpace(old(m.pages), m.pages, slots[i].s.dir)
        invariant regions == procs[i].regions
      {
        ghost var pages := m.pages;
        MarkRegion(i, regions[k]);
        SameThrough(old(m.pages), pages, m.pages, slots[i].s.dir);
      }
    }

    method MarkRegion(i: nat, r: Region)
      requires Valid() && i < |procs| && slots[i].Live? && RegionCovered(r, slots[i].img)
      modifies m
      ensures Valid() && KernelKept(old(m.pages), m.pages, a.kernel) && m.used == old(m.used)
      ensures SameSpace(old(m.pages), m.pages, slots[i].s.dir)
    {
      ghost var pages := m.pages;
      SpaceThere(m.used, m.pages, Own(), slots, i);
      MarkUserRange(m, a.user[procs[i].space].dir, r.start, r.len);
      FoldedMarked(m.used, pages, m.pages, Own(), slots, i, r);
      KernelStays(pages, m.pages, a.kernel);
    }

    /** A store by the program of a process: the page tables decide whether it happens and where. */
    method Store(i: nat, va: u32, b: byte)
      requires Valid() && i < |procs| && slots[i].Live?
      modifies this`slots, m`pages
      ensures Valid() && KernelKept(old(m.pages), m.pages, a.kernel) && slots == old(slots)[i := slots[i]]
      ensures
        var p, vp := old(slots)[i], va / FRAME_SIZE;
        if vp in p.img && p.img[vp].writable
        then slots[i] == p.(img := Stored(p.img, va, b))
          && OneFrame(old(m.pages), m.pages, p.s.dir, vp)
        else slots[i] == p && m.pages == old(m.pages)
    {
      ghost var pages, p := m.pages, slots[i];
      StorePage(m.used, pages, Own(), slots, i, va / FRAME_SIZE);
      var at := Translate(m.pages, a.user[procs[i].space].dir, va / FRAME_SIZE);
      KernelStays(pages, pages, a.kernel);
      if at.Mapped? && at.user && at.writable {
        var page: Page := m.pages[at.frame][va % FRAME_SIZE := b];
        FoldedStore(m.used, pages, Own(), slots, i, va / FRAME_SIZE, page);
        m.pages := m.pages[at.frame := page];
        KernelStays(pages, m.pages, a.kernel);
        slots := slots[i := p.(img := Rewritten(p.img, va / FRAME_SIZE, page))];
        SameCover(procs[i].regions, p.img, va / FRAME_SIZE, page);
      }
    }

    /** user_process_clear of a process of the table: exactly what it held is free again. */
    method Stop(i: nat)
      requires Valid() && i < |procs| && slots[i].Live?
      modifies this, m, a`user, procs[i]
      ensures Valid() && KernelKept(old(m.pages), m.pages, a.kernel)
      ensures Stopped(old(View()), View(), i)
    {
      ghost var used, pages, p := m.used, m.pages, slots[i];
      ghost var rest := used - Holding(pages, p);
      FoldedLeaves(used, pages, Own(), slots, i);
      Clear(m, a, procs[i], rest, pages, p.img);
      FoldedLeft(used, pages, Own(), slots, m.pages, i);
      KernelStays(pages, m.pages, a.kernel);
      assert |procs[i].Frames()| == 0;
      slots := slots[i := Free];
    }
  }

  /** Only the frame of page vp has changed. */
  ghost predicate OneFrame(pages: seq<Page>, pages': seq<Page>, dir: nat, vp: nat) {
    && |pages| == ALL_PAGES && dir < ALL_PAGES && vp < PAGE_COUNT && Translate(pages, dir, vp).Mapped?
    && Only(pages, pages', {Translate(pages, dir, vp).frame})
  }

  /** The memory of a program with other bytes on one page. */
  ghost function Rewritten(img: Contents, vp: nat, page: Page): Contents
    requires vp in img
  {
    img[vp := img[vp].(bytes := page)]
  }

  /** The memory of a program with another byte at one address. */
  ghost function Stored(img: Contents, va: nat, b: byte): Contents
    requires va / FRAME_SIZE in img
  {
    Rewritten(img, va / FRAME_SIZE, img[va / FRAME_SIZE].bytes[va % FRAME_SIZE := b])
  }

  /** The program reads back what it stored, and everywhere else what it did; what it may write to stays the same. */
  lemma StoreThenRead(img: Contents, va: nat, b: byte, x: nat)
    requires va / 4096 in img && x / 4096 in img
    ensures
      var img' := Stored(img, va, b);
      && img'.Keys == img.Keys && img'[x / 4096].writable == img[x / 4096].writable
      && img'[x / 4096].bytes[x % 4096] == if x == va then b else img[x / 4096].bytes[x % 4096]
  {
    assert x == x / 4096 * 4096 + x % 4096 && va == va / 4096 * 4096 + va % 4096;
  }

  lemma SameCover(regions: seq<Region>, img: Contents, vp: nat, page: Page)
    requires Covered(regions, img) && vp in img
    ensures Covered(regions, Rewritten(img, vp, page))
  {
    forall k | 0 <= k < |regions| ensures RegionCovered(regions[k], Rewritten(img, vp, page)) {
    }
  }

  /** A process writes a page of its own: that page of that process changes, and nothing else anybody can see. */
  lemma StoreOne(used: set<nat>, pages: seq<Page>, p: Slot, vp: nat, page: Page)
    requires p.Live? && Sound(used, pages, p) && vp < PAGE_COUNT && UserPage(pages, p.s.dir, vp)
    ensures
      var f := Translate(pages, p.s.dir, vp).frame;
      && f in p.data && f < ALL_PAGES && vp in p.img
      && Sound(used, pages[f := page], p.(img := Rewritten(p.img, vp, page))) && Holding(pages[f := page], p) == Holding(pages, p)
  {
    var f := Translate(pages, p.s.dir, vp).frame;
    SpaceKept(pages, f, page, p.s);
    OneSame(pages, pages[f := page], p.s.dir);
    assert Asked(0);
  }

  lemma StoreSystem(used: set<nat>, pages: seq<Page>, own: set<nat>, procs: seq<Slot>, i: nat, vp: nat, page: Page)
    requires SystemOk(used, pages, own, procs) && i < |procs| && procs[i].Live? && vp < PAGE_COUNT && UserPage(pages, procs[i].s.dir, vp)
    ensures
      var f := Translate(pages, procs[i].s.dir, vp).frame;
      && f < ALL_PAGES && f in Holding(pages, procs[i]) && vp in procs[i].img
      && SystemOk(used, pages[f := page], own, procs[i := procs[i].(img := Rewritten(procs[i].img, vp, page))])
  {
    StoreOne(used, pages, procs[i], vp, page);
    var f := Translate(pages, procs[i].s.dir, vp).frame;
    var pages' := pages[f := page];
    forall j | 0 <= j < |procs| && j != i && procs[j].Live?
      ensures Sound(used, pages', procs[j]) && Holding(pages', procs[j]) == Holding(pages, procs[j])
    {
      assert Holding(pages, procs[i]) !! Holding(pages, procs[j]);
      Undisturbed(used, pages, used, pages', procs[j]);
    }
  }

  lemma StorePage(used: set<nat>, pages: seq<Page>, own: set<nat>, procs: seq<Slot>, i: nat, vp: nat)
    requires FoldedSystem(used, pages, own, procs) && i < |procs| && procs[i].Live? && vp < PAGE_COUNT
    ensures |pages| == ALL_PAGES && procs[i].s.dir < ALL_PAGES
    ensures
      var at := Translate(pages, procs[i].s.dir, vp);
      (at.Mapped? && at.user <==> vp in procs[i].img) && (vp in procs[i].img ==> at.frame < ALL_PAGES && pages[at.frame] == procs[i].img[vp].bytes && at.writable == procs[i].img[vp].writable)
  {
    UnfoldSystem(used, pages, own, procs);
    assert UserPage(pages, procs[i].s.dir, vp) <==> vp in procs[i].img;
  }

  lemma FoldedStore(used: set<nat>, pages: seq<Page>, own: set<nat>, procs: seq<Slot>, i: nat, vp: nat, page: Page)
    requires FoldedSystem(used, pages, own, procs) && i < |procs| && procs[i].Live? && vp < PAGE_COUNT
    requires |pages| == ALL_PAGES && procs[i].s.dir < ALL_PAGES && UserPage(pages, procs[i].s.dir, vp)
    ensures
      var f := Translate(pages, procs[i].s.dir, vp).frame;
      && f < ALL_PAGES && f !in own && vp in procs[i].img
      && FoldedSystem(used, pages[f := page], own, procs[i := procs[i].(img := Rewritten(procs[i].img, vp, page))])
  {
    UnfoldSystem(used, pages, own, procs);
    StoreSystem(used, pages, own, procs, i, vp, page);
  }

  ghost predicate FoldedSystem(used: set<nat>, pages: seq<Page>, own: set<nat>, procs: seq<Slot>) {
    forall k :: Asked(k) ==> SystemOk(used, pages, own, procs)
  }

  lemma UnfoldSystem(used: set<nat>, pages: seq<Page>, own: set<nat>, procs: seq<Slot>)
    requires FoldedSystem(used, pages, own, procs)
    ensures SystemOk(used, pages, own, procs)
  {
    assert Asked(0);
  }

  lemma FoldedJoins(used: set<nat>, pages: seq<Page>, own: set<nat>, procs: seq<Slot>, used': set<nat>, pages': seq<Page>, i: nat, p: Slot)
    requires FoldedSystem(used, pages, own, procs) && i < |procs| && procs[i].Free? && p.Live?
    requires Folded(used, pages, used', pages', p.s, p.data, p.img)
    requires forall j :: 0 <= j < |procs| && procs[j].Live? ==> procs[j].slot != p.slot
    ensures FoldedSystem(used', pages', own, procs[i := p])
    ensures own <= used <= used' && KeepsUsed(pages, pages', used)
    ensures Holding(pages', p) !! used && used' == used + Holding(pages', p)
  {
    UnfoldSystem(used, pages, own, procs);
    Unfold(used, pages, used', pages', p.s, p.data, p.img);
    Joins(used, pages, own, procs, used', pages', i, p);
  }

  lemma FoldedLeaves(used: set<nat>, pages: seq<Page>, own: set<nat>, procs: seq<Slot>, i: nat)
    requires FoldedSystem(used, pages, own, procs) && i < |procs| && procs[i].Live?
    ensures Folded(used - Holding(pages, procs[i]), pages, used, pages, procs[i].s, procs[i].data, procs[i].img)
    ensures own <= used - Holding(pages, procs[i])
    ensures forall j :: 0 <= j < |procs| && j != i && procs[j].Live? ==> procs[j].slot != procs[i].slot
  {
    UnfoldSystem(used, pages, own, procs);
    AsLoading(used, pages, procs[i]);
  }

  lemma FoldedLeft(used: set<nat>, pages: seq<Page>, own: set<nat>, procs: seq<Slot>, pages': seq<Page>, i: nat)
    requires FoldedSystem(used, pages, own, procs) && i < |procs| && procs[i].Live?
    requires KeepsUsed(pages, pages', used - Holding(pages, procs[i]))
    ensures FoldedSystem(used - Holding(pages, procs[i]), pages', own, procs[i := Free])
  {
    UnfoldSystem(used, pages, own, procs);
    Leaves(used, pages, own, procs, pages', i);
  }

  /** Writing only free frames disturbs nobody. */
  lemma FoldedStays(used: set<nat>, pages: seq<Page>, pages': seq<Page>, own: set<nat>, procs: seq<Slot>)
    requires FoldedSystem(used, pages, own, procs) && KeepsUsed(pages, pages', used)
    ensures FoldedSystem(used, pages', own, procs)
  {
    UnfoldSystem(used, pages, own, procs);
    forall j | 0 <= j < |procs| && procs[j].Live?
      ensures Sound(used, pages', procs[j]) && Holding(pages', procs[j]) == Holding(pages, procs[j])
    {
      Undisturbed(used, pages, used, pages', procs[j]);
    }
  }

  /** The frames of processes and the kernel's tables are not frame 0. */
  lemma NotZero(used: set<nat>, pages: seq<Page>, own: set<nat>, procs: seq<Slot>, i: nat)
    requires SystemOk(used, pages, own, procs) && i < |procs| && procs[i].Live?
    ensures 0 !in Holding(pages, procs[i])
  {
  }

  /** A free frame becomes the kernel's own. */
  lemma FoldedTaken(used: set<nat>, pages: seq<Page>, own: set<nat>, procs: seq<Slot>, f: nat, page: Page)
    requires FoldedSystem(used, pages, own, procs) && |pages| == ALL_PAGES && f < NUM_FRAMES && f !in used
    ensures FoldedSystem(used + {f}, pages[f := page], own + {f}, procs)
  {
    UnfoldSystem(used, pages, own, procs);
    var pages' := pages[f := page];
    forall j | 0 <= j < |procs| && procs[j].Live?
      ensures Sound(used + {f}, pages', procs[j]) && Holding(pages', procs[j]) == Holding(pages, procs[j]) && f !in Holding(pages, procs[j])
    {
      Undisturbed(used, pages, used + {f}, pages', procs[j]);
    }
  }

  /** Nobody holds frame 0. */
  lemma FoldedZero(used: set<nat>, pages: seq<Page>, own: set<nat>, procs: seq<Slot>, page: Page)
    requires FoldedSystem(used, pages, own, procs) && |pages| == ALL_PAGES
    ensures FoldedSystem(used, pages[0 := page], own, procs)
  {
    UnfoldSystem(used, pages, own, procs);
    var pages' := pages[0 := page];
    forall j | 0 <= j < |procs| && procs[j].Live?
      ensures Sound(used, pages', procs[j]) && Holding(pages', procs[j]) == Holding(pages, procs[j])
    {
      NotZero(used, pages, own, procs, j);
      Undisturbed(used, pages, used, pages', procs[j]);
    }
  }

  /** A load leaves what was in use before as it was. */
  lemma LoadKept(used0: set<nat>, pages0: seq<Page>, used: set<nat>, pages: seq<Page>, s: Space, data: set<nat>, img: Contents)
    requires Folded(used0, pages0, used, pages, s, data, img)
    ensures used0 <= used && KeepsUsed(pages0, pages, used0)
  {
    Unfold(used0, pages0, used, pages, s, data, img);
  }

  /** Writing one frame that is not its own leaves a process what it holds. */
  lemma HoldingStays(pages: seq<Page>, pages': seq<Page>, f: nat, used: set<nat>, own: set<nat>, procs: seq<Slot>, i: nat)
    requires FoldedSystem(used, pages', own, procs) && i < |procs| && procs[i].Live? && (f == 0 || f in own)
    requires |pages| == |pages'| == ALL_PAGES && f < ALL_PAGES && pages' == pages[f := pages'[f]]
    ensures Holding(pages, procs[i]) == Holding(pages', procs[i]) && f !in Holding(pages, procs[i])
  {
    UnfoldSystem(used, pages', own, procs);
    NotZero(used, pages', own, procs, i);
    assert procs[i].s.dir in SpaceFrames(pages', procs[i].s.dir);
    SameDirOk(pages', pages, procs[i].s.dir);
  }

  lemma KernelThrough(pages: seq<Page>, pages1: seq<Page>, pages2: seq<Page>, kernel: Space)
    requires KernelKept(pages, pages1, kernel) && KernelKept(pages1, pages2, kernel)
    ensures KernelKept(pages, pages2, kernel)
  {
  }

  lemma KernelNotZero(pages: seq<Page>, kernel: Space)
    requires FoldedKernel(pages, kernel)
    ensures kernel.dir != 0 && kernel.low != 0
  {
    assert Asked(0);
    assert kernel.low in SpaceFrames(pages, kernel.dir);
  }

  lemma SpaceThere(used: set<nat>, pages: seq<Page>, own: set<nat>, procs: seq<Slot>, i: nat)
    requires FoldedSystem(used, pages, own, procs) && i < |procs| && procs[i].Live?
    ensures SpaceOk(pages, procs[i].s.dir) && SpaceFrames(pages, procs[i].s.dir) <= used
  {
    UnfoldSystem(used, pages, own, procs);
  }

  /** Every page of a space stands for what it did, and no frame outside of it changed. */
  ghost predicate SameSpace(pages: seq<Page>, pages': seq<Page>, dir: nat) {
    && |pages| == |pages'| == ALL_PAGES && dir < ALL_PAGES
    && Only(pages, pages', SpaceFrames(pages, dir)) && SpaceFrames(pages', dir) == SpaceFrames(pages, dir)
    && forall vp :: 0 <= vp < PAGE_COUNT ==> Translate(pages', dir, vp) == Translate(pages, dir, vp)
  }

  lemma SameThrough(pages: seq<Page>, pages1: seq<Page>, pages2: seq<Page>, dir: nat)
    requires SameSpace(pages, pages1, dir) && SameSpace(pages1, pages2, dir)
    ensures SameSpace(pages, pages2, dir)
  {
  }

  lemma MarkedSame(pages: seq<Page>, pages': seq<Page>, dir: nat, data: set<nat>, img: Contents, a: nat, b: nat)
    requires |pages| == |pages'| == ALL_PAGES && dir < ALL_PAGES && Holds(pages, dir, data, img)
    requires MarkedSpace(pages, pages', dir, a, b) && forall vp :: a <= vp <= b ==> vp in img
    ensures SameSpace(pages, pages', dir)
  {
    forall vp | 0 <= vp < PAGE_COUNT ensures Translate(pages', dir, vp) == Translate(pages, dir, vp) {
      assert a <= vp <= b ==> UserPage(pages, dir, vp);
    }
  }

  /** Marking a region of a process changes nothing a process can see. */
  lemma Marked(used: set<nat>, pages: seq<Page>, pages': seq<Page>, own: set<nat>, procs: seq<Slot>, i: nat, a: nat, b: nat)
    requires SystemOk(used, pages, own, procs) && i < |procs| && procs[i].Live? && |pages'| == |pages|
    requires MarkedSpace(pages, pages', procs[i].s.dir, a, b) && forall vp :: a <= vp <= b ==> vp in procs[i].img
    ensures SystemOk(used, pages', own, procs)
  {
    MarkOwn(pages, pages', procs[i].s.dir, procs[i].data, procs[i].img, a, b);
    assert Sound(used, pages', procs[i]) && Holding(pages', procs[i]) == Holding(pages, procs[i]);
    forall j | 0 <= j < |procs| && procs[j].Live?
      ensures Sound(used, pages', procs[j]) && Holding(pages', procs[j]) == Holding(pages, procs[j])
    {
      if j != i {
        assert Holding(pages, procs[i]) !! Holding(pages, procs[j]);
        Undisturbed(used, pages, used, pages', procs[j]);
      }
    }
  }

  lemma FoldedMarked(used: set<nat>, pages: seq<Page>, pages': seq<Page>, own: set<nat>, procs: seq<Slot>, i: nat, r: Region)
    requires FoldedSystem(used, pages, own, procs) && i < |procs| && procs[i].Live? && RegionCovered(r, procs[i].img)
    requires |pages'| == |pages| == ALL_PAGES && procs[i].s.dir < ALL_PAGES
    requires MarkedSpace(pages, pages', procs[i].s.dir, r.start / FRAME_SIZE, (r.start + r.len - 1) / FRAME_SIZE)
    ensures FoldedSystem(used, pages', own, procs) && KeepsUsed(pages, pages', own) && SameSpace(pages, pages', procs[i].s.dir)
  {
    UnfoldSystem(used, pages, own, procs);
    MarkedSame(pages, pages', procs[i].s.dir, procs[i].data, procs[i].img, r.start / FRAME_SIZE, (r.start + r.len - 1) / FRAME_SIZE);
    Marked(used, pages, pages', own, procs, i, r.start / FRAME_SIZE, (r.start + r.len - 1) / FRAME_SIZE);
  }

  // ---- isolation ----

  /** A page open to the users of one process stands for a frame that is that process's own: no other process can reach
      it, and it is no page table or directory of any process and none of the kernel's own frames. */
  lemma Isolated(used: set<nat>, pages: seq<Page>, own: set<nat>, procs: seq<Slot>, i: nat, j: nat, vp: nat)
    requires SystemOk(used, pages, own, procs) && i < |procs| && j < |procs| && procs[i].Live? && procs[j].Live?
    requires vp < PAGE_COUNT && UserPage(pages, procs[i].s.dir, vp)
    ensures
      var f := Translate(pages, procs[i].s.dir, vp).frame;
      && f in procs[i].data && f in used && f !in own && f !in SpaceFrames(pages, procs[j].s.dir)
      && (i != j ==> f !in procs[j].data && NotMapped(pages, procs[j].s.dir, f))
  {
    var f := Translate(pages, procs[i].s.dir, vp).frame;
    assert f in Holding(pages, procs[i]);
    if i < j {
      assert Holding(pages, procs[i]) !! Holding(pages, procs[j]);
    } else if j < i {
      assert Holding(pages, procs[j]) !! Holding(pages, procs[i]);
    }
  }

  // ---- runs ----

  datatype Event =
    | StartEvent(slot: nat, image: seq<byte>, argv: seq<seq<byte>>, taskSlot: bool, top: seq<byte>)
    | FlatEvent(slot: nat, image: seq<byte>, argv: seq<seq<byte>>, taskSlot: bool, top: seq<byte>)
    | CheckEvent(slot: nat, image: seq<byte>)
    | PrepareEvent(slot: nat)
    | StoreEvent(slot: nat, va: u32, b: byte)
    | StopEvent(slot: nat)
    | TaskEvent(top: seq<byte>)

  /** What user_process_set_args, the file buffer and create_task give. */
  predicate Callable(e: Event) {
    && (e.StartEvent? || e.FlatEvent? ==> |e.argv| <= USER_MAX_ARGS && forall k :: 0 <= k < |e.argv| ==> |e.argv[k]| < USER_ARG_MAX)
    && (e.StartEvent? || e.CheckEvent? ==> |e.image| < 0x8000_0000 && HeadersReadable(e.image))
    && (e.StartEvent? || e.FlatEvent? || e.TaskEvent? ==> |e.top| == TOP_BYTES)
  }

  ghost predicate FreeAt(a: State, i: nat) {
    i < |a.slots| && a.slots[i].Free?
  }

  ghost predicate LiveAt(a: State, i: nat) {
    i < |a.slots| && a.slots[i].Live?
  }

  /** The store of a program changes its own byte, if its page may be written. */
  ghost predicate StoreDone(a: State, b: State, i: nat, va: u32, x: byte)
    requires LiveAt(a, i)
  {
    var p, vp := a.slots[i], va / FRAME_SIZE;
    if vp in p.img && p.img[vp].writable
    then b == a.(pages := b.pages, slots := a.slots[i := p.(img := Stored(p.img, va, x))]) && OneFrame(a.pages, b.pages, p.s.dir, vp)
    else b == a
  }

  /** A kernel task has a stack in a frame that was free, if there was one. */
  ghost predicate Stacked(a: State, b: State) {
    var stack := b.stacks - a.stacks;
    && b == State(a.used + stack, b.pages, a.user, a.slots, a.stacks + stack) && stack !! a.used
    && |stack| == (if Left(a.used) == 0 then 0 else 1)
    && |b.pages| == |a.pages| && forall f :: f in a.used && 0 < f < |a.pages| ==> b.pages[f] == a.pages[f]
  }

  /** What each event does. */
  ghost predicate Does(e: Event, a: State, b: State) {
    match e
    case StartEvent(i, image, argv, taskSlot, _) =>
      if FreeAt(a, i) && ElfStarts(a, image, taskSlot)
      then Launched(a, b, i, 3 + FramesFor(image)) && ElfLoaded(image, argv, b.slots[i].img) else Calm(a, b)
    case FlatEvent(i, image, argv, taskSlot, _) =>
      if FreeAt(a, i) && FlatStarts(a, image, taskSlot)
      then Launched(a, b, i, 3 + ImagePages(|image|)) && FlatLoaded(image, argv, b.slots[i].img) else Calm(a, b)
    case CheckEvent(_, _) => Calm(a, b)
    case PrepareEvent(i) =>
      if LiveAt(a, i) then b == a.(pages := b.pages) && SameSpace(a.pages, b.pages, a.slots[i].s.dir) else b == a
    case StoreEvent(i, va, x) => if LiveAt(a, i) then StoreDone(a, b, i, va, x) else b == a
    case StopEvent(i) => if LiveAt(a, i) then Stopped(a, b, i) else b == a
    case TaskEvent(_) => Stacked(a, b)
  }

  /** The same, for methods that only pass it on. */
  ghost predicate Did(e: Event, a: State, b: State) {
    forall k :: Owed(k) ==> Does(e, a, b)
  }

  lemma DidDoes(e: Event, a: State, b: State)
    ensures Did(e, a, b) <==> Does(e, a, b)
  {
    assert Owed(0);
  }

  method DoFree(t: ProcessTable, e: Event)
    requires t.Valid() && Callable(e) && !e.TaskEvent? && e.slot < |t.procs| && t.slots[e.slot].Free?
    modifies t, t.m, t.a`user, t.procs[e.slot]
    ensures t.Valid() && KernelKept(old(t.m.pages), t.m.pages, t.a.kernel) && Does(e, old(t.View()), t.View())
  {
    var ok;
    KernelStays(t.m.pages, t.m.pages, t.a.kernel);
    match e {
      case StartEvent(i, image, argv, taskSlot, top) => ok := t.Start(i, image, argv, taskSlot, top);
      case FlatEvent(i, image, argv, taskSlot, top) => ok := t.StartFlat(i, image, argv, taskSlot, top);
      case CheckEvent(i, image) => ok := t.Check(i, image);
      case _ =>
    }
  }

  method DoLive(t: ProcessTable, e: Event)
    requires t.Valid() && !e.TaskEvent? && e.slot < |t.procs| && t.slots[e.slot].Live?
    modifies t, t.m, t.a`user, t.procs[e.slot]
    ensures t.Valid() && KernelKept(old(t.m.pages), t.m.pages, t.a.kernel) && Does(e, old(t.View()), t.View())
  {
    KernelStays(t.m.pages, t.m.pages, t.a.kernel);
    match e {
      case PrepareEvent(i) => t.Prepare(i);
      case StoreEvent(i, va, b) => t.Store(i, va, b);
      case StopEvent(i) => t.Stop(i);
      case _ =>
    }
  }

  lemma StackedBy(a: State, b: State, f: nat)
    requires a.stacks <= a.used && (f == 0 <==> Left(a.used) == 0) && b.user == a.user && b.slots == a.slots
    requires if f == 0 then b.used == a.used && b.stacks == a.stacks
             else f !in a.used && b.used == a.used + {f} && b.stacks == a.stacks + {f}
    requires Only(a.pages, b.pages, {f})
    ensures Stacked(a, b)
  {
    assert b.stacks - a.stacks == if f == 0 then {} else {f};
  }

  method DoTask(t: ProcessTable, top: seq<byte>)
    requires t.Valid() && |top| == TOP_BYTES
    modifies t, t.m
    ensures t.Valid() && KernelKept(old(t.m.pages), t.m.pages, t.a.kernel) && Stacked(old(t.View()), t.View())
  {
    ghost var a := t.View();
    StacksUsed(a.used, a.pages, t.Own(), t.slots);
    var f := t.KernelStack(top);
    StackedBy(a, t.View(), f);
  }

  lemma StacksUsed(used: set<nat>, pages: seq<Page>, own: set<nat>, procs: seq<Slot>)
    requires FoldedSystem(used, pages, own, procs)
    ensures own <= used
  {
    UnfoldSystem(used, pages, own, procs);
  }

  /** The processes are apart. */
  ghost predicate Separate(a: State, kernel: Space) {
    FoldedSystem(a.used, a.pages, {kernel.dir, kernel.low} + a.stacks, a.slots)
  }

  ghost predicate AllSeparate(states: seq<State>, kernel: Space) {
    forall k :: 0 <= k < |states| ==> Separate(states[k], kernel)
  }

  method DoEvent(t: ProcessTable, e: Event)
    requires t.Valid() && Callable(e)
    modifies t, t.m, t.a`user, t.procs
    ensures t.Valid() && KernelKept(old(t.m.pages), t.m.pages, t.a.kernel) && Did(e, old(t.View()), t.View())
  {
    KernelStays(t.m.pages, t.m.pages, t.a.kernel);
    if e.TaskEvent? {
      DoTask(t, e.top);
    } else if e.slot < |t.procs| {
      if t.procs[e.slot].space >= 0 {
        DoLive(t, e);
      } else {
        DoFree(t, e);
      }
    }
  }

  /** Event k led from states[k] to states[k + 1]. */
  ghost predicate StepAt(events: seq<Event>, states: seq<State>, k: nat) {
    k < |events| && k + 1 < |states| && Did(events[k], states[k], states[k + 1])
  }

  ghost predicate Ran(events: seq<Event>, states: seq<State>, n: nat) {
    n <= |events| && |states| == n + 1 && forall k :: 0 <= k < n ==> StepAt(events, states, k)
  }

  lemma StepKept(events: seq<Event>, states: seq<State>, b: State, k: nat)
    requires StepAt(events, states, k)
    ensures StepAt(events, states + [b], k)
  {
    assert (states + [b])[k] == states[k] && (states + [b])[k + 1] == states[k + 1];
  }

  lemma StepNew(events: seq<Event>, states: seq<State>, n: nat, b: State)
    requires n < |events| && |states| == n + 1 && Did(events[n], states[n], b)
    ensures StepAt(events, states + [b], n)
  {
    assert (states + [b])[n] == states[n] && (states + [b])[n + 1] == b;
  }

  lemma RanMore(events: seq<Event>, states: seq<State>, n: nat, b: State)
    requires n < |events| && Ran(events, states, n) && StepAt(events, states + [b], n)
    ensures Ran(events, states + [b], n + 1)
  {
    forall k | 0 <= k < n ensures StepAt(events, states + [b], k) {
      StepKept(events, states, b, k);
    }
  }

  /** Any sequence of starts, checks, runs, stores by the programs themselves, stops and new kernel tasks keeps the processes
      apart at every moment, and changes no translation of the kernel. */
  method Play(t: ProcessTable, events: seq<Event>) returns (ghost states: seq<State>)
    requires t.Valid() && forall k :: 0 <= k < |events| ==> Callable(events[k])
    modifies t, t.m, t.a`user, t.procs
    ensures t.Valid() && KernelKept(old(t.m.pages), t.m.pages, t.a.kernel)
    ensures Ran(events, states, |events|) && states[0] == old(t.View()) && states[|events|] == t.View() && AllSeparate(states, t.a.kernel)
  {
    KernelStays(t.m.pages, t.m.pages, t.a.kernel);
    ghost var start, kernel := t.View(), t.a.kernel;
    states := [start];
    for k := 0 to |events|
      invariant t.Valid() && t.a.kernel == kernel && KernelKept(start.pages, t.m.pages, kernel)
      invariant Ran(events, states, k) && states[0] == start && states[k] == t.View() && AllSeparate(states, kernel)
    {
      ghost var pages := t.m.pages;
      DoEvent(t, events[k]);
      KernelThrough(start.pages, pages, t.m.pages, kernel);
      StepNew(events, states, k, t.View());
      RanMore(events, states, k, t.View());
      states := states + [t.View()];
    }
  }

  /** The memory map gives two frames. */
  ghost predicate GivesTwo(ranges: seq<MemoryRange>) {
    exists f, g :: 0 <= f < g < NUM_FRAMES && Given(ranges, |ranges|, f) && Given(ranges, |ranges|, g)
  }

  lemma GivenFree(ranges: seq<MemoryRange>)
    requires GivesTwo(ranges)
    ensures TwoFree(UsedAfter(ranges, |ranges|))
  {
    var f, g :| 0 <= f < g < NUM_FRAMES && Given(ranges, |ranges|, f) && Given(ranges, |ranges|, g);
    assert f !in UsedAfter(ranges, |ranges|) && g !in UsedAfter(ranges, |ranges|);
  }

  /** init_frames and init_paging, if the memory map does not wrap to frame 0 and gives two frames for the kernel. */
  method BootMemory(words: seq<Word>, memory: seq<Page>, ranges: seq<MemoryRange>) returns (m: Memory, a: Spaces)
    requires |words| == WORDS && |memory| == ALL_PAGES && GivesTwo(ranges) && forall i :: 0 <= i < |ranges| ==> !StartsAtWrap(ranges[i])
    ensures fresh(m) && fresh(a) && KernelOk(m, a) && a.kernel.dir < ALL_PAGES && IdentityMapped(m.pages, a.kernel.dir)
  {
    m := new Memory(words, memory);
    InitFrames(m, ranges);
    FrameZeroUsed(ranges);
    GivenFree(ranges);
    var kernel := InitPaging(m);
    a := new Spaces(kernel);
  }

  /** They lead to a table in which nothing runs. */
  method Boot(words: seq<Word>, memory: seq<Page>, ranges: seq<MemoryRange>, procs: seq<Process>) returns (t: ProcessTable)
    requires |words| == WORDS && |memory| == ALL_PAGES && |procs| == MAX_USER_PROCESSES && NoDup(procs)
    requires forall i :: 0 <= i < |procs| ==> procs[i].space == -1 && procs[i].Frames() == [] && procs[i].stackFrame == 0
    requires GivesTwo(ranges) && forall i :: 0 <= i < |ranges| ==> !StartsAtWrap(ranges[i])
    ensures t.Valid() && t.a.kernel.dir < ALL_PAGES && IdentityMapped(t.m.pages, t.a.kernel.dir) && t.stacks == {}
    ensures forall i :: 0 <= i < |t.slots| ==> t.slots[i].Free?
  {
    var m, a := BootMemory(words, memory, ranges);
    t := new ProcessTable(m, a, procs);
  }
}
