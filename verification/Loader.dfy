/** Loading the segments of an ELF image into a process (user_map_elf_segments of cpu/user_mode.c). */
module Loader {
  import opened Sequences
  import opened Bytes
  import opened Frames
  import opened PageTables
  import opened Paging
  import opened ProcessMemory
  import opened Elf

  const USER_MAX_ELF_FRAMES := 16
  const USER_MAX_ELF_REGIONS := 8
  const PAGE_USER := 4
  const PAGE_RW := 2
  const REGION_READ := 1
  const REGION_WRITE := 2
  const REGION_EXEC := 4

  datatype Region = Region(start: u32, len: u32, flags: nat)

  // ---- the memory image a program describes ----

  /** What a segment puts on a page; the program may write to it if bit 1 of the segment's flags is set. */
  function SegmentCell(s: Segment, image: seq<byte>, vp: nat): Cell
    requires s.offset + s.filesz <= |image|
  {
    Cell(SegmentPage(s, image, vp * FRAME_SIZE), s.flags / 2 % 2 == 1)
  }

  /** The contents with pages a to b - 1 of a segment put in. */
  function AddPages(img: Contents, s: Segment, image: seq<byte>, a: nat, b: nat): Contents
    requires s.offset + s.filesz <= |image|
  {
    if b <= a then img
    else
      var r: Contents := AddPages(img, s, image, a, b - 1);
      r[b - 1 := SegmentCell(s, image, b - 1)]
  }

  lemma {:induction false} AddPagesAt(img: Contents, s: Segment, image: seq<byte>, a: nat, b: nat, vp: nat)
    requires s.offset + s.filesz <= |image|
    ensures vp in AddPages(img, s, image, a, b) <==> vp in img || a <= vp < b
    ensures a <= vp < b ==> AddPages(img, s, image, a, b)[vp] == SegmentCell(s, image, vp)
    ensures vp in img && !(a <= vp < b) ==> AddPages(img, s, image, a, b)[vp] == img[vp]
    decreases b
  {
    if a < b {
      AddPagesAt(img, s, image, a, b - 1, vp);
    }
  }

  /** The contents after the first n segments were loaded, later ones over earlier ones. */
  ghost function ImageOf(image: seq<byte>, n: nat, img: Contents): Contents
    requires SegmentsOk(image) && n <= PhNum(image)
  {
    if n == 0 then img
    else
      var before: Contents := ImageOf(image, n - 1, img);
      assert HeaderAtOk(image, n - 1);
      var s := SegmentAt(image, n - 1);
      if s.kind != PT_LOAD then before else AddPages(before, s, image, FirstPage(s), EndPage(s))
  }

  ghost predicate Covers(image: seq<byte>, i: nat, vp: nat)
    requires SegmentsOk(image) && i < PhNum(image)
  {
    assert HeaderAtOk(image, i);
    var s := SegmentAt(image, i);
    s.kind == PT_LOAD && FirstPage(s) <= vp < EndPage(s)
  }

  /** A page that segment i is the last to cover holds what that segment says. */
  lemma {:induction false} ImageAt(image: seq<byte>, n: nat, img: Contents, i: nat, vp: nat)
    requires SegmentsOk(image) && i < n <= PhNum(image) && Covers(image, i, vp)
    requires forall j :: i < j < n ==> !Covers(image, j, vp)
    ensures HeaderAtOk(image, i) && vp in ImageOf(image, n, img)
    ensures ImageOf(image, n, img)[vp] == SegmentCell(SegmentAt(image, i), image, vp)
    decreases n
  {
    assert HeaderAtOk(image, n - 1) && HeaderAtOk(image, i);
    var s := SegmentAt(image, n - 1);
    var before := ImageOf(image, n - 1, img);
    if s.kind == PT_LOAD {
      AddPagesAt(before, s, image, FirstPage(s), EndPage(s), vp);
    }
    if i < n - 1 {
      assert !Covers(image, n - 1, vp);
      ImageAt(image, n - 1, img, i, vp);
    }
  }

  /** A page no segment covers is as it was before. */
  lemma {:induction false} ImageElsewhere(image: seq<byte>, n: nat, img: Contents, vp: nat)
    requires SegmentsOk(image) && n <= PhNum(image) && forall j :: 0 <= j < n ==> !Covers(image, j, vp)
    ensures vp in ImageOf(image, n, img) <==> vp in img
    ensures vp in img ==> ImageOf(image, n, img)[vp] == img[vp]
    decreases n
  {
    if n > 0 {
      assert HeaderAtOk(image, n - 1) && !Covers(image, n - 1, vp);
      var s := SegmentAt(image, n - 1);
      ImageElsewhere(image, n - 1, img, vp);
      if s.kind == PT_LOAD {
        AddPagesAt(ImageOf(image, n - 1, img), s, image, FirstPage(s), EndPage(s), vp);
      }
    }
  }

  // ---- what an image takes ----

  /** The supply after pages a to b - 1 were mapped. */
  function SpendRange(s: Supply, a: nat, b: nat): Supply {
    if b <= a then s else Spend(SpendRange(s, a, b - 1), b - 1)
  }

  /** The directory entries of these pages. */
  ghost function RangeTables(a: nat, b: nat): set<nat> {
    set vp | a <= vp < b :: DirIndex(vp)
  }

  lemma {:induction false} SpendLess(s: Supply, a: nat, b: nat, c: nat)
    requires b <= c
    ensures SpendRange(s, a, c).left <= SpendRange(s, a, b).left
    decreases c
  {
    if b < c {
      SpendLess(s, a, b, c - 1);
    }
  }

  lemma OneMore(have: set<nat>, i: nat)
    ensures |have + {i}| == |have| + if i in have then 0 else 1
  {
    if i in have {
      assert have + {i} == have;
    }
  }

  lemma SpendOne(s: Supply, vp: nat)
    ensures Spend(s, vp).left + 1 + |Spend(s, vp).have| == s.left + |s.have|
  {
    OneMore(s.have, DirIndex(vp));
  }

  lemma TablesMore(a: nat, b: nat)
    requires a <= b
    ensures RangeTables(a, a) == {} && RangeTables(a, b + 1) == RangeTables(a, b) + {DirIndex(b)}
  {
  }

  lemma {:induction false} SpendHave(s: Supply, a: nat, b: nat)
    requires a <= b
    ensures SpendRange(s, a, b).have == s.have + RangeTables(a, b)
    decreases b
  {
    if a < b {
      SpendHave(s, a, b - 1);
      TablesMore(a, b - 1);
      assert SpendRange(s, a, b) == Spend(SpendRange(s, a, b - 1), b - 1);
      assert s.have + RangeTables(a, b) == s.have + RangeTables(a, b - 1) + {DirIndex(b - 1)};
    } else {
      TablesMore(a, b);
    }
  }

  lemma {:induction false} SpendCount(s: Supply, a: nat, b: nat)
    requires a <= b
    ensures SpendRange(s, a, b).left + (b - a) + |SpendRange(s, a, b).have| == s.left + |s.have|
    decreases b
  {
    if a < b {
      SpendCount(s, a, b - 1);
      assert SpendRange(s, a, b) == Spend(SpendRange(s, a, b - 1), b - 1);
      SpendOne(SpendRange(s, a, b - 1), b - 1);
    }
  }

  /** Mapping pages takes a frame for each, and one for each table that was not there. */
  lemma SpendTotal(s: Supply, a: nat, b: nat)
    requires a <= b
    ensures SpendRange(s, a, b).have == s.have + RangeTables(a, b)
    ensures SpendRange(s, a, b).left + (b - a) + |SpendRange(s, a, b).have| == s.left + |s.have|
  {
    SpendHave(s, a, b);
    SpendCount(s, a, b);
  }

  /** The supply after the first n segments were loaded. */
  ghost function SpendImage(image: seq<byte>, n: nat, s: Supply): Supply
    requires SegmentsOk(image) && n <= PhNum(image)
  {
    if n == 0 then s
    else
      assert HeaderAtOk(image, n - 1);
      var g := SegmentAt(image, n - 1);
      if g.kind != PT_LOAD then SpendImage(image, n - 1, s) else SpendRange(SpendImage(image, n - 1, s), FirstPage(g), EndPage(g))
  }

  /** How many pages the first n segments touch, counted for each segment. */
  ghost function PagesOf(image: seq<byte>, n: nat): nat
    requires SegmentsOk(image) && n <= PhNum(image)
  {
    if n == 0 then 0
    else
      assert HeaderAtOk(image, n - 1);
      var g := SegmentAt(image, n - 1);
      PagesOf(image, n - 1) + if g.kind != PT_LOAD then 0 else EndPage(g) - FirstPage(g)
  }

  /** The directory entries of the pages the first n segments touch. */
  ghost function TablesOf(image: seq<byte>, n: nat): set<nat>
    requires SegmentsOk(image) && n <= PhNum(image)
  {
    if n == 0 then {}
    else
      assert HeaderAtOk(image, n - 1);
      var g := SegmentAt(image, n - 1);
      TablesOf(image, n - 1) + if g.kind != PT_LOAD then {} else RangeTables(FirstPage(g), EndPage(g))
  }

  lemma {:induction false} ImageTotal(image: seq<byte>, n: nat, s: Supply)
    requires SegmentsOk(image) && n <= PhNum(image)
    ensures SpendImage(image, n, s).have == s.have + TablesOf(image, n)
    ensures SpendImage(image, n, s).left + PagesOf(image, n) + |SpendImage(image, n, s).have| == s.left + |s.have|
    decreases n
  {
    if n > 0 {
      assert HeaderAtOk(image, n - 1);
      var g := SegmentAt(image, n - 1);
      ImageTotal(image, n - 1, s);
      if g.kind == PT_LOAD {
        SpendTotal(SpendImage(image, n - 1, s), FirstPage(g), EndPage(g));
      }
    }
  }

  /** What more segments take is not less, and they are no fewer regions. */
  lemma {:induction false} ImageMore(image: seq<byte>, i: nat, n: nat, s: Supply)
    requires SegmentsOk(image) && i <= n <= PhNum(image)
    ensures SpendImage(image, n, s).left <= SpendImage(image, i, s).left
    ensures PagesOf(image, i) <= PagesOf(image, n) && |RegionsOf(image, i)| <= |RegionsOf(image, n)|
    decreases n
  {
    if i < n {
      assert HeaderAtOk(image, n - 1);
      var g := SegmentAt(image, n - 1);
      ImageMore(image, i, n - 1, s);
      if g.kind == PT_LOAD {
        SpendLess(SpendImage(image, n - 1, s), FirstPage(g), FirstPage(g), EndPage(g));
      }
    }
  }

  // ---- the process ----

  /** The parts of user_process_t that concern memory, by frame number. */
  class Process {
    var space: int
    var stackFrame: nat
    var imageFrames: seq<nat>
    var elfFrames: seq<nat>
    var regions: seq<Region>
    var entry: u32

    constructor ()
      ensures space == -1 && Frames() == []
    {
      space, stackFrame, imageFrames, elfFrames, regions, entry := -1, 0, [], [], [], 0;
    }

    /** The frames recorded as the process's own. */
    ghost function Frames(): seq<nat>
      reads this
    {
      (if stackFrame != 0 then [stackFrame] else []) + imageFrames + elfFrames
    }
  }

  ghost function SetOf(frames: seq<nat>): set<nat> {
    set f | f in frames
  }

  /** The process has been loading since (used0, pages0); its user pages hold img. */
  ghost predicate InLoad(m: Memory, a: Spaces, p: Process, used0: set<nat>, pages0: seq<Page>, img: Contents)
    reads m, a, p
  {
    var there := m.Valid() && 0 <= p.space < |a.user| && a.user[p.space].dir != 0 && NoDup(p.Frames());
    there && Folded(used0, pages0, m.used, m.pages, a.user[p.space], SetOf(p.Frames()), img)
  }

  /** What the load can draw on. */
  ghost predicate InStock(m: Memory, a: Spaces, p: Process, sup: Supply)
    reads m, a, p
  {
    0 <= p.space < |a.user| && Stocked(m.used, m.pages, a.user[p.space].dir, sup)
  }

  /** A frame of the process is recorded after it was mapped. */
  lemma Recorded(frames: seq<nat>, f: nat)
    requires NoDup(frames) && f !in frames
    ensures NoDup(frames + [f]) && SetOf(frames + [f]) == SetOf(frames) + {f}
  {
  }

  /** One page of elf_map_segment: a frame is taken, filled and mapped. */
  method MapSegmentPage(m: Memory, a: Spaces, p: Process, s: Segment, image: seq<byte>, va: u32, flags: nat,
                        ghost used0: set<nat>, ghost pages0: seq<Page>, ghost img: Contents, ghost vp: nat, ghost sup: Supply)
    returns (ok: bool, ghost img': Contents)
    requires InLoad(m, a, p, used0, pages0, img) && va == vp * FRAME_SIZE && InStock(m, a, p, sup)
    requires s.kind == PT_LOAD && SegmentOk(s, |image|) && |image| < 0x8000_0000 && va + FRAME_SIZE < U32_MOD
    requires flags < FRAME_SIZE && flags / 4 % 2 == 1 && flags / 2 % 2 == s.flags / 2 % 2
    modifies m, p`elfFrames
    ensures InLoad(m, a, p, used0, pages0, img')
    ensures ok ==> img' == img[vp := SegmentCell(s, image, vp)] && InStock(m, a, p, Spend(sup, vp)) && |p.elfFrames| == old(|p.elfFrames|) + 1
    ensures ok <==> old(|p.elfFrames|) < USER_MAX_ELF_FRAMES && Price(sup, vp) <= sup.left
  {
    ok, img' := false, img;
    if |p.elfFrames| < USER_MAX_ELF_FRAMES {
      ghost var frames := p.Frames();
      var filled, page := FillPage(s, image, va);
      var f := PlaceFrame(m, a.user[p.space].dir, va, page, flags, used0, pages0, a.user[p.space], SetOf(frames), img, vp,
                          SegmentCell(s, image, vp), sup);
      ok := f != 0;
      if ok {
        Recorded(frames, f);
        p.elfFrames := p.elfFrames + [f];
        assert p.Frames() == frames + [f];
        img' := img[vp := SegmentCell(s, image, vp)];
      }
    }
  }

  /** There are frames and slots for pages a to b - 1 beside the n there were. */
  ghost predicate PagesFit(sup: Supply, n: nat, a: nat, b: nat) {
    n + b - a <= USER_MAX_ELF_FRAMES && SpendRange(sup, a, b).left >= 0
  }

  lemma PagesFitFewer(sup: Supply, n: nat, a: nat, b: nat, c: nat)
    requires a <= b <= c && PagesFit(sup, n, a, c)
    ensures PagesFit(sup, n, a, b)
  {
    SpendLess(sup, a, b, c);
  }

  /** The loop of elf_map_segment over pages first to last - 1. */
  method MapPages(m: Memory, a: Spaces, p: Process, s: Segment, image: seq<byte>, start: u32, end: u32, flags: nat,
                  ghost first: nat, ghost last: nat, ghost used0: set<nat>, ghost pages0: seq<Page>, ghost img: Contents, ghost sup: Supply)
    returns (ok: bool, ghost img': Contents)
    requires InLoad(m, a, p, used0, pages0, img) && InStock(m, a, p, sup) && PagesFit(sup, |p.elfFrames|, first, first)
    requires s.kind == PT_LOAD && SegmentOk(s, |image|) && |image| < 0x8000_0000 && flags < FRAME_SIZE && flags / 4 % 2 == 1 && flags / 2 % 2 == s.flags / 2 % 2
    requires start == first * FRAME_SIZE && end == last * FRAME_SIZE && first <= last < PAGE_COUNT
    modifies m, p`elfFrames
    ensures InLoad(m, a, p, used0, pages0, img') && (ok <==> PagesFit(sup, old(|p.elfFrames|), first, last))
    ensures ok ==>
      && img' == AddPages(img, s, image, first, last) && InStock(m, a, p, SpendRange(sup, first, last))
      && |p.elfFrames| == old(|p.elfFrames|) + last - first
  {
    var va := start;
    ghost var vp := first;
    img' := img;
    while va < end
      invariant va == vp * FRAME_SIZE && first <= vp <= last
      invariant InLoad(m, a, p, used0, pages0, img') && img' == AddPages(img, s, image, first, vp)
      invariant InStock(m, a, p, SpendRange(sup, first, vp)) && PagesFit(sup, old(|p.elfFrames|), first, vp)
      invariant |p.elfFrames| == old(|p.elfFrames|) + vp - first
    {
      ok, img' := MapSegmentPage(m, a, p, s, image, va, flags, used0, pages0, img', vp, SpendRange(sup, first, vp));
      if !ok {
        if PagesFit(sup, old(|p.elfFrames|), first, last) {
          PagesFitFewer(sup, old(|p.elfFrames|), first, vp + 1, last);
        }
        return;
      }
      va, vp := va + FRAME_SIZE, vp + 1;
    }
    ok := true;
  }

  /** elf_map_segment: the pages of the segment, in order. */
  method MapSegment(m: Memory, a: Spaces, p: Process, s: Segment, image: seq<byte>,
                    ghost used0: set<nat>, ghost pages0: seq<Page>, ghost img: Contents, ghost sup: Supply)
    returns (ok: bool, ghost img': Contents)
    requires InLoad(m, a, p, used0, pages0, img) && InStock(m, a, p, sup) && sup.left >= 0 && |p.elfFrames| <= USER_MAX_ELF_FRAMES
    requires s.kind == PT_LOAD && SegmentOk(s, |image|) && InBounds(s) && |image| < 0x8000_0000
    modifies m, p`elfFrames
    ensures InLoad(m, a, p, used0, pages0, img') && (ok <==> PagesFit(sup, old(|p.elfFrames|), FirstPage(s), EndPage(s)))
    ensures ok ==>
      && img' == AddPages(img, s, image, FirstPage(s), EndPage(s)) && InStock(m, a, p, SpendRange(sup, FirstPage(s), EndPage(s)))
      && |p.elfFrames| == old(|p.elfFrames|) + EndPage(s) - FirstPage(s)
  {
    StackPageFree(s, |image|);
    var va, end := s.vaddr / FRAME_SIZE * FRAME_SIZE, PageUp(s.vaddr + s.memsz);
    var flags := if s.flags / 2 % 2 == 1 then PAGE_USER + PAGE_RW else PAGE_USER;
    ok, img' := MapPages(m, a, p, s, image, va, end, flags, FirstPage(s), EndPage(s), used0, pages0, img, sup);
  }

  /** The entry point lies in an executable segment. */
  ghost predicate EntryExecutable(image: seq<byte>)
    requires SegmentsOk(image)
  {
    exists i :: 0 <= i < PhNum(image) && HoldsEntry(image, i)
  }

  predicate HoldsEntry(image: seq<byte>, i: nat)
    requires |image| >= EHDR_SIZE
  {
    SegmentOffset(image, i) + PHDR_SIZE <= |image| &&
    var s := SegmentAt(image, i);
    s.kind == PT_LOAD && s.flags % 2 == 1 && s.vaddr <= Entry32(image) < s.vaddr + s.memsz
  }

  /** elf_entry_in_executable_segment. */
  method EntryInExecutable(image: seq<byte>) returns (ok: bool)
    requires SegmentsOk(image)
    ensures ok <==> EntryExecutable(image)
  {
    for i := 0 to PhNum(image)
      invariant forall k :: 0 <= k < i ==> !HoldsEntry(image, k)
    {
      assert HeaderAtOk(image, i);
      if HoldsEntry(image, i) {
        return true;
      }
    }
    return false;
  }

  /** user_region_flags_from_elf. */
  function RegionFlags(flags: u32): nat {
    REGION_READ + (if flags / 2 % 2 == 1 then REGION_WRITE else 0) + (if flags % 2 == 1 then REGION_EXEC else 0)
  }

  /** The regions of the first n program headers. */
  ghost function RegionsOf(image: seq<byte>, n: nat): seq<Region>
    requires SegmentsOk(image) && n <= PhNum(image)
  {
    if n == 0 then []
    else
      assert HeaderAtOk(image, n - 1);
      var s := SegmentAt(image, n - 1);
      RegionsOf(image, n - 1) + if s.kind == PT_LOAD then [Region(s.vaddr, s.memsz, RegionFlags(s.flags))] else []
  }

  /** No segment is where it may not be. */
  ghost predicate AllInBounds(image: seq<byte>, n: nat)
    requires SegmentsOk(image) && n <= PhNum(image)
  {
    forall i :: 0 <= i < n ==> HeaderAtOk(image, i) && (SegmentAt(image, i).kind == PT_LOAD ==> InBounds(SegmentAt(image, i)))
  }

  const STACK_REGION := Region(STACK_START, FRAME_SIZE, REGION_READ + REGION_WRITE)

  /** One loadable segment of user_map_elf_segments. */
  method LoadSegment(m: Memory, a: Spaces, p: Process, s: Segment, image: seq<byte>,
                     ghost used0: set<nat>, ghost pages0: seq<Page>, ghost img: Contents, ghost sup: Supply)
    returns (ok: bool, ghost img': Contents)
    requires s.kind == PT_LOAD && SegmentOk(s, |image|) && |image| < 0x8000_0000 && InLoad(m, a, p, used0, pages0, img)
    requires InStock(m, a, p, sup) && sup.left >= 0 && |p.elfFrames| <= USER_MAX_ELF_FRAMES
    modifies m, p`elfFrames, p`regions
    ensures InLoad(m, a, p, used0, pages0, img')
    ensures ok ==>
      && InBounds(s) && img' == AddPages(img, s, image, FirstPage(s), EndPage(s))
      && p.regions == old(p.regions) + [Region(s.vaddr, s.memsz, RegionFlags(s.flags))]
      && InStock(m, a, p, SpendRange(sup, FirstPage(s), EndPage(s))) && |p.elfFrames| == old(|p.elfFrames|) + EndPage(s) - FirstPage(s)
    ensures ok <==> InBounds(s) && PagesFit(sup, old(|p.elfFrames|), FirstPage(s), EndPage(s)) && old(|p.regions|) < USER_MAX_ELF_REGIONS
  {
    img' := img;
    ok := SegmentRangeOk(s, |image|);
    if ok {
      ok, img' := MapSegment(m, a, p, s, image, used0, pages0, img, sup);
      ok := ok && |p.regions| < USER_MAX_ELF_REGIONS;
      if ok {
        p.regions := p.regions + [Region(s.vaddr, s.memsz, RegionFlags(s.flags))];
      }
    }
  }

  lemma HeaderStep(image: seq<byte>, i: nat, start: Contents)
    requires SegmentsOk(image) && i < PhNum(image)
    ensures HeaderAtOk(image, i)
    ensures
      var s, img := SegmentAt(image, i), ImageOf(image, i, start);
      && ImageOf(image, i + 1, start) == (if s.kind == PT_LOAD then AddPages(img, s, image, FirstPage(s), EndPage(s)) else img)
      && RegionsOf(image, i + 1) == RegionsOf(image, i) + (if s.kind == PT_LOAD then [Region(s.vaddr, s.memsz, RegionFlags(s.flags))] else [])
      && (AllInBounds(image, i) && (s.kind == PT_LOAD ==> InBounds(s)) <==> AllInBounds(image, i + 1))
  {
    assert HeaderAtOk(image, i);
  }

  /** The first n segments are where they may be, and there are frames, slots and regions for them. */
  ghost predicate Loads(image: seq<byte>, n: nat, sup: Supply)
    requires SegmentsOk(image) && n <= PhNum(image)
  {
    && AllInBounds(image, n) && PagesOf(image, n) <= USER_MAX_ELF_FRAMES && |RegionsOf(image, n)| <= USER_MAX_ELF_REGIONS
    && SpendImage(image, n, sup).left >= 0
  }

  lemma LoadsFewer(image: seq<byte>, i: nat, n: nat, sup: Supply)
    requires SegmentsOk(image) && i <= n <= PhNum(image) && Loads(image, n, sup)
    ensures Loads(image, i, sup)
  {
    ImageMore(image, i, n, sup);
  }

  /** The first n program headers have been dealt with. */
  ghost predicate Reached(m: Memory, a: Spaces, p: Process, image: seq<byte>, n: nat, sup: Supply)
    requires SegmentsOk(image) && n <= PhNum(image)
    reads m, a, p
  {
    && Loads(image, n, sup) && p.regions == RegionsOf(image, n) && |p.elfFrames| == PagesOf(image, n)
    && InStock(m, a, p, SpendImage(image, n, sup))
  }

  /** One program header of user_map_elf_segments. */
  method MapHeader(m: Memory, a: Spaces, p: Process, image: seq<byte>, i: nat,
                   ghost used0: set<nat>, ghost pages0: seq<Page>, ghost start: Contents, ghost sup: Supply)
    returns (ok: bool, ghost img': Contents)
    requires SegmentsOk(image) && |image| < 0x8000_0000 && i < PhNum(image)
    requires InLoad(m, a, p, used0, pages0, ImageOf(image, i, start)) && Reached(m, a, p, image, i, sup)
    modifies m, p`elfFrames, p`regions
    ensures InLoad(m, a, p, used0, pages0, img')
    ensures ok ==> img' == ImageOf(image, i + 1, start) && Reached(m, a, p, image, i + 1, sup)
    ensures ok <==> Loads(image, i + 1, sup)
  {
    ok, img' := true, ImageOf(image, i, start);
    HeaderStep(image, i, start);
    var s := SegmentAt(image, i);
    if s.kind == PT_LOAD {
      ok, img' := LoadSegment(m, a, p, s, image, used0, pages0, img', SpendImage(image, i, sup));
    }
  }

  /** The loop of user_map_elf_segments. */
  method MapHeaders(m: Memory, a: Spaces, p: Process, image: seq<byte>,
                    ghost used0: set<nat>, ghost pages0: seq<Page>, ghost start: Contents, ghost sup: Supply)
    returns (ok: bool, ghost img': Contents)
    requires SegmentsOk(image) && |image| < 0x8000_0000 && InLoad(m, a, p, used0, pages0, start) && Reached(m, a, p, image, 0, sup)
    modifies m, p`elfFrames, p`regions
    ensures InLoad(m, a, p, used0, pages0, img')
    ensures ok ==> img' == ImageOf(image, PhNum(image), start) && Reached(m, a, p, image, PhNum(image), sup)
    ensures ok <==> Loads(image, PhNum(image), sup)
  {
    img' := start;
    ok := true;
    var i: nat := 0;
    while i < PhNum(image) && ok
      invariant i <= PhNum(image) && InLoad(m, a, p, used0, pages0, img') && (ok <==> Loads(image, i, sup))
      invariant ok ==> img' == ImageOf(image, i, start) && Reached(m, a, p, image, i, sup)
    {
      ok, img' := MapHeader(m, a, p, image, i, used0, pages0, start, sup);
      i := i + 1;
    }
    if !ok && Loads(image, PhNum(image), sup) {
      LoadsFewer(image, i, PhNum(image), sup);
    }
  }

  /** An image user_map_elf_segments takes, given the frames. */
  ghost predicate Acceptable(image: seq<byte>) {
    && SegmentsOk(image) && EntryExecutable(image) && AllInBounds(image, PhNum(image))
    && PagesOf(image, PhNum(image)) <= USER_MAX_ELF_FRAMES && 0 < |RegionsOf(image, PhNum(image))| < USER_MAX_ELF_REGIONS
  }

  /** user_map_elf_segments. */
  method MapElfSegments(m: Memory, a: Spaces, p: Process, image: seq<byte>,
                        ghost used0: set<nat>, ghost pages0: seq<Page>, ghost start: Contents, ghost sup: Supply)
    returns (ok: bool, ghost img': Contents)
    requires |image| < 0x8000_0000 && HeadersReadable(image) && InLoad(m, a, p, used0, pages0, start)
    requires InStock(m, a, p, sup) && sup.left >= 0 && p.elfFrames == []
    modifies m, p`elfFrames, p`regions, p`entry
    ensures InLoad(m, a, p, used0, pages0, img')
    ensures ok <==> Acceptable(image) && SpendImage(image, PhNum(image), sup).left >= 0
    ensures ok ==>
      && img' == ImageOf(image, PhNum(image), start)
      && p.regions == RegionsOf(image, PhNum(image)) + [STACK_REGION] && p.entry == Entry32(image)
      && InStock(m, a, p, SpendImage(image, PhNum(image), sup))
  {
    img' := start;
    ok := ProgramHeadersOk(image);
    if ok {
      p.entry, p.regions := Entry32(image), [];
      ok := EntryInExecutable(image);
      if ok {
        ok, img' := MapHeaders(m, a, p, image, used0, pages0, start, sup);
        ok := ok && p.regions != [] && |p.regions| < USER_MAX_ELF_REGIONS;
        if ok {
          p.regions := p.regions + [STACK_REGION];
        }
      }
    }
  }
}
