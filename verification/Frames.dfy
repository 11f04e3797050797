/** The frame allocator: a bitmap of 1024 words, one bit for each of 32768 frames. */
module Frames {
  import opened Bytes

  const NUM_FRAMES := 32768
  const WORDS := 1024
  const FRAME_SIZE := 4096

  // ---- the bitmap ----

  /** A 32-bit word by its bits, the lowest first. */
  type Word = w: seq<bool> | |w| == 32 witness seq(32, _ => false)

  /** test: frame_bitmap[f >> 5] & (1 << (f & 31)). */
  predicate Taken(words: seq<Word>, f: nat)
    requires |words| == WORDS && f < NUM_FRAMES
  {
    words[f / 32][f % 32]
  }

  /** set and clear: the bit of frame f becomes b. */
  function WithBit(words: seq<Word>, f: nat, b: bool): (r: seq<Word>)
    requires |words| == WORDS && f < NUM_FRAMES
    ensures |r| == WORDS
  {
    var w: Word := words[f / 32][f % 32 := b];
    words[f / 32 := w]
  }

  /** Changing the bit of one frame changes that of no other. */
  lemma TakenWith(words: seq<Word>, f: nat, b: bool, g: nat)
    requires |words| == WORDS && f < NUM_FRAMES && g < NUM_FRAMES
    ensures Taken(WithBit(words, f, b), g) <==> if g == f then b else Taken(words, g)
  {
    if g / 32 == f / 32 && g % 32 == f % 32 {
      assert g == f;
    }
  }

  /** The bitmap shows exactly the used frames. */
  ghost predicate Shows(words: seq<Word>, used: set<nat>) {
    && |words| == WORDS && (forall f :: f in used ==> f < NUM_FRAMES)
    && forall f :: 0 <= f < NUM_FRAMES ==> (Taken(words, f) <==> f in used)
  }

  lemma ShowsWith(words: seq<Word>, used: set<nat>, f: nat)
    requires Shows(words, used) && f < NUM_FRAMES
    ensures Shows(WithBit(words, f, true), used + {f}) && Shows(WithBit(words, f, false), used - {f})
  {
    forall g | 0 <= g < NUM_FRAMES
      ensures Taken(WithBit(words, f, true), g) <==> g in used + {f}
      ensures Taken(WithBit(words, f, false), g) <==> g in used - {f}
    {
      TakenWith(words, f, true, g);
      TakenWith(words, f, false, g);
    }
  }

  // ---- the memory map of the BIOS ----

  const USABLE := 1
  const U64_MOD := 0x1_0000_0000_0000_0000

  type u64 = x: int | 0 <= x < U64_MOD

  datatype MemoryRange = MemoryRange(base: u64, length: u64, kind: u32)

  function FirstFrame(e: MemoryRange): u32 {
    Wrap32((e.base + FRAME_SIZE - 1) % U64_MOD / FRAME_SIZE)
  }

  function EndFrame(e: MemoryRange): nat {
    Min(Wrap32((e.base + e.length) % U64_MOD / FRAME_SIZE), NUM_FRAMES)
  }

  /** The range gives frame f to the allocator. */
  predicate Gives(e: MemoryRange, f: nat) {
    e.kind == USABLE && e.base >= 0x10_0000 && FirstFrame(e) <= f < EndFrame(e)
  }

  /** The frame numbers of a range that ends below 16 TiB do not wrap. */
  lemma Unwrapped(a: nat)
    requires a < 0x1000_0000_0000
    ensures Wrap32(a % U64_MOD / FRAME_SIZE) == a / FRAME_SIZE
  {
  }

  /** A usable range above the first megabyte that ends below 16 TiB gives exactly the frames that lie wholly in it, as far as
      the bitmap reaches, and no other range gives any. */
  lemma GivesInside(e: MemoryRange, f: nat)
    requires e.base + e.length + 4096 <= 0x1000_0000_0000
    ensures Gives(e, f) <==>
      e.kind == 1 && e.base >= 0x10_0000 && f < 32768 && e.base <= f * 4096 && f * 4096 + 4096 <= e.base + e.length
  {
    Unwrapped(e.base + FRAME_SIZE - 1);
    Unwrapped(e.base + e.length);
  }

  // ---- the allocator ----

  const ALL_PAGES := 0x10_0000

  /** The contents of one frame. */
  type Page = p: seq<byte> | |p| == FRAME_SIZE witness seq(FRAME_SIZE, _ => 0)

  /** Physical memory by frame number, and the bitmap. */
  class Memory {
    var words: seq<Word>
    var pages: seq<Page>
    ghost var used: set<nat>

    constructor (words: seq<Word>, pages: seq<Page>)
      requires |words| == WORDS && |pages| == ALL_PAGES
      ensures this.words == words && this.pages == pages
    {
      this.words, this.pages, used := words, pages, {};
    }

    ghost predicate Mapped()
      reads this
    {
      Shows(words, used) && |pages| == ALL_PAGES
    }

    /** Frame 0 is never free, so address 0 can mean failure. */
    ghost predicate Valid()
      reads this
    {
      Mapped() && 0 in used
    }
  }

  /** Frame f is given by one of the first n ranges. */
  ghost predicate Given(ranges: seq<MemoryRange>, n: nat, f: nat)
    requires n <= |ranges|
  {
    exists i :: 0 <= i < n && Gives(ranges[i], f)
  }

  ghost function UsedAfter(ranges: seq<MemoryRange>, n: nat): set<nat>
    requires n <= |ranges|
  {
    set f | 0 <= f < NUM_FRAMES && !Given(ranges, n, f)
  }

  /** The inner loop of init_frames: frees the frames of one range. */
  method FreeRange(m: Memory, e: MemoryRange)
    requires Shows(m.words, m.used)
    modifies m`words, m`used
    ensures Shows(m.words, m.used) && m.used == set f | f in old(m.used) && !Gives(e, f)
  {
    if e.kind == USABLE && e.base >= 0x10_0000 {
      var f, end := FirstFrame(e), EndFrame(e);
      while f < end
        invariant FirstFrame(e) <= f && Shows(m.words, m.used)
        invariant m.used == set x | x in old(m.used) && !(FirstFrame(e) <= x < f && x < end)
      {
        ShowsWith(m.words, m.used, f);
        m.words := WithBit(m.words, f, false);
        m.used := m.used - {f};
        f := f + 1;
      }
    }
  }

  /** init_frames: exactly the frames some usable range gives are free. */
  method InitFrames(m: Memory, ranges: seq<MemoryRange>)
    requires |m.words| == WORDS
    modifies m`words, m`used
    ensures Shows(m.words, m.used) && m.used == UsedAfter(ranges, |ranges|)
  {
    var ones: Word := seq(32, _ => true);
    m.words := seq(WORDS, _ => ones);
    m.used := UsedAfter(ranges, 0);
    AllSet(m.words, m.used);
    for i := 0 to |ranges|
      invariant Shows(m.words, m.used) && m.used == UsedAfter(ranges, i)
    {
      FreeRange(m, ranges[i]);
    }
  }

  lemma AllSet(words: seq<Word>, used: set<nat>)
    requires |words| == WORDS && forall i :: 0 <= i < WORDS ==> forall k :: 0 <= k < 32 ==> words[i][k]
    requires forall f :: f in used <==> 0 <= f < NUM_FRAMES
    ensures Shows(words, used)
  {
  }

  const TIB16 := 0x1000_0000_0000

  /** A usable range whose start, rounded up to a page, is a multiple of 16 TiB, and which does not end in the page there:
      frame numbers are 32 bits wide, so its first frame is taken for frame 0. */
  predicate StartsAtWrap(e: MemoryRange) {
    && e.kind == USABLE && e.base >= 0x10_0000
    && (e.base + FRAME_SIZE - 1) % TIB16 < FRAME_SIZE <= (e.base + e.length) % TIB16
  }

  lemma RestOf(a: nat, k: nat, c: nat)
    requires a == k * TIB16 + c && c < TIB16
    ensures a % TIB16 == c
  {
  }

  lemma CutFrame(a: nat)
    ensures a / FRAME_SIZE % 0x1_0000_0000 == a % TIB16 / FRAME_SIZE
  {
    var k, c := a / TIB16, a % TIB16;
    assert a == k * 0x1_0000_0000 * FRAME_SIZE + c;
    assert a / FRAME_SIZE == k * 0x1_0000_0000 + c / FRAME_SIZE;
  }

  /** The frame number of an address, cut to 32 bits, is that of the address modulo 16 TiB. */
  lemma WrappedFrame(a: nat)
    ensures Wrap32(a % U64_MOD / FRAME_SIZE) == a % TIB16 / FRAME_SIZE
  {
    var k, c := a / U64_MOD, a % U64_MOD;
    CutFrame(c);
    RestOf(a, k * 0x10_0000 + c / TIB16, c % TIB16);
  }

  lemma GivesZero(e: MemoryRange)
    ensures Gives(e, 0) <==> StartsAtWrap(e)
  {
    WrappedFrame(e.base + FRAME_SIZE - 1);
    WrappedFrame(e.base + e.length);
  }

  /** Frame 0 stays in use exactly when the BIOS reports no such range. */
  lemma FrameZeroUsed(ranges: seq<MemoryRange>)
    ensures 0 in UsedAfter(ranges, |ranges|) <==> forall i :: 0 <= i < |ranges| ==> !StartsAtWrap(ranges[i])
  {
    forall i | 0 <= i < |ranges| ensures Gives(ranges[i], 0) <==> StartsAtWrap(ranges[i]) {
      GivesZero(ranges[i]);
    }
  }

  /** There are such ranges. */
  lemma FrameZeroGiven()
    ensures StartsAtWrap(MemoryRange(TIB16, FRAME_SIZE, USABLE)) && 0 !in UsedAfter([MemoryRange(TIB16, FRAME_SIZE, USABLE)], 1)
  {
    var ranges := [MemoryRange(TIB16, FRAME_SIZE, USABLE)];
    assert StartsAtWrap(ranges[0]);
    FrameZeroUsed(ranges);
  }

  ghost predicate AllUsed(used: set<nat>) {
    forall f :: 0 <= f < NUM_FRAMES ==> f in used
  }

  ghost function FreeSet(used: set<nat>): set<nat> {
    set f | 0 <= f < NUM_FRAMES && f !in used
  }

  /** How many frames are free. */
  ghost function Left(used: set<nat>): nat {
    |FreeSet(used)|
  }

  lemma LeftNone(used: set<nat>)
    ensures Left(used) == 0 <==> AllUsed(used)
  {
    if AllUsed(used) {
      assert FreeSet(used) == {};
    } else {
      var f :| 0 <= f < NUM_FRAMES && f !in used;
      assert f in FreeSet(used);
    }
  }

  lemma LeftTake(used: set<nat>, f: nat)
    requires f < NUM_FRAMES && f !in used
    ensures Left(used + {f}) + 1 == Left(used)
  {
    assert FreeSet(used) == FreeSet(used + {f}) + {f};
  }

  /** alloc_frame: the first free frame, or 0 when there is none. If frame 0 is free, it is given as if there were none. */
  method AllocFrame(m: Memory) returns (addr: u32)
    requires m.Mapped()
    modifies m`words, m`used
    ensures m.Mapped() && (old(m.Valid()) ==> m.Valid())
    ensures addr % FRAME_SIZE == 0 && addr / FRAME_SIZE < NUM_FRAMES
    ensures AllUsed(old(m.used)) ==> addr == 0 && m.used == old(m.used)
    ensures !AllUsed(old(m.used)) ==>
      var f := addr / FRAME_SIZE;
      f !in old(m.used) && m.used == old(m.used) + {f} && forall g :: 0 <= g < f ==> g in old(m.used)
  {
    for f := 0 to NUM_FRAMES
      invariant m.used == old(m.used) && m.words == old(m.words)
      invariant forall g :: 0 <= g < f ==> g in m.used
    {
      if !Taken(m.words, f) {
        ShowsWith(m.words, m.used, f);
        m.words := WithBit(m.words, f, true);
        m.used := m.used + {f};
        return f * FRAME_SIZE;
      }
    }
    return 0;
  }

  /** free_frame. */
  method FreeFrame(m: Memory, addr: u32)
    requires m.Mapped() && addr / FRAME_SIZE < NUM_FRAMES
    modifies m`words, m`used
    ensures m.Mapped() && m.used == old(m.used) - {addr / FRAME_SIZE} && (old(m.Valid()) && addr / FRAME_SIZE != 0 ==> m.Valid())
  {
    ShowsWith(m.words, m.used, addr / FRAME_SIZE);
    m.words := WithBit(m.words, addr / FRAME_SIZE, false);
    m.used := m.used - {addr / FRAME_SIZE};
  }
}
