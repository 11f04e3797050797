/** Flat binaries: run_user_file, from the header check to the mapped image. */
module FlatImage {
  import opened Bytes
  import opened Frames
  import opened PageTables
  import opened Paging
  import opened ProcessMemory
  import opened Elf
  import opened InitialStack
  import opened Loader
  import opened Processes

  const USER_BIN_MAGIC := 0x315A_4F59
  const USER_BIN_HEADER_SIZE := 16
  const USER_LOAD_ADDR := 0x7_0000
  const USER_LOAD_MAX_BYTES := 8192
  const USER_MAX_IMAGE_FRAMES := 2
  const LOAD_PAGE := USER_LOAD_ADDR / FRAME_SIZE

  /** user_binary_header_ok: the header agrees with the file, and the entry lies behind it. */
  predicate BinaryOk(image: seq<byte>) {
    && USER_BIN_HEADER_SIZE <= |image| <= USER_LOAD_MAX_BYTES
    && U32At(image, 0) == USER_BIN_MAGIC && U32At(image, 4) == USER_LOAD_ADDR && U32At(image, 12) == |image|
    && USER_BIN_HEADER_SIZE <= U32At(image, 8) < |image|
  }

  /** user_binary_header_ok. */
  method BinaryHeaderOk(image: seq<byte>) returns (ok: bool, entry: u32)
    ensures ok <==> BinaryOk(image)
    ensures ok ==> entry == USER_LOAD_ADDR + U32At(image, 8)
  {
    ok, entry := false, 0;
    if |image| < USER_BIN_HEADER_SIZE {
      return;
    }
    var magic, loadAddr, entryOffset, imageSize := U32At(image, 0), U32At(image, 4), U32At(image, 8), U32At(image, 12);
    if magic != USER_BIN_MAGIC {
      return;
    }
    if imageSize < USER_BIN_HEADER_SIZE || imageSize > USER_LOAD_MAX_BYTES {
      return;
    }
    if loadAddr != USER_LOAD_ADDR || imageSize != |image| || entryOffset < USER_BIN_HEADER_SIZE || entryOffset >= |image| {
      return;
    }
    ok, entry := true, USER_LOAD_ADDR + entryOffset;
  }

  /** The pages of a flat binary. */
  function ImagePages(len: nat): nat {
    (len + FRAME_SIZE - 1) / FRAME_SIZE
  }

  /** Page i of the image: its part of the file, then zeros. */
  function FlatPage(image: seq<byte>, i: nat): Page
    requires i < ImagePages(|image|)
  {
    var rest := image[i * FRAME_SIZE..];
    var chunk := rest[..Min(|rest|, FRAME_SIZE)];
    chunk + seq(FRAME_SIZE - |chunk|, _ => 0)
  }

  lemma FlatByte(image: seq<byte>, k: nat)
    requires k < ImagePages(|image|) * FRAME_SIZE
    ensures FlatPage(image, k / FRAME_SIZE)[k % FRAME_SIZE] == if k < |image| then image[k] else 0
  {
    var i := k / FRAME_SIZE;
    assert i < ImagePages(|image|) && k == i * FRAME_SIZE + k % FRAME_SIZE;
    var rest := image[i * FRAME_SIZE..];
    if k < |image| {
      assert rest[k % FRAME_SIZE] == image[k];
    }
  }

  /** The contents with the first n pages of the image put in. */
  ghost function FlatContents(image: seq<byte>, n: nat, img: Contents): Contents
    requires n <= ImagePages(|image|)
  {
    if n == 0 then img
    else
      var before: Contents := FlatContents(image, n - 1, img);
      before[LOAD_PAGE + n - 1 := Cell(FlatPage(image, n - 1), true)]
  }

  lemma {:induction false} FlatContentsAt(image: seq<byte>, n: nat, img: Contents, vp: nat)
    requires n <= ImagePages(|image|)
    ensures vp in FlatContents(image, n, img) <==> vp in img || LOAD_PAGE <= vp < LOAD_PAGE + n
    ensures LOAD_PAGE <= vp < LOAD_PAGE + n ==> FlatContents(image, n, img)[vp] == Cell(FlatPage(image, vp - LOAD_PAGE), true)
    ensures vp in img && !(LOAD_PAGE <= vp < LOAD_PAGE + n) ==> FlatContents(image, n, img)[vp] == img[vp]
    decreases n
  {
    if n > 0 {
      FlatContentsAt(image, n - 1, img, vp);
    }
  }

  lemma ImageFrame(p: Process, frames: seq<nat>, f: nat)
    requires p.elfFrames == [] && p.imageFrames != [] && p.imageFrames[|p.imageFrames| - 1] == f
    requires frames == (if p.stackFrame != 0 then [p.stackFrame] else []) + p.imageFrames[..|p.imageFrames| - 1]
    ensures p.Frames() == frames + [f]
  {
  }

  /** The image and the stack need no table but the first. */
  lemma FlatPrice(i: nat, left: nat)
    requires i < USER_MAX_IMAGE_FRAMES
    ensures Price(Supply({0}, left), LOAD_PAGE + i) == 1 && Spend(Supply({0}, left), LOAD_PAGE + i) == Supply({0}, left - 1)
    ensures Price(Supply({0}, left), STACK_PAGE) == 1 && Spend(Supply({0}, left), STACK_PAGE) == Supply({0}, left - 1)
  {
  }

  /** One round of user_process_map_loaded_image: a frame is taken, filled, mapped and recorded as an image frame. */
  method MapImagePage(m: Memory, a: Spaces, p: Process, image: seq<byte>, i: nat,
                      ghost used0: set<nat>, ghost pages0: seq<Page>, ghost img: Contents, ghost left: nat)
    returns (ok: bool)
    requires InLoad(m, a, p, used0, pages0, img) && p.elfFrames == [] && i < ImagePages(|image|) && i < USER_MAX_IMAGE_FRAMES
    requires InStock(m, a, p, Supply({0}, left))
    modifies m, p`imageFrames
    ensures ok <==> left > 0
    ensures if ok then InLoad(m, a, p, used0, pages0, img[LOAD_PAGE + i := Cell(FlatPage(image, i), true)]) && InStock(m, a, p, Supply({0}, left - 1))
            else InLoad(m, a, p, used0, pages0, img)
  {
    ghost var frames := p.Frames();
    var va: u32 := USER_LOAD_ADDR + i * FRAME_SIZE;
    assert va / FRAME_SIZE == LOAD_PAGE + i;
    FlatPrice(i, left);
    var f := PlaceFrame(m, a.user[p.space].dir, va, FlatPage(image, i), PAGE_RW + PAGE_USER, used0, pages0, a.user[p.space], SetOf(frames), img,
                        LOAD_PAGE + i, Cell(FlatPage(image, i), true), Supply({0}, left));
    ok := f != 0;
    if ok {
      Recorded(frames, f);
      p.imageFrames := p.imageFrames + [f];
      ImageFrame(p, frames, f);
    }
  }

  /** user_process_map_loaded_image. */
  method MapImage(m: Memory, a: Spaces, p: Process, image: seq<byte>,
                  ghost used0: set<nat>, ghost pages0: seq<Page>, ghost img: Contents, ghost left: nat)
    returns (ok: bool, ghost img': Contents)
    requires InLoad(m, a, p, used0, pages0, img) && p.elfFrames == [] && InStock(m, a, p, Supply({0}, left))
    modifies m, p`imageFrames
    ensures InLoad(m, a, p, used0, pages0, img')
    ensures ok <==> 0 < ImagePages(|image|) <= USER_MAX_IMAGE_FRAMES && ImagePages(|image|) <= left
    ensures ok ==> img' == FlatContents(image, ImagePages(|image|), img) && Left(m.used) + ImagePages(|image|) == left
  {
    img' := img;
    var n := ImagePages(|image|);
    if n == 0 || n > USER_MAX_IMAGE_FRAMES {
      return false, img;
    }
    for i := 0 to n
      invariant InLoad(m, a, p, used0, pages0, img') && img' == FlatContents(image, i, img)
      invariant i <= left && InStock(m, a, p, Supply({0}, left - i))
    {
      ok := MapImagePage(m, a, p, image, i, used0, pages0, img', left - i);
      if !ok {
        return;
      }
      img' := img'[LOAD_PAGE + i := Cell(FlatPage(image, i), true)];
    }
    ok := true;
  }

  /** A program as run_user_file leaves it in memory: its stack and its image. */
  ghost predicate FlatProgram(image: seq<byte>, argv: seq<seq<byte>>, entry: u32, regions: seq<Region>, stackEntry: u32,
                              stack: Page, ptrs: seq<u32>, img: Contents)
  {
    && BinaryOk(image) && img == FlatContents(image, ImagePages(|image|), StackOnly(stack))
    && StackOf(stack, stackEntry, argv, ptrs) && entry == USER_LOAD_ADDR + U32At(image, 8)
    && regions == [Region(USER_LOAD_ADDR, |image|, REGION_READ + REGION_WRITE + REGION_EXEC), STACK_REGION]
  }

  /** The frame and table work of run_user_file on a process that has a space. */
  method PopulateFlat(m: Memory, a: Spaces, p: Process, image: seq<byte>, entry: u32, argv: seq<seq<byte>>,
                      ghost used0: set<nat>, ghost pages0: seq<Page>, ghost left: nat)
    returns (ok: bool, stackEntry: u32, ghost img: Contents, ghost stack: Page, ghost ptrs: seq<u32>)
    requires InLoad(m, a, p, used0, pages0, map[]) && p.Frames() == [] && p.stackFrame == 0 && BinaryOk(image)
    requires InStock(m, a, p, Supply({0}, left)) && entry == USER_LOAD_ADDR + U32At(image, 8)
    requires |argv| <= USER_MAX_ARGS && forall i :: 0 <= i < |argv| ==> |argv[i]| < USER_ARG_MAX
    modifies m, p
    ensures p.space == old(p.space) && InLoad(m, a, p, used0, pages0, img)
    ensures ok ==> FlatProgram(image, argv, p.entry, p.regions, stackEntry, stack, ptrs, img)
    ensures ok <==> 1 + ImagePages(|image|) <= left
    ensures ok ==> Left(m.used) + 1 + ImagePages(|image|) == left
  {
    img, stackEntry, stack, ptrs := map[], 0, Zeros(), [];
    assert |p.elfFrames| == 0;
    p.regions := [Region(USER_LOAD_ADDR, |image|, REGION_READ + REGION_WRITE + REGION_EXEC), STACK_REGION];
    p.entry := entry;
    FlatPrice(0, left);
    ok := MapStack(m, a, p, used0, pages0, Supply({0}, left));
    if ok {
      var page;
      ok, stackEntry, page, ptrs := FillStack(m, a, p, argv, used0, pages0, Supply({0}, left - 1));
      stack, img := page, StackOnly(page);
      ok, img := MapImage(m, a, p, image, used0, pages0, img, left - 1);
    }
  }

  /** run_user_file once the file is read: a load that fails anywhere leaves the frames and the pool as they were. */
  method LoadFlat(m: Memory, a: Spaces, p: Process, image: seq<byte>, argv: seq<seq<byte>>, taskSlot: bool)
    returns (ok: bool, stackEntry: u32, ghost img: Contents, ghost stack: Page, ghost ptrs: seq<u32>)
    requires KernelOk(m, a) && p.space == -1 && p.Frames() == [] && p.stackFrame == 0
    requires |argv| <= USER_MAX_ARGS && forall i :: 0 <= i < |argv| ==> |argv[i]| < USER_ARG_MAX
    modifies m, a`user, p
    ensures ok <==> BinaryOk(image) && SpaceLeft(old(a.user)) && taskSlot && Left(old(m.used)) >= 3 + ImagePages(|image|)
    ensures ok ==>
      && Left(m.used) + 3 + ImagePages(|image|) == Left(old(m.used))
      && InLoad(m, a, p, old(m.used), old(m.pages), img) && FlatProgram(image, argv, p.entry, p.regions, stackEntry, stack, ptrs, img)
      && 0 <= p.space < |old(a.user)| == |a.user| && old(a.user)[p.space].dir == 0 && a.user == old(a.user)[p.space := a.user[p.space]]
    ensures !ok ==>
      && m.Valid() && m.used == old(m.used) && KeepsUsed(old(m.pages), m.pages, m.used) && a.user == old(a.user)
      && p.space == -1 && p.Frames() == []
  {
    stackEntry, img, stack, ptrs := 0, map[], Zeros(), [];
    var entry;
    ok, entry := BinaryHeaderOk(image);
    if !ok {
      return;
    }
    ok := GiveSpace(m, a, p);
    if ok {
      ghost var user1 := a.user;
      ok, stackEntry, img, stack, ptrs := PopulateFlat(m, a, p, image, entry, argv, old(m.used), old(m.pages), Left(old(m.used)) - 2);
      ok := ok && taskSlot;
      if !ok {
        SlotRestored(old(a.user), user1, p.space);
        Clear(m, a, p, old(m.used), old(m.pages), img);
      }
    }
  }

  // ---- what the program finds in memory ----

  /** The byte a flat program's memory holds at an address of its image or its stack. */
  function FlatAt(image: seq<byte>, stack: Page, va: nat): byte
    requires USER_LOAD_ADDR <= va < USER_STACK_TOP
  {
    if va >= STACK_START then stack[va - STACK_START] else if va - USER_LOAD_ADDR < |image| then image[va - USER_LOAD_ADDR] else 0
  }

  predicate FlatAddress(image: seq<byte>, va: nat) {
    USER_LOAD_ADDR <= va < USER_LOAD_ADDR + ImagePages(|image|) * FRAME_SIZE || STACK_START <= va < USER_STACK_TOP
  }

  lemma PageOfAddress(va: nat)
    requires USER_LOAD_ADDR <= va
    ensures va / FRAME_SIZE == LOAD_PAGE + (va - USER_LOAD_ADDR) / FRAME_SIZE && va % FRAME_SIZE == (va - USER_LOAD_ADDR) % FRAME_SIZE
  {
  }

  lemma StackAddress(va: nat)
    requires STACK_START <= va < USER_STACK_TOP
    ensures va / FRAME_SIZE == STACK_PAGE && va % FRAME_SIZE == va - STACK_START && STACK_PAGE == LOAD_PAGE + 15
  {
  }

  lemma FlatImageByte(image: seq<byte>, img: Contents, va: nat)
    requires USER_LOAD_ADDR <= va < USER_LOAD_ADDR + ImagePages(|image|) * FRAME_SIZE
    ensures
      var k, img' := va - USER_LOAD_ADDR, FlatContents(image, ImagePages(|image|), img);
      va / FRAME_SIZE in img' && img'[va / FRAME_SIZE].bytes[va % FRAME_SIZE] == (if k < |image| then image[k] else 0) && img'[va / FRAME_SIZE].writable
  {
    var k, img' := va - USER_LOAD_ADDR, FlatContents(image, ImagePages(|image|), img);
    var i: nat, o: nat := k / FRAME_SIZE, k % FRAME_SIZE;
    PageOfAddress(va);
    FlatContentsAt(image, ImagePages(|image|), img, LOAD_PAGE + i);
    assert img'[LOAD_PAGE + i] == Cell(FlatPage(image, i), true);
    FlatByte(image, k);
    assert img'[LOAD_PAGE + i].bytes[o] == if k < |image| then image[k] else 0;
  }

  lemma FlatStackByte(image: seq<byte>, img: Contents, stack: Page, va: nat)
    requires |image| <= USER_LOAD_MAX_BYTES && STACK_START <= va < USER_STACK_TOP && STACK_PAGE in img && img[STACK_PAGE] == Cell(stack, true)
    ensures
      var img' := FlatContents(image, ImagePages(|image|), img);
      va / FRAME_SIZE in img' && img'[va / FRAME_SIZE].bytes[va % FRAME_SIZE] == stack[va - STACK_START] && img'[va / FRAME_SIZE].writable
  {
    StackAddress(va);
    FlatContentsAt(image, ImagePages(|image|), img, STACK_PAGE);
  }

  lemma FlatContentByte(image: seq<byte>, img: Contents, stack: Page, va: nat)
    requires |image| <= USER_LOAD_MAX_BYTES && FlatAddress(image, va) && STACK_PAGE in img && img[STACK_PAGE] == Cell(stack, true)
    ensures
      var img' := FlatContents(image, ImagePages(|image|), img);
      && USER_LOAD_ADDR <= va < USER_STACK_TOP && va / FRAME_SIZE in img' && img'[va / FRAME_SIZE].bytes[va % FRAME_SIZE] == FlatAt(image, stack, va)
      && img'[va / FRAME_SIZE].writable
  {
    if va >= STACK_START {
      FlatStackByte(image, img, stack, va);
    } else {
      FlatImageByte(image, img, va);
    }
  }

  /** Reading from the load address on gives the bytes of the file, then zeros to the end of the page; the stack is the one
      that was built. */
  lemma FlatInMemory(pages: seq<Page>, dir: nat, data: set<nat>, image: seq<byte>, stack: Page, va: nat)
    requires |pages| == ALL_PAGES && dir < ALL_PAGES && (forall f :: f in data ==> f < ALL_PAGES) && BinaryOk(image)
    requires Holds(pages, dir, data, FlatContents(image, ImagePages(|image|), StackOnly(stack))) && FlatAddress(image, va)
    ensures USER_LOAD_ADDR <= va < USER_STACK_TOP
    ensures UserPage(pages, dir, va / FRAME_SIZE) && Translate(pages, dir, va / FRAME_SIZE).frame in data
    ensures ReadByte(pages, dir, va) == FlatAt(image, stack, va) && Translate(pages, dir, va / FRAME_SIZE).writable
  {
    FlatContentByte(image, StackOnly(stack), stack, va);
    HoldsByte(pages, dir, data, FlatContents(image, ImagePages(|image|), StackOnly(stack)), va);
  }

  /** The regions of the program are pages of the program. */
  lemma FlatCovered(image: seq<byte>, argv: seq<seq<byte>>, entry: u32, regions: seq<Region>, stackEntry: u32, stack: Page,
                    ptrs: seq<u32>, img: Contents)
    requires FlatProgram(image, argv, entry, regions, stackEntry, stack, ptrs, img)
    ensures Covered(regions, img)
  {
    forall vp | LOAD_PAGE <= vp <= (USER_LOAD_ADDR + |image| - 1) / FRAME_SIZE || vp == STACK_PAGE ensures vp in img {
      FlatContentsAt(image, ImagePages(|image|), StackOnly(stack), vp);
    }
  }
}
