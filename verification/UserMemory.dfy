/** user_memory_ok: which ranges a system call may touch on behalf of a process. */
module UserMemory {
  import opened Bytes
  import opened Frames
  import opened PageTables
  import opened Paging
  import opened ProcessMemory
  import opened Elf
  import opened Loader
  import opened Processes

  /** (flags & required) == required, bit by bit. */
  predicate HasFlags(flags: nat, required: nat) {
    required == 0 || ((required % 2 == 1 ==> flags % 2 == 1) && HasFlags(flags / 2, required / 2))
  }

  lemma MaskHalves(f: bv8, r: bv8)
    ensures f & r == r <==> (f >> 1) & (r >> 1) == r >> 1 && (r & 1 == 1 ==> f & 1 == 1)
  {
  }

  lemma HalfFlags(flags: nat, required: nat)
    ensures HasFlags(flags, required) <==> (required % 2 == 1 ==> flags % 2 == 1) && HasFlags(flags / 2, required / 2)
  {
  }

  lemma Same8(x: bv8, y: bv8)
    ensures x as int == y as int <==> x == y
  {
  }

  /** The test as the kernel writes it, on the low n bits. */
  lemma {:induction false} HasFlagsMask(f: bv8, r: bv8, n: nat)
    requires r as int < Power(n)
    ensures HasFlags(f as int, r as int) <==> f & r == r
    decreases n
  {
    if n == 0 {
      Same8(r, 0);
    } else {
      Halves(f);
      Halves(r);
      MaskHalves(f, r);
      HalfFlags(f as int, r as int);
      HasFlagsMask(f >> 1, r >> 1, n - 1);
    }
  }

  function Power(n: nat): nat {
    if n == 0 then 1 else 2 * Power(n - 1)
  }

  /** (flags & required) == required, on bytes. */
  lemma FlagsMask(flags: nat, required: nat, f: bv8, r: bv8)
    requires flags == f as int && required == r as int
    ensures HasFlags(flags, required) <==> f & r == r
  {
    HasFlagsMask(f, r, 8);
  }

  /** The range lies in the region, and the region allows the access. */
  predicate RegionAllows(r: Region, start: u32, len: u32, required: nat) {
    && r.len > 0 && r.start + r.len <= U32_MOD && HasFlags(r.flags, required)
    && r.start <= start && start + len <= r.start + r.len
  }

  /** The region test of user_memory_ok. */
  method InRegion(r: Region, start: u32, end: u32, required: nat, ghost len: u32) returns (ok: bool)
    requires 0 < len && end == start + len - 1
    ensures ok <==> RegionAllows(r, start, len, required)
  {
    var regionEnd := Wrap32(r.start + r.len - 1);
    if r.len == 0 || regionEnd < r.start {
      return false;
    }
    return start >= r.start && end <= regionEnd && HasFlags(r.flags, required);
  }

  /** user_memory_ok, for a process with a program and a space (0: none). */
  method UserMemoryOk(m: Memory, hasProgram: bool, dir: nat, regions: seq<Region>, start: u32, len: u32, required: nat) returns (ok: bool)
    requires |m.pages| == ALL_PAGES && dir < ALL_PAGES
    ensures len == 0 ==> (ok <==> hasProgram && dir != 0)
    ensures len > 0 ==>
      (ok <==> hasProgram && dir != 0 && UserRange(m.pages, dir, start, len)
               && exists k :: 0 <= k < |regions| && RegionAllows(regions[k], start, len, required))
  {
    if !hasProgram || dir == 0 {
      return false;
    }
    ok := UserPagesOk(m, dir, start, len);
    if !ok {
      return;
    }
    if len == 0 {
      return true;
    }
    var end := Wrap32(start + len - 1);
    for k := 0 to |regions|
      invariant forall j :: 0 <= j < k ==> !RegionAllows(regions[j], start, len, required)
    {
      ok := InRegion(regions[k], start, end, required, len);
      if ok {
        return;
      }
    }
    return false;
  }

  /** For a loaded program the pages never stand in the way: a range inside a region of it is made of user pages. */
  lemma RegionPagesThere(pages: seq<Page>, dir: nat, data: set<nat>, img: Contents, regions: seq<Region>, k: nat, start: u32, len: u32, required: nat)
    requires |pages| == ALL_PAGES && dir < ALL_PAGES && Holds(pages, dir, data, img) && Covered(regions, img)
    requires k < |regions| && 0 < len && RegionAllows(regions[k], start, len, required)
    ensures UserRange(pages, dir, start, len)
  {
    var r := regions[k];
    assert RegionCovered(r, img);
    forall vp | start / FRAME_SIZE <= vp <= (start + len - 1) / FRAME_SIZE ensures UserPage(pages, dir, vp) {
      assert r.start / FRAME_SIZE <= vp <= (r.start + r.len - 1) / FRAME_SIZE;
    }
  }

  // ---- reading and writing, bit by bit ----

  predicate Contains(r: Region, start: u32, len: u32) {
    r.len > 0 && r.start + r.len <= U32_MOD && r.start <= start && start + len <= r.start + r.len
  }

  /** Bit 0 of a region's flags is for reading, bit 1 for writing, bit 2 for executing. */
  lemma AccessBits(r: Region, start: u32, len: u32)
    ensures RegionAllows(r, start, len, REGION_READ) <==> Contains(r, start, len) && r.flags % 2 == 1
    ensures RegionAllows(r, start, len, REGION_WRITE) <==> Contains(r, start, len) && r.flags / 2 % 2 == 1
    ensures RegionAllows(r, start, len, REGION_EXEC) <==> Contains(r, start, len) && r.flags / 4 % 2 == 1
  {
    HalfFlags(r.flags, 1);
    HalfFlags(r.flags, 2);
    HalfFlags(r.flags / 2, 1);
    HalfFlags(r.flags, 4);
    HalfFlags(r.flags / 2, 2);
    HalfFlags(r.flags / 4, 1);
  }

  /** user_memory_ok as a system call that fills a buffer asks it: only a region with its write bit will do. */
  method MayWrite(m: Memory, dir: nat, regions: seq<Region>, start: u32, len: u32) returns (ok: bool)
    requires |m.pages| == ALL_PAGES && 0 < dir < ALL_PAGES && len > 0
    ensures ok <==> UserRange(m.pages, dir, start, len)
                    && exists k :: 0 <= k < |regions| && Contains(regions[k], start, len) && regions[k].flags / 2 % 2 == 1
  {
    ok := UserMemoryOk(m, true, dir, regions, start, len, REGION_WRITE);
    forall k | 0 <= k < |regions|
      ensures RegionAllows(regions[k], start, len, REGION_WRITE) <==> Contains(regions[k], start, len) && regions[k].flags / 2 % 2 == 1
    {
      AccessBits(regions[k], start, len);
    }
  }

  /** A segment with this program header may be written to exactly when bit 1 of p_flags is set, executed exactly when bit 0 is. */
  lemma RegionBits(flags: u32)
    ensures
      var f := RegionFlags(flags);
      f % 2 == 1 && (f / 2 % 2 == 1 <==> flags / 2 % 2 == 1) && (f / 4 % 2 == 1 <==> flags % 2 == 1)
  {
  }

  /** The range lies in loadable segment i, which its program header lets be written to. */
  ghost predicate InWritable(image: seq<byte>, i: nat, start: u32, len: u32)
    requires SegmentsOk(image) && i < PhNum(image)
  {
    && HeaderAtOk(image, i)
    && var s := SegmentAt(image, i);
    s.kind == PT_LOAD && s.vaddr <= start && start + len <= s.vaddr + s.memsz && s.flags / 2 % 2 == 1
  }

  ghost predicate SomeWritable(regions: seq<Region>, start: u32, len: u32) {
    exists k :: 0 <= k < |regions| && RegionAllows(regions[k], start, len, REGION_WRITE)
  }

  lemma OneMoreRegion(regions: seq<Region>, r: Region, start: u32, len: u32)
    ensures SomeWritable(regions + [r], start, len) <==> SomeWritable(regions, start, len) || RegionAllows(r, start, len, REGION_WRITE)
  {
    if RegionAllows(r, start, len, REGION_WRITE) {
      assert (regions + [r])[|regions|] == r;
    }
    if k :| 0 <= k < |regions| && RegionAllows(regions[k], start, len, REGION_WRITE) {
      assert (regions + [r])[k] == regions[k];
    }
  }

  lemma SegmentRegion(image: seq<byte>, i: nat, start: u32, len: u32)
    requires SegmentsOk(image) && i < PhNum(image) && HeaderAtOk(image, i) && SegmentAt(image, i).kind == PT_LOAD
    ensures
      var s := SegmentAt(image, i);
      RegionAllows(Region(s.vaddr, s.memsz, RegionFlags(s.flags)), start, len, REGION_WRITE) <==> InWritable(image, i, start, len)
  {
    var s := SegmentAt(image, i);
    RegionBits(s.flags);
    AccessBits(Region(s.vaddr, s.memsz, RegionFlags(s.flags)), start, len);
  }

  lemma OneMoreSegment(image: seq<byte>, n: nat, start: u32, len: u32)
    requires SegmentsOk(image) && n < PhNum(image)
    ensures SomeWritable(RegionsOf(image, n + 1), start, len) <==> SomeWritable(RegionsOf(image, n), start, len) || InWritable(image, n, start, len)
  {
    assert HeaderAtOk(image, n);
    var s := SegmentAt(image, n);
    if s.kind == PT_LOAD {
      SegmentRegion(image, n, start, len);
      OneMoreRegion(RegionsOf(image, n), Region(s.vaddr, s.memsz, RegionFlags(s.flags)), start, len);
    } else {
      assert RegionsOf(image, n + 1) == RegionsOf(image, n);
    }
  }

  /** One of the first n segments holds the range and may be written to. */
  ghost predicate AnyWritable(image: seq<byte>, n: nat, start: u32, len: u32)
    requires SegmentsOk(image) && n <= PhNum(image)
  {
    exists i :: 0 <= i < n && InWritable(image, i, start, len)
  }

  lemma {:induction false} WritableRegions(image: seq<byte>, n: nat, start: u32, len: u32)
    requires SegmentsOk(image) && n <= PhNum(image)
    ensures SomeWritable(RegionsOf(image, n), start, len) <==> AnyWritable(image, n, start, len)
    decreases n
  {
    if n > 0 {
      WritableRegions(image, n - 1, start, len);
      OneMoreSegment(image, n - 1, start, len);
    }
  }

  /** So a loaded program may have the kernel write to its stack page and to the segments its file marks as writable. */
  lemma ProgramWritable(image: seq<byte>, start: u32, len: u32)
    requires SegmentsOk(image)
    ensures
      SomeWritable(RegionsOf(image, PhNum(image)) + [STACK_REGION], start, len)
      <==> (0x7_F000 <= start && start + len <= 0x8_0000) || AnyWritable(image, PhNum(image), start, len)
  {
    WritableRegions(image, PhNum(image), start, len);
    AccessBits(STACK_REGION, start, len);
    OneMoreRegion(RegionsOf(image, PhNum(image)), STACK_REGION, start, len);
  }
}
