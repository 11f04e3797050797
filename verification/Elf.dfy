/** elf/elf.c and the segment checks of cpu/user_mode.c: which images are loaded, and what each of their pages holds
    (TIS ELF specification 1.2, "Program Header"). */
module Elf {
  import opened Bytes
  import opened Frames
  import opened PageTables

  const EHDR_SIZE := 52
  const PHDR_SIZE := 32
  const PT_LOAD := 1
  const USER_STACK_TOP := 0x8_0000
  const STACK_START := USER_STACK_TOP - FRAME_SIZE

  datatype Segment = Segment(kind: u32, offset: u32, vaddr: u32, filesz: u32, memsz: u32, flags: u32)

  function Entry32(image: seq<byte>): u32
    requires |image| >= EHDR_SIZE
  {
    U32At(image, 24)
  }

  function PhOff(image: seq<byte>): u32
    requires |image| >= EHDR_SIZE
  {
    U32At(image, 28)
  }

  function PhEntSize(image: seq<byte>): u16
    requires |image| >= EHDR_SIZE
  {
    U16At(image, 42)
  }

  function PhNum(image: seq<byte>): u16
    requires |image| >= EHDR_SIZE
  {
    U16At(image, 44)
  }

  /** elf32_header_ok. */
  predicate HeaderOk(image: seq<byte>) {
    && |image| >= EHDR_SIZE
    && image[0] == 0x7F && image[1] == 0x45 && image[2] == 0x4C && image[3] == 0x46
    && image[4] == 1 && image[5] == 1 && U16At(image, 16) == 2 && U16At(image, 18) == 3
    && PhOff(image) != 0 && PhNum(image) != 0 && PhEntSize(image) != 0
    && Wrap32(PhOff(image) + PhNum(image) * PhEntSize(image)) <= |image|
  }

  /** elf32_header_ok, test by test. */
  method CheckElfHeader(image: seq<byte>) returns (ok: bool)
    requires |image| < U32_MOD
    ensures ok <==> HeaderOk(image)
  {
    if |image| < EHDR_SIZE {
      return false;
    }
    if image[0] != 0x7F || image[1] != 0x45 || image[2] != 0x4C || image[3] != 0x46 {
      return false;
    }
    if image[4] != 1 || image[5] != 1 {
      return false;
    }
    if U16At(image, 16) != 2 || U16At(image, 18) != 3 {
      return false;
    }
    if PhOff(image) == 0 || PhNum(image) == 0 || PhEntSize(image) == 0 {
      return false;
    }
    return Wrap32(PhOff(image) + PhNum(image) * PhEntSize(image)) <= |image|;
  }

  /** Where program header i starts, added in 32 bits. */
  function SegmentOffset(image: seq<byte>, i: nat): u32
    requires |image| >= EHDR_SIZE
  {
    Wrap32(PhOff(image) + i * PhEntSize(image))
  }

  /** elf32_program_header. */
  function SegmentAt(image: seq<byte>, i: nat): Segment
    requires |image| >= EHDR_SIZE && SegmentOffset(image, i) + PHDR_SIZE <= |image|
  {
    var o := SegmentOffset(image, i);
    Segment(U32At(image, o), U32At(image, o + 4), U32At(image, o + 8), U32At(image, o + 16), U32At(image, o + 20), U32At(image, o + 24))
  }

  /** What a loadable segment must be: its bytes are in the image and its addresses do not wrap. */
  predicate SegmentOk(s: Segment, len: nat) {
    s.kind == PT_LOAD ==>
      && s.filesz <= s.memsz && s.memsz != 0 && s.vaddr != 0 && s.flags % 8 != 0
      && s.offset + s.filesz <= len && s.offset + s.filesz < U32_MOD && s.vaddr + s.memsz < U32_MOD
  }

  predicate HeaderAtOk(image: seq<byte>, i: nat)
    requires |image| >= EHDR_SIZE
  {
    SegmentOffset(image, i) + PHDR_SIZE <= |image| && SegmentOk(SegmentAt(image, i), |image|)
  }

  predicate SegmentsOk(image: seq<byte>) {
    HeaderOk(image) && forall i :: 0 <= i < PhNum(image) ==> HeaderAtOk(image, i)
  }

  /** No header that is looked at starts so close to 4 GiB that its end wraps. */
  predicate HeadersReadable(image: seq<byte>) {
    HeaderOk(image) ==>
      forall i :: 0 <= i < PhNum(image) && (forall k :: 0 <= k < i ==> HeaderAtOk(image, k)) ==> SegmentOffset(image, i) + PHDR_SIZE < U32_MOD
  }

  /** Of the headers whose end, added in 32 bits, is in the image, exactly those are in the image. */
  lemma HeaderInside(image: seq<byte>, i: nat)
    requires EHDR_SIZE <= |image| < U32_MOD && Wrap32(SegmentOffset(image, i) + PHDR_SIZE) <= |image|
    ensures SegmentOffset(image, i) + PHDR_SIZE <= |image| <==> SegmentOffset(image, i) + PHDR_SIZE < U32_MOD
  {
  }

  /** The checks of elf32_program_headers_ok on one loadable segment. */
  method CheckSegment(s: Segment, len: nat) returns (ok: bool)
    requires len < 0x8000_0000
    ensures ok <==> SegmentOk(s, len)
  {
    if s.kind != PT_LOAD {
      return true;
    }
    if s.filesz > s.memsz {
      return false;
    }
    if Wrap32(s.offset + s.filesz) < s.offset {
      return false;
    }
    if Wrap32(s.offset + s.filesz) > len {
      return false;
    }
    if s.memsz == 0 || s.vaddr == 0 {
      return false;
    }
    if Wrap32(s.vaddr + s.memsz) < s.vaddr {
      return false;
    }
    return s.flags % 8 != 0;
  }

  /** The body of the loop of elf32_program_headers_ok. */
  method CheckHeader(image: seq<byte>, i: nat) returns (ok: bool)
    requires |image| < 0x8000_0000 && HeaderOk(image) && SegmentOffset(image, i) + PHDR_SIZE < U32_MOD
    ensures ok <==> HeaderAtOk(image, i)
  {
    var off := SegmentOffset(image, i);
    NoWrap(off + PHDR_SIZE);
    if Wrap32(off + PHDR_SIZE) > |image| {
      return false;
    }
    ok := CheckSegment(SegmentAt(image, i), |image|);
  }

  /** elf32_program_headers_ok. */
  method ProgramHeadersOk(image: seq<byte>) returns (ok: bool)
    requires |image| < 0x8000_0000 && HeadersReadable(image)
    ensures ok <==> SegmentsOk(image)
  {
    ok := CheckElfHeader(image);
    if !ok {
      return;
    }
    for i := 0 to PhNum(image)
      invariant forall k :: 0 <= k < i ==> HeaderAtOk(image, k)
    {
      ok := CheckHeader(image, i);
      if !ok {
        return;
      }
    }
    return true;
  }

  // ---- what a segment puts in memory ----

  /** The byte a segment puts at an address: from the file below filesz, zero elsewhere. */
  function SegmentByte(s: Segment, image: seq<byte>, va: nat): byte
    requires s.offset + s.filesz <= |image|
  {
    if s.vaddr <= va < s.vaddr + s.filesz then image[s.offset + va - s.vaddr] else 0
  }

  /** The n bytes a segment puts from an address on. */
  function SegmentBytes(s: Segment, image: seq<byte>, va: nat, n: nat): (r: seq<byte>)
    requires s.offset + s.filesz <= |image|
    ensures |r| == n && forall k :: 0 <= k < n ==> r[k] == SegmentByte(s, image, va + k)
  {
    if n == 0 then [] else SegmentBytes(s, image, va, n - 1) + [SegmentByte(s, image, va + n - 1)]
  }

  /** The page a segment puts at base. */
  function SegmentPage(s: Segment, image: seq<byte>, base: nat): Page
    requires s.offset + s.filesz <= |image|
  {
    SegmentBytes(s, image, base, FRAME_SIZE)
  }

  /** No byte of the file falls into the page. */
  lemma EmptyPage(s: Segment, image: seq<byte>, base: nat)
    requires s.offset + s.filesz <= |image| && Max(base, s.vaddr) >= Min(base + FRAME_SIZE, s.vaddr + s.filesz)
    ensures SegmentPage(s, image, base) == Zeros()
  {
    var page := SegmentPage(s, image, base);
    forall k | 0 <= k < FRAME_SIZE ensures page[k] == Zeros()[k] {
      assert page[k] == SegmentByte(s, image, base + k);
    }
  }

  /** The bytes of the file that fall into the page are copied in. */
  lemma CopiedPage(s: Segment, image: seq<byte>, base: nat, from: nat, end: nat)
    requires s.offset + s.filesz <= |image| && from == Max(base, s.vaddr) && end == Min(base + FRAME_SIZE, s.vaddr + s.filesz)
    requires from < end
    ensures s.offset + (end - s.vaddr) <= |image|
    ensures Patch(Zeros(), from - base, image[s.offset + (from - s.vaddr)..s.offset + (end - s.vaddr)]) == SegmentPage(s, image, base)
  {
    var page := SegmentPage(s, image, base);
    var made := Patch(Zeros(), from - base, image[s.offset + (from - s.vaddr)..s.offset + (end - s.vaddr)]);
    forall k | 0 <= k < FRAME_SIZE ensures made[k] == page[k] {
      assert page[k] == SegmentByte(s, image, base + k);
    }
  }

  /** The copy at the end of elf_fill_page_frame, with its two checks. */
  method CopyIn(s: Segment, image: seq<byte>, base: u32, from: u32, end: u32) returns (ok: bool, page: Page)
    requires s.offset + s.filesz <= |image| < 0x8000_0000
    requires from == Max(base, s.vaddr) && end == Min(base + FRAME_SIZE, s.vaddr + s.filesz) && from < end
    ensures ok && page == SegmentPage(s, image, base)
  {
    var copyLen := end - from;
    var fileOff := Wrap32(s.offset + (from - s.vaddr));
    CopiedPage(s, image, base, from, end);
    assert fileOff == s.offset + (from - s.vaddr) && fileOff + copyLen == s.offset + (end - s.vaddr) <= |image|;
    ok := !(Wrap32(fileOff + copyLen) < fileOff || Wrap32(fileOff + copyLen) > |image|);
    page := Patch(Zeros(), from - base, image[fileOff..fileOff + copyLen]);
  }

  /** elf_fill_page_frame: for a checked segment it does not fail. */
  method FillPage(s: Segment, image: seq<byte>, base: u32) returns (ok: bool, page: Page)
    requires s.kind == PT_LOAD && SegmentOk(s, |image|) && |image| < 0x8000_0000 && base + FRAME_SIZE < U32_MOD
    ensures ok && page == SegmentPage(s, image, base)
  {
    var fileEnd := Wrap32(s.vaddr + s.filesz);
    var pageEnd := Wrap32(base + FRAME_SIZE);
    ok := !(fileEnd < s.vaddr || pageEnd < base);
    var copyStart := if base > s.vaddr then base else s.vaddr;
    var copyEnd := if pageEnd < fileEnd then pageEnd else fileEnd;
    if copyStart >= copyEnd {
      EmptyPage(s, image, base);
      page := Zeros();
    } else {
      ok, page := CopyIn(s, image, base, copyStart, copyEnd);
    }
  }

  // ---- where segments may be ----

  /** page_up. */
  function PageUp(x: nat): u32 {
    Wrap32(x + FRAME_SIZE - 1) / FRAME_SIZE * FRAME_SIZE
  }

  /** The last page of the address space is not used, and no byte of the stack page. */
  predicate InBounds(s: Segment) {
    s.vaddr + s.memsz <= 0xFFFF_F000 && (s.vaddr >= USER_STACK_TOP || s.vaddr + s.memsz <= STACK_START)
  }

  /** elf_segment_range_ok, on a segment the program header check has passed. */
  method SegmentRangeOk(s: Segment, len: nat) returns (ok: bool)
    requires SegmentOk(s, len)
    ensures ok <==> s.kind != PT_LOAD || InBounds(s)
  {
    if s.kind != PT_LOAD {
      return true;
    }
    if s.memsz == 0 || s.filesz > s.memsz {
      assert false;
      return false;
    }
    var end := Wrap32(s.vaddr + s.memsz);
    if end < s.vaddr {
      assert false;
      return false;
    }
    if PageUp(end) < s.vaddr {
      return false;
    }
    return !(s.vaddr < USER_STACK_TOP && end > STACK_START);
  }

  function FirstPage(s: Segment): nat {
    s.vaddr / FRAME_SIZE
  }

  /** One past the last page a segment touches. */
  function EndPage(s: Segment): nat {
    (s.vaddr + s.memsz + FRAME_SIZE - 1) / FRAME_SIZE
  }

  /** Rounding a segment to pages never takes in the stack page. */
  lemma StackPageFree(s: Segment, len: nat)
    requires s.kind == PT_LOAD && SegmentOk(s, len) && InBounds(s)
    ensures !(FirstPage(s) <= STACK_START / FRAME_SIZE < EndPage(s)) && EndPage(s) < PAGE_COUNT
    ensures PageUp(s.vaddr + s.memsz) == EndPage(s) * FRAME_SIZE
  {
  }

  /** Every page of the rounded range holds a byte of the segment. */
  lemma PagesTouched(s: Segment, len: nat, vp: nat)
    requires s.kind == PT_LOAD && SegmentOk(s, len)
    ensures FirstPage(s) <= vp < EndPage(s) <==> exists va :: s.vaddr <= va < s.vaddr + s.memsz && va / FRAME_SIZE == vp
  {
    if FirstPage(s) <= vp < EndPage(s) {
      var va := if s.vaddr < vp * FRAME_SIZE then vp * FRAME_SIZE else s.vaddr;
      assert va / FRAME_SIZE == vp;
    }
  }
}
