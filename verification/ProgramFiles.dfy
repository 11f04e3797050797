/** Program files word by word: what the loader takes for a header is what the file says there, and what it puts in memory are
    the file's bytes. ELF files have their fields in the order of the TIS ELF specification 1.2 ("ELF Header", "Program
    Header"), flat ones as the programs under user/ write them. */
module ProgramFiles {
  import opened Bytes
  import opened Frames
  import opened PageTables
  import opened Paging
  import opened ProcessMemory
  import opened Elf
  import opened Loader
  import opened Processes
  import opened FlatImage

  datatype Phdr = Phdr(kind: u32, offset: u32, vaddr: u32, paddr: u32, filesz: u32, memsz: u32, flags: u32, align: u32)

  function PhdrBytes(p: Phdr): (r: seq<byte>)
    ensures |r| == 32
  {
    FourWords(p.kind, p.offset, p.vaddr, p.paddr) + FourWords(p.filesz, p.memsz, p.flags, p.align)
  }

  function FourWords(a: u32, b: u32, c: u32, d: u32): (r: seq<byte>)
    ensures |r| == 16
  {
    U32Bytes(a) + U32Bytes(b) + U32Bytes(c) + U32Bytes(d)
  }

  type Pad = s: seq<byte> | |s| == 10 witness seq(10, _ => 0)

  /** The fields of an ELF header behind the six bytes that name the format. */
  datatype Ehdr = Ehdr(pad: Pad, kind: u16, machine: u16, version: u32, entry: u32, phoff: u32, shoff: u32, flags: u32,
                       ehsize: u16, phentsize: u16, phnum: u16, shentsize: u16, shnum: u16, shstrndx: u16)

  /** The bytes in front of the entry point. */
  function Ident(h: Ehdr): (r: seq<byte>)
    ensures |r| == 24
  {
    [0x7F, 0x45, 0x4C, 0x46, 1, 1] + h.pad + U16Bytes(h.kind) + U16Bytes(h.machine) + U32Bytes(h.version)
  }

  function Offsets(h: Ehdr): (r: seq<byte>)
    ensures |r| == 16
  {
    FourWords(h.entry, h.phoff, h.shoff, h.flags)
  }

  function Counts(h: Ehdr): (r: seq<byte>)
    ensures |r| == 12
  {
    U16Bytes(h.ehsize) + U16Bytes(h.phentsize) + U16Bytes(h.phnum) + U16Bytes(h.shentsize) + U16Bytes(h.shnum) + U16Bytes(h.shstrndx)
  }

  function EhdrBytes(h: Ehdr): (r: seq<byte>)
    ensures |r| == 52
  {
    Ident(h) + Offsets(h) + Counts(h)
  }

  // ---- reading them ----

  /** The bytes of s from o on are those of part. */
  ghost predicate Within(s: seq<byte>, o: nat, part: seq<byte>) {
    o + |part| <= |s| && forall k :: 0 <= k < |part| ==> s[o + k] == part[k]
  }

  lemma WithinBoth(s: seq<byte>, o: nat, a: seq<byte>, b: seq<byte>)
    requires Within(s, o, a + b)
    ensures Within(s, o, a) && Within(s, o + |a|, b)
  {
    forall k | 0 <= k < |a| ensures s[o + k] == a[k] {
      assert (a + b)[k] == a[k];
    }
    forall k | 0 <= k < |b| ensures s[o + |a| + k] == b[k] {
      assert (a + b)[|a| + k] == b[k];
    }
  }

  lemma WordWithin(s: seq<byte>, o: nat, v: u32)
    requires Within(s, o, U32Bytes(v))
    ensures U32At(s, o) == v
  {
    var b := U32Bytes(v);
    assert s[o + 0] == b[0] && s[o + 1] == b[1] && s[o + 2] == b[2] && s[o + 3] == b[3];
  }

  lemma HalfWithin(s: seq<byte>, o: nat, v: u16)
    requires Within(s, o, U16Bytes(v))
    ensures U16At(s, o) == v
  {
    var b := U16Bytes(v);
    assert s[o + 0] == b[0] && s[o + 1] == b[1];
  }

  lemma FourWordsWithin(s: seq<byte>, o: nat, a: u32, b: u32, c: u32, d: u32)
    requires Within(s, o, FourWords(a, b, c, d))
    ensures U32At(s, o) == a && U32At(s, o + 4) == b && U32At(s, o + 8) == c && U32At(s, o + 12) == d
  {
    WithinBoth(s, o, U32Bytes(a) + U32Bytes(b) + U32Bytes(c), U32Bytes(d));
    WithinBoth(s, o, U32Bytes(a) + U32Bytes(b), U32Bytes(c));
    WithinBoth(s, o, U32Bytes(a), U32Bytes(b));
    WordWithin(s, o, a);
    WordWithin(s, o + 4, b);
    WordWithin(s, o + 8, c);
    WordWithin(s, o + 12, d);
  }

  lemma CountsWithin(s: seq<byte>, o: nat, h: Ehdr)
    requires Within(s, o, Counts(h))
    ensures U16At(s, o + 2) == h.phentsize && U16At(s, o + 4) == h.phnum
  {
    var front := U16Bytes(h.ehsize) + U16Bytes(h.phentsize) + U16Bytes(h.phnum);
    WithinBoth(s, o, front + U16Bytes(h.shentsize) + U16Bytes(h.shnum), U16Bytes(h.shstrndx));
    WithinBoth(s, o, front + U16Bytes(h.shentsize), U16Bytes(h.shnum));
    WithinBoth(s, o, front, U16Bytes(h.shentsize));
    WithinBoth(s, o, U16Bytes(h.ehsize) + U16Bytes(h.phentsize), U16Bytes(h.phnum));
    WithinBoth(s, o, U16Bytes(h.ehsize), U16Bytes(h.phentsize));
    HalfWithin(s, o + 2, h.phentsize);
    HalfWithin(s, o + 4, h.phnum);
  }

  lemma IdentWithin(s: seq<byte>, h: Ehdr)
    requires Within(s, 0, Ident(h))
    ensures s[0] == 0x7F && s[1] == 0x45 && s[2] == 0x4C && s[3] == 0x46 && s[4] == 1 && s[5] == 1
    ensures U16At(s, 16) == h.kind && U16At(s, 18) == h.machine
  {
    var magic: seq<byte> := [0x7F, 0x45, 0x4C, 0x46, 1, 1];
    WithinBoth(s, 0, magic + h.pad + U16Bytes(h.kind) + U16Bytes(h.machine), U32Bytes(h.version));
    WithinBoth(s, 0, magic + h.pad + U16Bytes(h.kind), U16Bytes(h.machine));
    WithinBoth(s, 0, magic + h.pad, U16Bytes(h.kind));
    WithinBoth(s, 0, magic, h.pad);
    HalfWithin(s, 16, h.kind);
    HalfWithin(s, 18, h.machine);
    assert s[0 + 0] == magic[0] && s[0 + 1] == magic[1] && s[0 + 2] == magic[2] && s[0 + 3] == magic[3] && s[0 + 4] == magic[4] && s[0 + 5] == magic[5];
  }

  /** The fields the kernel looks at are those of the header. */
  lemma EhdrFields(image: seq<byte>, h: Ehdr)
    requires Within(image, 0, EhdrBytes(h))
    ensures Entry32(image) == h.entry && PhOff(image) == h.phoff && PhEntSize(image) == h.phentsize && PhNum(image) == h.phnum
    ensures HeaderOk(image) <==>
      h.kind == 2 && h.machine == 3 && h.phoff != 0 && h.phnum != 0 && h.phentsize != 0 && Wrap32(h.phoff + h.phnum * h.phentsize) <= |image|
  {
    WithinBoth(image, 0, Ident(h) + Offsets(h), Counts(h));
    WithinBoth(image, 0, Ident(h), Offsets(h));
    IdentWithin(image, h);
    FourWordsWithin(image, 24, h.entry, h.phoff, h.shoff, h.flags);
    CountsWithin(image, 40, h);
  }

  /** The segment of a program header. */
  function SegmentOf(p: Phdr): Segment {
    Segment(p.kind, p.offset, p.vaddr, p.filesz, p.memsz, p.flags)
  }

  lemma PhdrWords(image: seq<byte>, o: nat, p: Phdr)
    requires Within(image, o, PhdrBytes(p))
    ensures U32At(image, o) == p.kind && U32At(image, o + 4) == p.offset && U32At(image, o + 8) == p.vaddr
    ensures U32At(image, o + 16) == p.filesz && U32At(image, o + 20) == p.memsz && U32At(image, o + 24) == p.flags
  {
    WithinBoth(image, o, FourWords(p.kind, p.offset, p.vaddr, p.paddr), FourWords(p.filesz, p.memsz, p.flags, p.align));
    FourWordsWithin(image, o, p.kind, p.offset, p.vaddr, p.paddr);
    FourWordsWithin(image, o + 16, p.filesz, p.memsz, p.flags, p.align);
  }

  /** So are the fields of a program header. */
  lemma PhdrFields(image: seq<byte>, i: nat, p: Phdr)
    requires |image| >= EHDR_SIZE && Within(image, SegmentOffset(image, i), PhdrBytes(p))
    ensures SegmentAt(image, i) == SegmentOf(p)
  {
    PhdrWords(image, SegmentOffset(image, i), p);
  }

  // ---- a whole file ----

  function PhdrsBytes(ps: seq<Phdr>): (r: seq<byte>)
    ensures |r| == 32 * |ps|
  {
    if ps == [] then [] else PhdrBytes(ps[0]) + PhdrsBytes(ps[1..])
  }

  lemma {:induction false} PhdrsWithin(s: seq<byte>, o: nat, ps: seq<Phdr>, i: nat)
    requires Within(s, o, PhdrsBytes(ps)) && i < |ps|
    ensures Within(s, o + 32 * i, PhdrBytes(ps[i]))
    decreases i
  {
    WithinBoth(s, o, PhdrBytes(ps[0]), PhdrsBytes(ps[1..]));
    if i > 0 {
      PhdrsWithin(s, o + 32, ps[1..], i - 1);
      assert ps[1..][i - 1] == ps[i];
    }
  }

  /** Headers at the start, the program header table behind them, the rest at will. */
  ghost predicate ElfFile(image: seq<byte>, h: Ehdr, ps: seq<Phdr>) {
    && h.kind == 2 && h.machine == 3 && h.phoff == 52 && h.phentsize == 32 && h.phnum == |ps| > 0
    && Within(image, 0, EhdrBytes(h)) && Within(image, 52, PhdrsBytes(ps)) && |image| < 0x8000_0000
  }

  /** What elf32_program_headers_ok asks of a loadable segment, in the words of the file. */
  predicate Loadable(p: Phdr, len: nat) {
    && p.filesz <= p.memsz && p.memsz > 0 && p.vaddr > 0 && p.flags % 8 != 0
    && p.offset + p.filesz <= len && p.vaddr + p.memsz <= 0xFFFF_FFFF
  }

  lemma TableInFile(image: seq<byte>, n: nat, i: nat)
    requires 52 + 32 * n <= |image| < U32_MOD && PhOff(image) == 52 && PhEntSize(image) == 32 && i < n
    ensures Wrap32(52 + n * 32) <= |image| && SegmentOffset(image, i) == 52 + 32 * i && 52 + 32 * i + 32 <= |image|
  {
  }

  /** Such a file is read header by header, */
  lemma FileHeaders(image: seq<byte>, h: Ehdr, ps: seq<Phdr>, i: nat)
    requires ElfFile(image, h, ps) && i < |ps|
    ensures HeaderOk(image) && PhNum(image) == |ps| && Entry32(image) == h.entry
    ensures SegmentOffset(image, i) == 52 + 32 * i && SegmentOffset(image, i) + 32 <= |image| && SegmentAt(image, i) == SegmentOf(ps[i])
  {
    EhdrFields(image, h);
    TableInFile(image, |ps|, i);
    PhdrsWithin(image, 52, ps, i);
    PhdrFields(image, i, ps[i]);
  }

  /** and taken exactly when each of its loadable segments is as it should be. */
  method CheckFile(image: seq<byte>, ghost h: Ehdr, ghost ps: seq<Phdr>) returns (ok: bool)
    requires ElfFile(image, h, ps)
    ensures ok <==> forall i :: 0 <= i < |ps| && ps[i].kind == 1 ==> Loadable(ps[i], |image|)
  {
    FileHeaders(image, h, ps, 0);
    forall i | 0 <= i < |ps| ensures SegmentOffset(image, i) + PHDR_SIZE < U32_MOD && (HeaderAtOk(image, i) <==> (ps[i].kind == 1 ==> Loadable(ps[i], |image|))) {
      FileHeaders(image, h, ps, i);
    }
    ok := ProgramHeadersOk(image);
  }

  /** The entry point is executable exactly when a loadable segment with bit 0 of its flags set holds it. */
  lemma EntryInFile(image: seq<byte>, h: Ehdr, ps: seq<Phdr>)
    requires ElfFile(image, h, ps) && SegmentsOk(image)
    ensures EntryExecutable(image)
      <==> exists i :: 0 <= i < |ps| && ps[i].kind == 1 && ps[i].flags % 2 == 1 && ps[i].vaddr <= h.entry < ps[i].vaddr + ps[i].memsz
  {
    FileHeaders(image, h, ps, 0);
    forall i | 0 <= i < |ps|
      ensures HoldsEntry(image, i) <==> ps[i].kind == 1 && ps[i].flags % 2 == 1 && ps[i].vaddr <= h.entry < ps[i].vaddr + ps[i].memsz
    {
      FileHeaders(image, h, ps, i);
    }
  }

  /** Given the frames, an ELF file is loaded exactly when its headers are in order, its entry point is executable, no segment
      reaches into the stack page or the last page there is, the segments have no more than 16 pages together, and there are one
      to seven of them. */
  lemma AcceptableFile(image: seq<byte>, h: Ehdr, ps: seq<Phdr>)
    requires ElfFile(image, h, ps) && SegmentsOk(image) && PhNum(image) == |ps|
    ensures Acceptable(image) <==>
      && EntryExecutable(image) && PagesOf(image, |ps|) <= 16 && 1 <= |RegionsOf(image, |ps|)| <= 7
      && forall i :: 0 <= i < |ps| && ps[i].kind == 1 ==>
           ps[i].vaddr + ps[i].memsz <= 0xFFFF_F000 && (ps[i].vaddr >= 0x8_0000 || ps[i].vaddr + ps[i].memsz <= 0x7_F000)
  {
    forall i | 0 <= i < |ps| ensures HeaderAtOk(image, i) && SegmentAt(image, i) == SegmentOf(ps[i]) {
      FileHeaders(image, h, ps, i);
    }
  }

  /** Once it is loaded, every address of a segment holds the file's byte, and zero behind the bytes of the file; the program may
      write there exactly when bit 1 of the segment's flags is set. */
  lemma FileInMemory(pages: seq<Page>, dir: nat, data: set<nat>, image: seq<byte>, h: Ehdr, ps: seq<Phdr>, stack: Contents, i: nat, k: nat)
    requires |pages| == ALL_PAGES && dir < ALL_PAGES && (forall f :: f in data ==> f < ALL_PAGES)
    requires ElfFile(image, h, ps) && SegmentsOk(image) && AllInBounds(image, PhNum(image)) && PageDisjoint(image)
    requires i < |ps| && ps[i].kind == 1 && k < ps[i].memsz && PhNum(image) == |ps| && Holds(pages, dir, data, ImageOf(image, PhNum(image), stack))
    ensures
      var va := ps[i].vaddr + k;
      && va / FRAME_SIZE < PAGE_COUNT && UserPage(pages, dir, va / FRAME_SIZE) && Translate(pages, dir, va / FRAME_SIZE).frame in data
      && ps[i].offset + ps[i].filesz <= |image| && ReadByte(pages, dir, va) == (if k < ps[i].filesz then image[ps[i].offset + k] else 0)
      && (Translate(pages, dir, va / FRAME_SIZE).writable <==> ps[i].flags / 2 % 2 == 1)
  {
    FileHeaders(image, h, ps, i);
    assert HeaderAtOk(image, i);
    ProgramInMemory(pages, dir, data, image, stack, i, ps[i].vaddr + k);
  }

  // ---- flat files ----

  /** "YOZ1", the load address, the entry's offset and the size, each in a word, are what a flat file starts with. */
  ghost predicate FlatFile(image: seq<byte>, load: u32, entry: u32, size: u32) {
    |image| >= 16 && image[0] == 'Y' as int && image[1] == 'O' as int && image[2] == 'Z' as int && image[3] == '1' as int
    && Within(image, 4, U32Bytes(load)) && Within(image, 8, U32Bytes(entry)) && Within(image, 12, U32Bytes(size))
  }

  lemma FlatHeader(image: seq<byte>, load: u32, entry: u32, size: u32)
    requires FlatFile(image, load, entry, size)
    ensures U32At(image, 8) == entry && (BinaryOk(image) <==> load == 0x7_0000 && size == |image| <= 8192 && 16 <= entry < |image|)
  {
    WordWithin(image, 4, load);
    WordWithin(image, 8, entry);
    WordWithin(image, 12, size);
  }
}
