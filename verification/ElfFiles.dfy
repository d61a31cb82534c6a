/** Executables as the System V gABI lays them out: headers built field by field, and what elf_load
    finds in them. */
module ElfFiles {
  import opened Common
  import opened Bytes
  import opened Sv39
  import opened PageTables
  import opened Mapping
  import opened Ranges
  import opened PteWords
  import opened Elf

  // --- headers, field by field ---

  datatype Ehdr = Ehdr(
    magic: seq<Byte>, cls: Byte, encoding: Byte, ident: seq<Byte>,      // e_ident
    etype: nat, machine: nat, version: nat, entry: nat, phoff: nat, shoff: nat, flags: nat,
    ehsize: nat, phentsize: nat, phnum: nat, shentsize: nat, shnum: nat, shstrndx: nat)

  predicate EhdrOk(e: Ehdr) {
    && |e.magic| == 4 && |e.ident| == 10
    && e.etype < 0x1_0000 && e.machine < 0x1_0000 && e.entry < TWO_64 && e.phoff < TWO_64 && e.phnum < 0x1_0000
  }

  function EhdrBytes(e: Ehdr): (h: seq<Byte>)
    requires EhdrOk(e)
    ensures |h| == EHDR_SIZE
  {
    e.magic + [e.cls, e.encoding] + e.ident +
    ToLe(e.etype, 2) + ToLe(e.machine, 2) + ToLe(e.version, 4) +
    ToLe(e.entry, 8) + ToLe(e.phoff, 8) + ToLe(e.shoff, 8) + ToLe(e.flags, 4) +
    ToLe(e.ehsize, 2) + ToLe(e.phentsize, 2) + ToLe(e.phnum, 2) +
    ToLe(e.shentsize, 2) + ToLe(e.shnum, 2) + ToLe(e.shstrndx, 2)
  }

  const ELFMAG: seq<Byte> := [0x7F, 0x45, 0x4C, 0x46]
  const ELFCLASS64: Byte := 2
  const ELFDATA2LSB: Byte := 1
  const EM_RISCV: nat := 243
  const ET_EXEC: nat := 2

  /** A 64-bit little-endian RISC-V executable. */
  predicate Supported(e: Ehdr) {
    && e.magic == ELFMAG && e.cls == ELFCLASS64 && e.encoding == ELFDATA2LSB
    && e.machine == EM_RISCV && e.etype == ET_EXEC
  }

  /** A program header with the two fields that the loader does not use. */
  datatype Program = Program(ph: Phdr, paddr: nat, align: nat)

  predicate PhdrOk(ph: Phdr) {
    && ph.ptype < 0x1_0000_0000 && ph.flags < 0x1_0000_0000
    && ph.offset < TWO_64 && ph.vaddr < TWO_64 && ph.filesz < TWO_64 && ph.memsz < TWO_64
  }

  function PhdrBytes(p: Program): (h: seq<Byte>)
    ensures |h| == PHDR_SIZE
  {
    ToLe(p.ph.ptype, 4) + ToLe(p.ph.flags, 4) + ToLe(p.ph.offset, 8) + ToLe(p.ph.vaddr, 8) +
    ToLe(p.paddr, 8) + ToLe(p.ph.filesz, 8) + ToLe(p.ph.memsz, 8) + ToLe(p.align, 8)
  }

  // --- what the loader reads ---

  lemma FieldIs(h: seq<Byte>, at: nat, n: nat, v: nat)
    requires at + n <= |h| && h[at..at + n] == ToLe(v, n) && v < Pow256(n)
    ensures Field(h, at, n) == v
  {
    FromToLe(v, n);
  }

  lemma Pow256At2()
    ensures Pow256(2) == 0x1_0000
  {
    assert Pow256(1) == 0x100;
  }

  lemma EhdrFields(e: Ehdr)
    requires EhdrOk(e)
    ensures var h := EhdrBytes(e);
      && h[..4] == e.magic && h[4] == e.cls && h[5] == e.encoding
      && Field(h, 16, 2) == e.etype && Field(h, 18, 2) == e.machine
      && Field(h, 24, 8) == e.entry && Field(h, 32, 8) == e.phoff && Field(h, 56, 2) == e.phnum
  {
    hide ToLe, FromLe, Pow256, Field;
    var h := EhdrBytes(e);
    Pow256At2();
    Pow256At8();
    assert h[..4] == e.magic;
    assert h[16..18] == ToLe(e.etype, 2) && h[18..20] == ToLe(e.machine, 2);
    assert h[24..32] == ToLe(e.entry, 8) && h[32..40] == ToLe(e.phoff, 8) && h[56..58] == ToLe(e.phnum, 2);
    FieldIs(h, 16, 2, e.etype);
    FieldIs(h, 18, 2, e.machine);
    FieldIs(h, 24, 8, e.entry);
    FieldIs(h, 32, 8, e.phoff);
    FieldIs(h, 56, 2, e.phnum);
  }

  /** The header is accepted if and only if it is that of a supported executable; else the code says
      which check failed first. */
  lemma HeaderErrorIs(e: Ehdr)
    requires EhdrOk(e)
    ensures HeaderError(EhdrBytes(e)) == 0 <==> Supported(e)
    ensures HeaderError(EhdrBytes(e)) ==
      if e.magic != ELFMAG then 2
      else if e.cls != ELFCLASS64 then 9
      else if e.encoding != ELFDATA2LSB then 10
      else if e.machine != EM_RISCV then 11
      else if e.etype != ET_EXEC then 3
      else 0
  {
    hide Field, EhdrBytes;
    EhdrFields(e);
  }

  lemma PhdrFields(p: Program)
    requires PhdrOk(p.ph)
    ensures ParsePhdr(PhdrBytes(p)) == p.ph
  {
    hide ToLe, FromLe, Pow256, Field;
    var h := PhdrBytes(p);
    Pow256At4();
    Pow256At8();
    assert h[0..4] == ToLe(p.ph.ptype, 4) && h[4..8] == ToLe(p.ph.flags, 4) && h[8..16] == ToLe(p.ph.offset, 8);
    assert h[16..24] == ToLe(p.ph.vaddr, 8) && h[32..40] == ToLe(p.ph.filesz, 8) && h[40..48] == ToLe(p.ph.memsz, 8);
    FieldIs(h, 0, 4, p.ph.ptype);
    FieldIs(h, 4, 4, p.ph.flags);
    FieldIs(h, 8, 8, p.ph.offset);
    FieldIs(h, 16, 8, p.ph.vaddr);
    FieldIs(h, 32, 8, p.ph.filesz);
    FieldIs(h, 40, 8, p.ph.memsz);
  }

  // --- a whole file ---

  predicate BytesAt(file: seq<Byte>, at: nat, bs: seq<Byte>) {
    at + |bs| <= |file| && file[at..at + |bs|] == bs
  }

  /** At pos the file has the header e, and where that says it has these program headers. */
  ghost predicate IsElf(file: seq<Byte>, pos: nat, e: Ehdr, ps: seq<Program>) {
    && EhdrOk(e) && BytesAt(file, pos, EhdrBytes(e))
    && |ps| == e.phnum && e.phoff + PHDR_SIZE * |ps| < TWO_64
    && forall i: nat :: i < |ps| ==> PhdrOk(ps[i].ph) && BytesAt(file, e.phoff + PHDR_SIZE * i, PhdrBytes(ps[i]))
  }

  /** Program header i, as the loader finds it. */
  lemma HeaderIs(file: seq<Byte>, pos: nat, e: Ehdr, ps: seq<Program>, i: nat)
    requires IsElf(file, pos, e, ps) && i < |ps|
    ensures HeaderPos(e.phoff, i) == e.phoff + PHDR_SIZE * i && HeaderAt(file, e.phoff, i) == Some(ps[i].ph)
    ensures IsSegment(file, e.phoff, i) <==> ps[i].ph.ptype == PT_LOAD
  {
    hide EhdrBytes, PhdrBytes, ParsePhdr;
    PhdrFields(ps[i]);
    assert BytesAt(file, e.phoff + PHDR_SIZE * i, PhdrBytes(ps[i]));
  }

  /** The loadable segments of the list are well formed and lie on pages of their own. */
  ghost predicate ProgramsOk(m: Mem, root: nat, ps: seq<Program>) {
    && (forall i: nat :: i < |ps| && ps[i].ph.ptype == PT_LOAD ==> Fit(m, root, ps[i].ph))
    && forall i: nat, j: nat :: i < j < |ps| && ps[i].ph.ptype == PT_LOAD && ps[j].ph.ptype == PT_LOAD ==>
         PageDisjoint(ps[i].ph, ps[j].ph)
  }

  lemma ProgramsAreSegments(m: Mem, root: nat, file: seq<Byte>, pos: nat, e: Ehdr, ps: seq<Program>)
    requires IsElf(file, pos, e, ps)
    ensures ProgramsOk(m, root, ps) <==> SegmentsOk(m, root, file, e.phoff, e.phnum)
  {
    hide IsElf, Fit, PageDisjoint, HeaderAt;
    assert |ps| == e.phnum by { NumberOfPrograms(file, pos, e, ps); }
    forall i: nat | i < |ps|
      ensures IsSegment(file, e.phoff, i) <==> ps[i].ph.ptype == PT_LOAD
      ensures HeaderAt(file, e.phoff, i) == Some(ps[i].ph)
    {
      HeaderIs(file, pos, e, ps, i);
    }
  }

  lemma NumberOfPrograms(file: seq<Byte>, pos: nat, e: Ehdr, ps: seq<Program>)
    requires IsElf(file, pos, e, ps)
    ensures |ps| == e.phnum && EhdrOk(e) && BytesAt(file, pos, EhdrBytes(e))
  {
  }

  /** Every loadable segment of the list is in memory. */
  ghost predicate ProgramsLoaded(m: Mem, root: nat, file: seq<Byte>, ps: seq<Program>) {
    forall i: nat :: i < |ps| && ps[i].ph.ptype == PT_LOAD ==> SegmentLoaded(m, root, file, ps[i].ph)
  }

  lemma SegmentsArePrograms(m: Mem, root: nat, file: seq<Byte>, pos: nat, e: Ehdr, ps: seq<Program>)
    requires IsElf(file, pos, e, ps) && SegmentsLoaded(m, root, file, e.phoff, e.phnum)
    ensures ProgramsLoaded(m, root, file, ps)
  {
    hide IsElf, SegmentLoaded, HeaderAt;
    NumberOfPrograms(file, pos, e, ps);
    forall i: nat | i < |ps| && ps[i].ph.ptype == PT_LOAD ensures SegmentLoaded(m, root, file, ps[i].ph) {
      HeaderIs(file, pos, e, ps, i);
    }
  }

  /** The programs one after another, up to the first that fails. */
  function LoadPrograms(m: Mem, root: nat, file: seq<Byte>, ps: seq<Program>): Load {
    if ps == [] then Loaded(m)
    else
      var last := |ps| - 1;
      var prev := LoadPrograms(m, root, file, ps[..last]);
      if prev.Loaded? && ps[last].ph.ptype == PT_LOAD then LoadSegment(prev.m, root, file, ps[last].ph) else prev
  }

  lemma {:induction false} HeadersArePrograms(m: Mem, root: nat, file: seq<Byte>, pos: nat, e: Ehdr, ps: seq<Program>,
                                              n: nat)
    requires IsElf(file, pos, e, ps) && n <= |ps|
    ensures LoadHeaders(m, root, file, e.phoff, n) == LoadPrograms(m, root, file, ps[..n])
  {
    hide IsElf, LoadSegment, HeaderAt, HeaderPos;
    if n > 0 {
      HeadersArePrograms(m, root, file, pos, e, ps, n - 1);
      HeaderIs(file, pos, e, ps, n - 1);
      HeaderInside(file, e.phoff, n - 1);
      assert ps[..n][..n - 1] == ps[..n - 1];
    }
  }

  /** With all its headers in place, loading a file fails on the range, the start or the end of a
      segment only. */
  lemma {:induction false} OnlySegmentsFail(m: Mem, root: nat, file: seq<Byte>, ps: seq<Program>)
    ensures var load := LoadPrograms(m, root, file, ps); load.Failed? ==> load.code in {6, 7, 8}
  {
    hide LoadSegment;
    if ps != [] {
      var front, last := ps[..|ps| - 1], ps[|ps| - 1];
      OnlySegmentsFail(m, root, file, front);
      var load := LoadPrograms(m, root, file, front);
      if load.Loaded? { SegmentFails(load.m, root, file, last.ph); }
    }
  }

  lemma HeaderInside(file: seq<Byte>, phoff: nat, i: nat)
    requires HeaderAt(file, phoff, i).Some?
    ensures HeaderPos(phoff, i) <= |file|
  {
  }

  lemma SegmentFails(m: Mem, root: nat, file: seq<Byte>, ph: Phdr)
    ensures var load := LoadSegment(m, root, file, ph); load.Failed? ==> load.code in {6, 7, 8}
  {
    hide MapRange, SetRangeFlags;
  }

  // --- access rights ---

  const PF_X: nat := 1
  const PF_W: nat := 2
  const PF_R: nat := 4

  predicate Asks(pflags: nat, bit: nat)
    requires bit > 0
  {
    pflags / bit % 2 == 1
  }

  /** The words of a loaded segment's leaves: V, U, A and D, and R, W and X exactly as asked for. */
  lemma SegmentWords(m: Mem, root: nat, file: seq<Byte>, ph: Phdr, x: nat)
    requires SegmentLoaded(m, root, file, ph) && x < PageCount(ph.memsz)
    ensures SlotWord(m.ram, root, PageVa(ph.vaddr, x)) % 0x100 ==
      0xD1 + (if Asks(ph.flags, PF_R) then 0x02 else 0) + (if Asks(ph.flags, PF_W) then 0x04 else 0)
           + (if Asks(ph.flags, PF_X) then 0x08 else 0)
  {
    hide Walk, PteBits, SlotWord, LeafFlags, PageCount, InUserRange, PageVa;
    var a := PageVa(ph.vaddr, x);
    assert PageFlagged(m.ram, root, a, SegmentFlags(ph.flags));
    WalkedWord(m.ram, root, a);
    LeafBits(Walk(m.ram, root, a).pte, SegmentFlags(ph.flags));
  }
}
