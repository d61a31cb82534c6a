/** elf_load: the ELF64 executable loader (System V gABI, "ELF Header" and "Program Header"), as a
    client of the memory manager. */
module Elf {
  import opened Common
  import opened Bytes
  import opened IoLit
  import opened Sv39
  import opened PageTables
  import opened Mapping
  import opened Ranges
  import opened UserMemory

  const EHDR_SIZE: nat := 64
  const PHDR_SIZE: nat := 56
  const PT_LOAD: nat := 1

  // --- headers ---

  /** The little-endian field of `n` bytes at `at`. */
  function Field(bs: seq<Byte>, at: nat, n: nat): nat
    requires at + n <= |bs|
  {
    FromLe(bs[at..at + n])
  }

  /** The checks on the ELF header, in order; 0 when all pass, else the error code returned. */
  function HeaderError(h: seq<Byte>): nat
    requires |h| == EHDR_SIZE
  {
    if h[..4] != [0x7F, 0x45, 0x4C, 0x46] then 2      // magic number
    else if h[4] != 2 then 9                          // 64-bit
    else if h[5] != 1 then 10                         // little-endian
    else if Field(h, 18, 2) != 243 then 11            // RISC-V
    else if Field(h, 16, 2) != 2 then 3               // executable
    else 0
  }

  datatype Phdr = Phdr(ptype: nat, flags: nat, offset: nat, vaddr: nat, filesz: nat, memsz: nat)

  function ParsePhdr(h: seq<Byte>): Phdr
    requires |h| == PHDR_SIZE
  {
    Phdr(Field(h, 0, 4), Field(h, 4, 4), Field(h, 8, 8), Field(h, 16, 8), Field(h, 32, 8), Field(h, 40, 8))
  }

  /** PF_X, PF_W and PF_R become the page's X, W and R; every page gets U. */
  function SegmentFlags(pflags: nat): Flags {
    Flags(false, pflags / 4 % 2 == 1, pflags / 2 % 2 == 1, pflags % 2 == 1, true, false, false, false)
  }

  // --- one segment ---

  /** After a failure memory is as the steps before it left it. */
  datatype Load = Loaded(m: Mem) | Failed(code: nat, m: Mem) | Panic

  function Zeros(n: nat): (z: seq<Byte>)
    ensures |z| == n && forall i :: 0 <= i < n ==> z[i] == 0
  {
    seq(n, _ => 0)
  }

  /** A store to a page without both R and W faults in the kernel, which panics. */
  predicate Writable(f: Flags) { f.r && f.w }

  /** After the mapping: the bytes of the file, the flags, and zeros. */
  function Fill(m: Mem, root: nat, ph: Phdr, data: seq<Byte>, flags: Flags): Load {
    var filled := StoreBytes(m, root, ph.vaddr, data);
    if |data| != ph.filesz then Failed(8, filled)
    else
      var flagged := SetRangeFlags(filled, root, ph.vaddr, PageCount(ph.memsz), flags);
      if flagged.None? then Panic
      else if ph.memsz <= ph.filesz then Loaded(flagged.value)
      else if !Writable(flags) then Panic
      else Loaded(StoreBytes(flagged.value, root, ph.vaddr + ph.filesz, Zeros(ph.memsz - ph.filesz)))
  }

  predicate InUserRange(ph: Phdr) {
    USER_START_VMA <= ph.vaddr && (ph.vaddr + ph.memsz) % TWO_64 <= USER_END_VMA
  }

  function LoadSegment(m: Mem, root: nat, file: seq<Byte>, ph: Phdr): Load {
    if !InUserRange(ph) then Failed(6, m)
    else if ph.offset > |file| then Failed(7, m)
    else
      var mapped := MapRange(m, root, ph.vaddr, PageCount(ph.memsz), USER_RW);
      if mapped.None? then Panic
      else Fill(mapped.value, root, ph, ReadAt(file, ph.offset, ph.filesz), SegmentFlags(ph.flags))
  }

  /** What the format asks of a loadable segment; the sum does not wrap around. */
  predicate SegmentOk(ph: Phdr) {
    && ph.vaddr % PAGE_SIZE == 0 && ph.filesz <= ph.memsz && ph.vaddr + ph.memsz < TWO_64
  }

  /** A well-formed segment whose pages, when it is in the user range, can be mapped; whatever is
      mapped there does not matter. */
  ghost predicate Fit(m: Mem, root: nat, ph: Phdr) {
    SegmentOk(ph) && (InUserRange(ph) ==> RangeMappable(m, root, ph.vaddr, PageCount(ph.memsz)))
  }

  function ImageByte(file: seq<Byte>, ph: Phdr, k: nat): Byte
    requires ph.offset + ph.filesz <= |file|
  {
    if k < ph.filesz then file[ph.offset + k] else 0
  }

  /** The memory image of a segment: the bytes of the file, then zeros, on pages with U and exactly
      the segment's R, W and X (besides A, D and V). */
  ghost predicate SegmentLoaded(m: Mem, root: nat, file: seq<Byte>, ph: Phdr) {
    && InUserRange(ph) && ph.offset + ph.filesz <= |file|
    && (forall a: nat :: ph.vaddr <= a < ph.vaddr + ph.memsz ==>
          UserByte(m, root, a) && ByteAt(m.ram, root, a) == Some(ImageByte(file, ph, a - ph.vaddr)))
    && PagesFlagged(m, root, ph.vaddr, PageCount(ph.memsz), SegmentFlags(ph.flags))
  }

  ghost predicate PagesFlagged(m: Mem, root: nat, va: nat, n: nat, rwxug: Flags) {
    forall x: nat :: x < n ==> PageFlagged(m.ram, root, PageVa(va, x), rwxug)
  }

  predicate PageFlagged(ram: Ram, root: nat, va: nat, rwxug: Flags) {
    IsUser(Walk(ram, root, va)) && Walk(ram, root, va).pte.flags == LeafFlags(rwxug)
  }

  /** Every user byte of m, of any space, is still there. */
  ghost predicate UserBytesKept(m: Mem, m': Mem) {
    forall r, a: nat :: UserByte(m, r, a) ==> UserByte(m', r, a) && ByteAt(m'.ram, r, a) == ByteAt(m.ram, r, a)
  }

  /** Address a is on none of the n pages from va on. */
  predicate OffRange(va: nat, n: nat, a: nat) { OutsideRange(va, n, Vpn2(a), Vpn1(a), Vpn0(a)) }

  /** Every user byte that is not on these pages, of any space, is still there. */
  ghost predicate BytesKeptOff(m: Mem, m': Mem, root: nat, va: nat, n: nat) {
    forall r, a: nat :: UserByte(m, r, a) && (r == root ==> OffRange(va, n, a)) ==>
      UserByte(m', r, a) && ByteAt(m'.ram, r, a) == ByteAt(m.ram, r, a)
  }

  /** One step of loading into n mapped pages at va: everything else stays. */
  ghost predicate StepKeeps(m: Mem, m': Mem, root: nat, va: nat, n: nat) {
    && Inv(m') && KeepsRoles(m, m') && NoNewGlobals(m, m') && WalksKeptOutside(m, m', root, va, n)
    && BytesKeptOff(m, m', root, va, n)
  }

  /** Loading a segment: the same, but the user pages that were mapped there may be given up. */
  ghost predicate LoadKeeps(m: Mem, m': Mem, root: nat, va: nat, n: nat) {
    && Inv(m') && RolesButRange(m, m', root, va, n) && NoNewGlobals(m, m') && WalksKeptOutside(m, m', root, va, n)
    && BytesKeptOff(m, m', root, va, n)
  }

  /** A step after the mapping. */
  lemma ThenStep(m: Mem, m1: Mem, m2: Mem, root: nat, va: nat, n: nat)
    requires LoadKeeps(m, m1, root, va, n) && GivenUp(m, m1, root, va, n) && StepKeeps(m1, m2, root, va, n)
    ensures LoadKeeps(m, m2, root, va, n) && GivenUp(m, m2, root, va, n)
  {
    hide Inv, UserByte, ByteAt, OutsideRange, WalkAt, NoNewGlobals, WasMapped;
    RangeRoots(m, m1, root, va, n);
    NoNewGlobalsTrans(m, m1, m2);
  }

  lemma LoadNothing(m: Mem, root: nat, va: nat, n: nat)
    requires Inv(m)
    ensures LoadKeeps(m, m, root, va, n)
  {
    hide Inv, Entry, WalkAt, ByteAt, OffRange, UserByte, WasMapped;
  }

  /** A user byte keeps its value when its walk leads to the same page and pages in use are kept. */
  lemma ByteKept(m: Mem, m': Mem, r: nat, a: nat)
    requires Inv(m) && Extends(m, m') && UserByte(m, r, a)
    requires IsUser(Walk(m'.ram, r, a)) && PageAt(m'.ram, r, a) == PageAt(m.ram, r, a)
    ensures UserByte(m', r, a) && ByteAt(m'.ram, r, a) == ByteAt(m.ram, r, a)
  {
    hide Inv, WalkAt, Vpn2, Vpn1, Vpn0, Wellformed, Extends;
    VpnBounds(a);
    var t, l := UserPath(m, r, Vpn2(a), Vpn1(a), Vpn0(a));
    var p := PageAt(m.ram, r, a);
    PpnFits(m, p);
    DataKept(m, m', p);
    ExtendsRoots(m, m');
  }

  lemma ExtendsStep(m: Mem, m': Mem, root: nat, va: nat, n: nat)
    requires Inv(m) && Inv(m') && Extends(m, m') && NoNewGlobals(m, m') && WalksKeptOutside(m, m', root, va, n)
    ensures StepKeeps(m, m', root, va, n)
  {
    hide Inv, WalkAt, Vpn2, Vpn1, Vpn0, Wellformed, Extends, OutsideRange, NoNewGlobals, ByteAt;
    ExtendsRoles(m, m');
    forall r, a: nat | UserByte(m, r, a) && (r == root ==> OffRange(va, n, a))
      ensures UserByte(m', r, a) && ByteAt(m'.ram, r, a) == ByteAt(m.ram, r, a)
    {
      VpnBounds(a);
      ByteKept(m, m', r, a);
    }
  }

  // --- pages and bytes of a range ---

  /** Byte a of a page-aligned range lies on page (a - va) / 4096 of it. */
  lemma ByteOnPage(va: nat, size: nat, a: nat)
    requires va % PAGE_SIZE == 0 && va <= a < va + size
    ensures var x := (a - va) / PAGE_SIZE;
      x < PageCount(size) && a / PAGE_SIZE == PageVa(va, x) / PAGE_SIZE
  {
  }

  lemma WellformedPage(a: nat, b: nat)
    requires a / PAGE_SIZE == b / PAGE_SIZE
    ensures Wellformed(a) <==> Wellformed(b)
  {
  }

  lemma RangeBytesAreUser(m: Mem, root: nat, va: nat, size: nat)
    requires va % PAGE_SIZE == 0 && RangeOfUserPages(m, root, va, PageCount(size))
    ensures UserRange(m, root, va, va + size)
    ensures forall a: nat :: va <= a < va + size ==> !OffRange(va, PageCount(size), a)
  {
    hide WalkAt, Vpn2, Vpn1, Vpn0, Wellformed, PageVa, PageCount;
    forall a: nat | va <= a < va + size
      ensures UserByte(m, root, a) && !OffRange(va, PageCount(size), a)
    {
      ByteOnPage(va, size, a);
      var x := (a - va) / PAGE_SIZE;
      WellformedPage(a, PageVa(va, x));
      PageOf(a, PageVa(va, x));
    }
  }

  // --- loading one segment ---

  /** A user byte off the range is on a page that mapping the range does not touch. */
  lemma RemapByte(m: Mem, m1: Mem, root: nat, va: nat, n: nat, r: nat, a: nat)
    requires Inv(m) && ExtendsButRange(m, m1, root, va, n) && WalksKeptOutside(m, m1, root, va, n)
    requires UserByte(m, r, a) && (r == root ==> OffRange(va, n, a))
    ensures UserByte(m1, r, a) && ByteAt(m1.ram, r, a) == ByteAt(m.ram, r, a)
  {
    hide Inv, WalkAt, Vpn2, Vpn1, Vpn0, Wellformed, OutsideRange, WasMapped;
    VpnBounds(a);
    var _, _ := UserPath(m, r, Vpn2(a), Vpn1(a), Vpn0(a));
    var p := PageAt(m.ram, r, a);
    PpnFits(m, p);
    DataIsNoTable(m, p);
  }

  lemma RemapLoads(m: Mem, m1: Mem, root: nat, va: nat, n: nat)
    requires Inv(m) && RangeRemapped(m, m1, root, va, n, USER_RW)
    ensures LoadKeeps(m, m1, root, va, n) && GivenUp(m, m1, root, va, n)
  {
    hide Inv, WalkAt, Wellformed, NoNewGlobals, OffRange, UserByte, ByteAt, RangeTables, FreshlyMapped;
    hide RolesButRange, GivenUp, WalksKeptOutside;
    forall r, a: nat | UserByte(m, r, a) && (r == root ==> OffRange(va, n, a))
      ensures UserByte(m1, r, a) && ByteAt(m1.ram, r, a) == ByteAt(m.ram, r, a)
    {
      RemapByte(m, m1, root, va, n, r, a);
    }
  }

  lemma RemapStep(m: Mem, root: nat, va: nat, size: nat)
    requires Inv(m) && va % PAGE_SIZE == 0 && RangeMappable(m, root, va, PageCount(size))
    requires MapRange(m, root, va, PageCount(size), USER_RW).Some?
    ensures var m1 := MapRange(m, root, va, PageCount(size), USER_RW).value;
      && LoadKeeps(m, m1, root, va, PageCount(size)) && GivenUp(m, m1, root, va, PageCount(size))
      && RangeOfUserPages(m1, root, va, PageCount(size)) && UserRange(m1, root, va, va + size)
  {
    hide Inv, WalkAt, Vpn2, Vpn1, Vpn0, Wellformed, NoNewGlobals, PageCount, LeafPte, RolesButRange, GivenUp;
    hide WalksKeptOutside, BytesKeptOff, Mappable, ZeroPage, MapRange, RangeTables, RangeCost;
    var n := PageCount(size);
    RemapRangeKeeps(m, root, va, n, USER_RW);
    var m1 := MapRange(m, root, va, n, USER_RW).value;
    RemapLoads(m, m1, root, va, n);
    assert root in m1.roots by { RangeRoots(m, m1, root, va, n); }
    forall x: nat | x < n ensures Wellformed(PageVa(va, x)) && IsUser(Walk(m1.ram, root, PageVa(va, x))) {
      assert FreshlyMapped(m, m1, root, PageVa(va, x), USER_RW);
    }
    RangeBytesAreUser(m1, root, va, size);
  }

  lemma UserPagesStay(m: Mem, m': Mem, root: nat, va: nat, n: nat)
    requires RangeOfUserPages(m, root, va, n) && SameWalks(m, m') && m'.roots == m.roots
    ensures RangeOfUserPages(m', root, va, n)
  {
    hide WalkAt, Vpn2, Vpn1, Vpn0, Wellformed;
    forall x: nat | x < n ensures Wellformed(PageVa(va, x)) && IsUser(Walk(m'.ram, root, PageVa(va, x))) {
      VpnBounds(PageVa(va, x));
    }
  }

  lemma DataKeepsRoles(m: Mem, m': Mem)
    requires Inv(m) && OnlyData(m, m')
    ensures KeepsRoles(m, m') && NoNewGlobals(m, m')
  {
    hide Inv, Entry;
    OnlyDataTables(m, m');
  }

  /** Storing bytes somewhere in the range. */
  lemma StoreStep(m: Mem, root: nat, va: nat, size: nat, at: nat, bs: seq<Byte>)
    requires Inv(m) && va % PAGE_SIZE == 0 && RangeOfUserPages(m, root, va, PageCount(size))
    requires va <= at && at + |bs| <= va + size
    ensures var m1 := StoreBytes(m, root, at, bs);
      && StepKeeps(m, m1, root, va, PageCount(size)) && RangeOfUserPages(m1, root, va, PageCount(size))
      && Stored(m, m1, root, at, bs) && SameWalks(m, m1)
  {
    hide Inv, WalkAt, Vpn2, Vpn1, Vpn0, Wellformed, NoNewGlobals, PageCount, OffRange, StoreBytes, ByteAt;
    hide KeepsRoles, OutsideRange;
    RangeBytesAreUser(m, root, va, size);
    assert UserRange(m, root, at, at + |bs|);
    StoreBytesKeeps(m, root, at, bs);
    var m1 := StoreBytes(m, root, at, bs);
    SameUserBytes(m, m1);
    DataKeepsRoles(m, m1);
    UserPagesStay(m, m1, root, va, PageCount(size));
  }

  lemma FlagStep(m: Mem, root: nat, va: nat, size: nat, rwxug: Flags)
    requires Inv(m) && va % PAGE_SIZE == 0 && RangeOfUserPages(m, root, va, PageCount(size)) && !rwxug.g
    ensures SetRangeFlags(m, root, va, PageCount(size), rwxug).Some?
    ensures var m1 := SetRangeFlags(m, root, va, PageCount(size), rwxug).value;
      && StepKeeps(m, m1, root, va, PageCount(size)) && RangeOfUserPages(m1, root, va, PageCount(size))
      && PagesFlagged(m1, root, va, PageCount(size), rwxug)
      && (forall a: nat :: va <= a < va + size ==> ByteAt(m1.ram, root, a) == ByteAt(m.ram, root, a))
  {
    hide Inv, WalkAt, Vpn2, Vpn1, Vpn0, Wellformed, Extends, NoNewGlobals, PageCount, OffRange, ByteAt, StepKeeps;
    hide SetRangeFlags, WalksKeptOutside, PageVa, LeafFlags;
    var n := PageCount(size);
    SetRangeFlagsKeeps(m, root, va, n, rwxug);
    var m1 := SetRangeFlags(m, root, va, n, rwxug).value;
    ExtendsStep(m, m1, root, va, n);
    ExtendsRoots(m, m1);
    forall x: nat | x < n
      ensures Wellformed(PageVa(va, x)) && IsUser(Walk(m1.ram, root, PageVa(va, x)))
      ensures PageFlagged(m1.ram, root, PageVa(va, x), rwxug)
    {
      assert Flagged(m, m1, root, PageVa(va, x), rwxug);
    }
    RangeBytesAreUser(m, root, va, size);
    forall a: nat | va <= a < va + size ensures ByteAt(m1.ram, root, a) == ByteAt(m.ram, root, a) {
      assert UserByte(m, root, a);
      FlaggedByte(m, m1, root, va, size, rwxug, a);
    }
  }

  lemma FlaggedByte(m: Mem, m1: Mem, root: nat, va: nat, size: nat, rwxug: Flags, a: nat)
    requires Inv(m) && va % PAGE_SIZE == 0 && RangeOfUserPages(m, root, va, PageCount(size))
    requires RangeFlagged(m, m1, root, va, PageCount(size), rwxug)
    requires va <= a < va + size && UserByte(m, root, a)
    ensures ByteAt(m1.ram, root, a) == ByteAt(m.ram, root, a)
  {
    hide Inv, WalkAt, Vpn2, Vpn1, Vpn0, Wellformed, Extends, NoNewGlobals, PageCount, ByteAt;
    hide WalksKeptOutside, PageVa, LeafFlags;
    ByteOnPage(va, size, a);
    var x := (a - va) / PAGE_SIZE;
    assert Flagged(m, m1, root, PageVa(va, x), rwxug);
    PageOf(a, PageVa(va, x));
    ByteKept(m, m1, root, a);
  }

  /** Loading one segment, whatever was mapped there: the image is there, on pages of its own; the
      user pages mapped there before are given up, and nothing else has changed. Nor has it when
      loading fails. */
  lemma SegmentIsLoaded(m: Mem, root: nat, file: seq<Byte>, ph: Phdr)
    requires Inv(m) && Fit(m, root, ph) && !LoadSegment(m, root, file, ph).Panic?
    ensures var load := LoadSegment(m, root, file, ph);
      && LoadKeeps(m, load.m, root, ph.vaddr, PageCount(ph.memsz))
      && (load.Loaded? ==>
            SegmentLoaded(load.m, root, file, ph) && GivenUp(m, load.m, root, ph.vaddr, PageCount(ph.memsz)))
  {
    hide Inv, UserByte, ByteAt, PageCount, StepKeeps, StoreBytes, SetRangeFlags, MapRange, RangeOfUserPages;
    hide PagesFlagged, RangeMappable, OnlyData, SameWalks, SegmentFlags, BytesKeptOutside, LoadKeeps, GivenUp;
    hide SegmentLoaded;
    var va, size, n := ph.vaddr, ph.memsz, PageCount(ph.memsz);
    LoadNothing(m, root, va, n);
    if InUserRange(ph) && ph.offset <= |file| {
      var m1 := MapRange(m, root, va, n, USER_RW).value;
      RemapStep(m, root, va, size);
      LoadedInv(m, m1, root, va, n);
      var data := ReadAt(file, ph.offset, ph.filesz);
      var m2 := StoreBytes(m1, root, va, data);
      StoreStep(m1, root, va, size, va, data);
      ThenStep(m, m1, m2, root, va, n);
      if |data| == ph.filesz { FinishSegment(m, m2, root, file, ph); }
    }
  }

  /** The flags and the zeros, when the bytes of the file are in place. */
  lemma FinishSegment(m: Mem, m2: Mem, root: nat, file: seq<Byte>, ph: Phdr)
    requires SegmentOk(ph) && InUserRange(ph) && ph.offset + ph.filesz <= |file|
    requires var n := PageCount(ph.memsz);
      && LoadKeeps(m, m2, root, ph.vaddr, n) && GivenUp(m, m2, root, ph.vaddr, n)
      && RangeOfUserPages(m2, root, ph.vaddr, n)
      && HoldsBytes(m2, root, ph.vaddr, file[ph.offset..ph.offset + ph.filesz])
    ensures var flagged := SetRangeFlags(m2, root, ph.vaddr, PageCount(ph.memsz), SegmentFlags(ph.flags));
      && flagged.Some?
      && var m' := ZeroedTail(flagged.value, root, ph);
        && LoadKeeps(m, m', root, ph.vaddr, PageCount(ph.memsz)) && SegmentLoaded(m', root, file, ph)
        && GivenUp(m, m', root, ph.vaddr, PageCount(ph.memsz))
  {
    hide Inv, UserByte, ByteAt, PageCount, StepKeeps, StoreBytes, SetRangeFlags, RangeOfUserPages;
    hide PagesFlagged, SegmentFlags, LoadKeeps, GivenUp, SegmentLoaded, ZeroedTail;
    var va, size, n := ph.vaddr, ph.memsz, PageCount(ph.memsz);
    LoadedInv(m, m2, root, va, n);
    assert !SegmentFlags(ph.flags).g by { NoGlobalSegment(ph.flags); }
    FlagStep(m2, root, va, size, SegmentFlags(ph.flags));
    var m3 := SetRangeFlags(m2, root, va, n, SegmentFlags(ph.flags)).value;
    KeptInv(m2, m3, root, va, n);
    ThenStep(m, m2, m3, root, va, n);
    ZeroTail(m3, root, file, ph);
    ThenStep(m, m3, ZeroedTail(m3, root, ph), root, va, n);
  }

  lemma LoadedInv(m: Mem, m': Mem, root: nat, va: nat, n: nat)
    requires LoadKeeps(m, m', root, va, n)
    ensures Inv(m') && m'.roots == m.roots
  {
  }

  /** Exactly where a well-formed segment is loaded, where it fails and where the kernel panics: it
      fails on its bounds and on the file being short, and panics for want of pages and when the
      zeros that follow the bytes of the file would go to pages that are no longer writable. */
  lemma SegmentLoadsIff(m: Mem, root: nat, file: seq<Byte>, ph: Phdr)
    requires Inv(m) && Fit(m, root, ph)
    ensures var inside := 0xC000_0000 <= ph.vaddr && ph.vaddr + ph.memsz <= 0xD000_0000;
      var enough := |m.free| >= RangeCost(m, root, ph.vaddr, PageCount(ph.memsz));
      var whole := ph.offset + ph.filesz <= |file|;
      var writable := ph.memsz <= ph.filesz || Writable(SegmentFlags(ph.flags));
      var load := LoadSegment(m, root, file, ph);
      && (load.Loaded? <==> inside && enough && whole && writable)
      && (load == Failed(6, m) <==> !inside)
      && (load == Failed(7, m) <==> inside && |file| < ph.offset)
      && ((load.Failed? && load.code == 8) <==> inside && enough && ph.offset <= |file| && !whole)
      && (load.Panic? <==> inside && ph.offset <= |file| && (!enough || (whole && !writable)))
  {
    hide Inv, UserByte, ByteAt, PageCount, StepKeeps, StoreBytes, SetRangeFlags, MapRange, RangeOfUserPages;
    hide PagesFlagged, RangeMappable, OnlyData, SameWalks, SegmentFlags, BytesKeptOutside, LoadKeeps, GivenUp;
    hide SegmentLoaded, RangeCost, RangeRemapped;
    var va, size, n := ph.vaddr, ph.memsz, PageCount(ph.memsz);
    if InUserRange(ph) {
      RemapRangeKeeps(m, root, va, n, USER_RW);
      if ph.offset + ph.filesz <= |file| && MapRange(m, root, va, n, USER_RW).Some? {
        var data := ReadAt(file, ph.offset, ph.filesz);
        var m1 := MapRange(m, root, va, n, USER_RW).value;
        RemapStep(m, root, va, size);
        LoadedInv(m, m1, root, va, n);
        StoreStep(m1, root, va, size, va, data);
        ThenStep(m, m1, StoreBytes(m1, root, va, data), root, va, n);
        FinishSegment(m, StoreBytes(m1, root, va, data), root, file, ph);
      }
    }
  }

  /** For example, a segment with R and X of one byte of the file and one zero: it is well formed,
      and loading it panics when the zero is stored. */
  lemma LostWriteAccess(m: Mem, root: nat, ph: Phdr)
    requires ph == Phdr(PT_LOAD, 5, 0, USER_START_VMA, 1, 2)
    requires Inv(m) && RangeMappable(m, root, ph.vaddr, 1)
    ensures SegmentOk(ph) && LoadSegment(m, root, [7], ph) == Panic
  {
    hide Inv, RangeMappable, LoadSegment, RangeCost;
    SegmentLoadsIff(m, root, [7], ph);
  }

  lemma NoGlobalSegment(pflags: nat)
    ensures !SegmentFlags(pflags).g
  {
  }

  lemma KeptInv(m: Mem, m': Mem, root: nat, va: nat, n: nat)
    requires StepKeeps(m, m', root, va, n)
    ensures Inv(m')
  {
  }

  /** The memset of the part of the segment that the file does not fill. */
  function ZeroedTail(m: Mem, root: nat, ph: Phdr): Mem {
    if ph.memsz <= ph.filesz then m
    else StoreBytes(m, root, ph.vaddr + ph.filesz, Zeros(ph.memsz - ph.filesz))
  }

  lemma ZeroTail(m: Mem, root: nat, file: seq<Byte>, ph: Phdr)
    requires Inv(m) && SegmentOk(ph) && RangeOfUserPages(m, root, ph.vaddr, PageCount(ph.memsz))
    requires InUserRange(ph) && ph.offset + ph.filesz <= |file|
    requires HoldsBytes(m, root, ph.vaddr, file[ph.offset..ph.offset + ph.filesz])
    requires PagesFlagged(m, root, ph.vaddr, PageCount(ph.memsz), SegmentFlags(ph.flags))
    ensures var m' := ZeroedTail(m, root, ph);
      StepKeeps(m, m', root, ph.vaddr, PageCount(ph.memsz)) && SegmentLoaded(m', root, file, ph)
  {
    hide Inv, UserByte, ByteAt, PageCount, StepKeeps, StoreBytes, PagesFlagged, OnlyData, Walk;
    hide SameWalks, SegmentFlags, InUserRange;
    var va, size := ph.vaddr, ph.memsz;
    RangeBytesAreUser(m, root, va, size);
    if ph.memsz <= ph.filesz {
      StepNothing(m, root, va, PageCount(size));
    } else {
      var at, zeros := va + ph.filesz, Zeros(ph.memsz - ph.filesz);
      StoreStep(m, root, va, size, at, zeros);
      var m' := StoreBytes(m, root, at, zeros);
      RangeBytesAreUser(m', root, va, size);
      FlagsStay(m, m', root, va, PageCount(size), SegmentFlags(ph.flags));
      forall a: nat | va <= a < va + size
        ensures ByteAt(m'.ram, root, a) == Some(ImageByte(file, ph, a - va))
      {
        assert UserByte(m, root, a);
      }
    }
  }

  lemma StepNothing(m: Mem, root: nat, va: nat, n: nat)
    requires Inv(m)
    ensures StepKeeps(m, m, root, va, n)
  {
    hide Inv, Entry, WalkAt, ByteAt, OffRange, UserByte;
  }

  lemma FlagsStay(m: Mem, m': Mem, root: nat, va: nat, n: nat, rwxug: Flags)
    requires PagesFlagged(m, root, va, n, rwxug) && SameWalks(m, m') && root in m.roots
    ensures PagesFlagged(m', root, va, n, rwxug)
  {
    hide WalkAt, Vpn2, Vpn1, Vpn0, LeafFlags;
    forall x: nat | x < n ensures PageFlagged(m'.ram, root, PageVa(va, x), rwxug) {
      VpnBounds(PageVa(va, x));
    }
  }

  // --- the whole file ---

  /** The position of program header i, in 64-bit arithmetic. */
  function HeaderPos(phoff: nat, i: nat): nat { (phoff + i * PHDR_SIZE) % TWO_64 }

  /** Program header i, when the file holds all of it. */
  function HeaderAt(file: seq<Byte>, phoff: nat, i: nat): Option<Phdr> {
    var at := HeaderPos(phoff, i);
    if at + PHDR_SIZE <= |file| then Some(ParsePhdr(file[at..at + PHDR_SIZE])) else None
  }

  function LoadHeader(m: Mem, root: nat, file: seq<Byte>, phoff: nat, i: nat): Load {
    var header := HeaderAt(file, phoff, i);
    if HeaderPos(phoff, i) > |file| then Failed(4, m)
    else if header.None? then Failed(5, m)
    else if header.value.ptype != PT_LOAD then Loaded(m)
    else LoadSegment(m, root, file, header.value)
  }

  /** The loop over the program headers, up to i = n. */
  function LoadHeaders(m: Mem, root: nat, file: seq<Byte>, phoff: nat, n: nat): Load {
    if n == 0 then Loaded(m)
    else
      var prev := LoadHeaders(m, root, file, phoff, n - 1);
      if prev.Loaded? then LoadHeader(prev.m, root, file, phoff, n - 1) else prev
  }

  predicate IsSegment(file: seq<Byte>, phoff: nat, i: nat) {
    HeaderAt(file, phoff, i).Some? && HeaderAt(file, phoff, i).value.ptype == PT_LOAD
  }

  function SegmentAt(file: seq<Byte>, phoff: nat, i: nat): Phdr
    requires IsSegment(file, phoff, i)
  {
    HeaderAt(file, phoff, i).value
  }

  predicate PageDisjoint(p: Phdr, q: Phdr) {
    || PageVa(p.vaddr, PageCount(p.memsz)) <= q.vaddr
    || PageVa(q.vaddr, PageCount(q.memsz)) <= p.vaddr
  }

  /** The loadable segments are well formed, can be mapped, and lie on pages of their own. */
  ghost predicate SegmentsOk(m: Mem, root: nat, file: seq<Byte>, phoff: nat, n: nat) {
    && (forall i: nat :: i < n && IsSegment(file, phoff, i) ==> Fit(m, root, SegmentAt(file, phoff, i)))
    && (forall i: nat, j: nat :: i < j < n && IsSegment(file, phoff, i) && IsSegment(file, phoff, j) ==>
          PageDisjoint(SegmentAt(file, phoff, i), SegmentAt(file, phoff, j)))
  }

  ghost predicate SegmentsLoaded(m: Mem, root: nat, file: seq<Byte>, phoff: nat, n: nat) {
    forall i: nat :: i < n && IsSegment(file, phoff, i) ==> SegmentLoaded(m, root, file, SegmentAt(file, phoff, i))
  }

  // --- pages of one segment and of another ---

  predicate WellformedRange(va: nat, n: nat) {
    forall x | 0 <= x < n :: Wellformed(PageVa(va, x))
  }

  lemma UserRangeWellformed(ph: Phdr)
    requires SegmentOk(ph) && InUserRange(ph)
    ensures WellformedRange(ph.vaddr, PageCount(ph.memsz))
  {
  }

  lemma DisjointPages(p: Phdr, q: Phdr, x: nat)
    requires SegmentOk(p) && SegmentOk(q) && PageDisjoint(p, q) && x < PageCount(p.memsz)
    requires InUserRange(p) && InUserRange(q)
    ensures OffRange(q.vaddr, PageCount(q.memsz), PageVa(p.vaddr, x))
  {
    hide Wellformed, Vpn2, Vpn1, Vpn0, PageCount, InUserRange;
    UserRangeWellformed(p);
    UserRangeWellformed(q);
    var a := PageVa(p.vaddr, x);
    forall y | 0 <= y < PageCount(q.memsz) ensures !SamePage(a, PageVa(q.vaddr, y)) {
      PageOf(a, PageVa(q.vaddr, y));
    }
  }

  /** Bytes on one page are off a range together. */
  lemma OffTogether(va: nat, n: nat, a: nat, b: nat)
    requires SamePage(a, b)
    ensures OffRange(va, n, a) == OffRange(va, n, b)
  {
    hide Vpn2, Vpn1, Vpn0;
  }

  lemma DisjointByte(p: Phdr, q: Phdr, a: nat)
    requires SegmentOk(p) && SegmentOk(q) && PageDisjoint(p, q) && p.vaddr <= a < p.vaddr + p.memsz
    requires InUserRange(p) && InUserRange(q)
    ensures OffRange(q.vaddr, PageCount(q.memsz), a)
  {
    hide Wellformed, Vpn2, Vpn1, Vpn0, PageCount, InUserRange, OffRange, PageDisjoint;
    UserRangeWellformed(p);
    ByteOnPage(p.vaddr, p.memsz, a);
    var x: nat := (a - p.vaddr) / PAGE_SIZE;
    WellformedPage(a, PageVa(p.vaddr, x));
    PageOf(a, PageVa(p.vaddr, x));
    DisjointPages(p, q, x);
    OffTogether(q.vaddr, PageCount(q.memsz), a, PageVa(p.vaddr, x));
  }

  lemma OffMeans(va: nat, n: nat, a: nat)
    ensures OffRange(va, n, a) == OutsideRange(va, n, Vpn2(a), Vpn1(a), Vpn0(a))
  {
  }

  /** A walk off the range is kept. */
  lemma WalkKept(m: Mem, m': Mem, root: nat, va: nat, n: nat, a: nat)
    requires WalksKeptOutside(m, m', root, va, n) && OffRange(va, n, a) && root in m.roots
    ensures Walk(m'.ram, root, a) == Walk(m.ram, root, a)
  {
    hide WalkAt, Vpn2, Vpn1, Vpn0, OutsideRange;
    VpnBounds(a);
    OffMeans(va, n, a);
  }

  /** A segment stays when another one is loaded. */
  lemma SegmentStays(m: Mem, m': Mem, root: nat, file: seq<Byte>, p: Phdr, q: Phdr)
    requires SegmentLoaded(m, root, file, p) && SegmentOk(p) && SegmentOk(q) && PageDisjoint(p, q)
    requires LoadKeeps(m, m', root, q.vaddr, PageCount(q.memsz)) && root in m.roots && InUserRange(q)
    ensures SegmentLoaded(m', root, file, p)
  {
    hide Inv, Walk, ByteAt, OffRange, LeafFlags, RolesButRange, WalksKeptOutside, UserByte;
    hide NoNewGlobals, PageDisjoint, SegmentOk, InUserRange, PageCount, PageVa, SegmentFlags;
    forall x: nat | x < PageCount(p.memsz)
      ensures PageFlagged(m'.ram, root, PageVa(p.vaddr, x), SegmentFlags(p.flags))
    {
      DisjointPages(p, q, x);
      WalkKept(m, m', root, q.vaddr, PageCount(q.memsz), PageVa(p.vaddr, x));
      assert PageFlagged(m.ram, root, PageVa(p.vaddr, x), SegmentFlags(p.flags));
    }
    forall a: nat | p.vaddr <= a < p.vaddr + p.memsz
      ensures UserByte(m', root, a) && ByteAt(m'.ram, root, a) == Some(ImageByte(file, p, a - p.vaddr))
    {
      DisjointByte(p, q, a);
      assert UserByte(m, root, a);
    }
  }

  // --- what a program may do with the image ---

  /** The kinds of access that section 4.3.1 of the privileged manual allows for a leaf. */
  predicate Usable(f: Flags) { (f.r || f.x) && (f.w ==> f.r) }

  /** Every address of a loaded segment translates to the byte of its image, with the segment's
      flags, unless the segment asks for flags that no leaf may have: then every access faults. */
  lemma ImageTranslates(m: Mem, root: nat, file: seq<Byte>, ph: Phdr, a: nat)
    requires Inv(m) && SegmentLoaded(m, root, file, ph) && SegmentOk(ph) && ph.vaddr <= a < ph.vaddr + ph.memsz
    ensures var t := Translate(m.ram, root, a);
      && (t.Mapped? <==> Usable(SegmentFlags(ph.flags)))
      && (t.Mapped? ==>
            && t.flags == LeafFlags(SegmentFlags(ph.flags)) && !t.global
            && t.page in m.ram
            && var k := a - ph.vaddr;
               m.ram[t.page][a % 0x1000] == if k < ph.filesz then file[ph.offset + k] else 0)
  {
    hide Inv, WalkAt, Vpn2, Vpn1, Vpn0, Wellformed, PageCount, InUserRange, SegmentFlags;
    ByteOnPage(ph.vaddr, ph.memsz, a);
    var x: nat := (a - ph.vaddr) / PAGE_SIZE;
    UserRangeWellformed(ph);
    WellformedPage(a, PageVa(ph.vaddr, x));
    PageOf(a, PageVa(ph.vaddr, x));
    assert PageFlagged(m.ram, root, PageVa(ph.vaddr, x), SegmentFlags(ph.flags));
    assert UserByte(m, root, a);
  }

  // --- what loading a file leaves alone ---

  /** The page of these indices is a page of none of the first n segments. */
  ghost predicate OutsideSegments(file: seq<Byte>, phoff: nat, n: nat, i: nat, j: nat, k: nat) {
    forall s: nat :: s < n && IsSegment(file, phoff, s) ==>
      OutsideRange(SegmentAt(file, phoff, s).vaddr, PageCount(SegmentAt(file, phoff, s).memsz), i, j, k)
  }

  ghost predicate OffSegments(file: seq<Byte>, phoff: nat, n: nat, a: nat) {
    OutsideSegments(file, phoff, n, Vpn2(a), Vpn1(a), Vpn0(a))
  }

  /** In m, page p was mapped where the segment lies. */
  ghost predicate SegmentPage(m: Mem, root: nat, ph: Phdr, p: nat) {
    exists x: nat :: x < PageCount(ph.memsz) && WasMapped(m, root, ph.vaddr, x, p)
  }

  ghost predicate SegmentsPage(m: Mem, root: nat, file: seq<Byte>, phoff: nat, n: nat, p: nat) {
    exists s: nat :: s < n && IsSegment(file, phoff, s) && SegmentPage(m, root, SegmentAt(file, phoff, s), p)
  }

  /** Off the first n segments nothing has changed: the walks and the user bytes of every space are
      kept, and so are the roles of all pages in use, except that user pages that were mapped where
      the segments lie may be held instead. */
  ghost predicate OthersKept(m: Mem, m': Mem, root: nat, file: seq<Byte>, phoff: nat, n: nat) {
    && m'.roots == m.roots && m'.owner.Keys == m.owner.Keys
    && (forall r, i: nat, j: nat, k: nat ::
          r in m.roots && i < PTE_CNT && j < PTE_CNT && k < PTE_CNT &&
          (r == root ==> OutsideSegments(file, phoff, n, i, j, k)) ==>
            WalkAt(m'.ram, r, i, j, k) == WalkAt(m.ram, r, i, j, k))
    && (forall r, a: nat :: UserByte(m, r, a) && (r == root ==> OffSegments(file, phoff, n, a)) ==>
          UserByte(m', r, a) && ByteAt(m'.ram, r, a) == ByteAt(m.ram, r, a))
    && (forall p :: p in m.owner && m.owner[p] != Free ==>
          m'.owner[p] == m.owner[p] || (Owns(m', p, Held) && SegmentsPage(m, root, file, phoff, n, p)))
  }

  /** The user pages that were mapped where the segments lie are given up. */
  ghost predicate SegmentsGivenUp(m: Mem, m': Mem, root: nat, file: seq<Byte>, phoff: nat, n: nat) {
    forall p :: SegmentsPage(m, root, file, phoff, n, p) ==> Owns(m', p, Held)
  }

  /** What can be mapped still can. */
  ghost predicate KeepsMappable(m: Mem, m': Mem, root: nat) {
    forall a: nat :: Mappable(m, root, a) ==> Mappable(m', root, a)
  }

  lemma StaysFit(m: Mem, m': Mem, root: nat, ph: Phdr)
    requires Fit(m, root, ph) && KeepsMappable(m, m', root) && m'.roots == m.roots
    ensures Fit(m', root, ph)
  {
    hide Mappable, Wellformed, PageVa, PageCount, InUserRange, SegmentOk;
  }

  lemma LoadKeepsMappable(m: Mem, m': Mem, root: nat, va: nat, n: nat)
    requires Inv(m) && LoadKeeps(m, m', root, va, n)
    ensures KeepsMappable(m, m', root)
  {
    hide Inv, Mappable, RolesButRange, NoNewGlobals, WalksKeptOutside, BytesKeptOff;
    forall a: nat | Mappable(m, root, a) ensures Mappable(m', root, a) {
      StaysMappable(m, m', root, va, n, a);
    }
  }

  lemma OthersRefl(m: Mem, root: nat, file: seq<Byte>, phoff: nat)
    ensures OthersKept(m, m, root, file, phoff, 0) && KeepsMappable(m, m, root)
    ensures SegmentsGivenUp(m, m, root, file, phoff, 0)
  {
    hide WalkAt, UserByte, ByteAt, Mappable, IsSegment;
  }

  /** One more header. */
  lemma OthersGrow(m: Mem, m': Mem, root: nat, file: seq<Byte>, phoff: nat, n: nat)
    requires OthersKept(m, m', root, file, phoff, n)
    ensures OthersKept(m, m', root, file, phoff, n + 1)
  {
    hide WalkAt, UserByte, ByteAt, OutsideRange, SegmentPage, IsSegment, Vpn2, Vpn1, Vpn0;
  }

  /** A segment's pages are walked to as before while the segments before it are loaded. */
  ghost predicate SamePages(m: Mem, m': Mem, root: nat, ph: Phdr) {
    forall x: nat :: x < PageCount(ph.memsz) ==>
      Walk(m'.ram, root, PageVa(ph.vaddr, x)) == Walk(m.ram, root, PageVa(ph.vaddr, x))
  }

  lemma PagesUntouched(m: Mem, m1: Mem, root: nat, file: seq<Byte>, phoff: nat, k: nat)
    requires IsSegment(file, phoff, k) && SegmentsOk(m, root, file, phoff, k + 1) && root in m.roots
    requires OthersKept(m, m1, root, file, phoff, k) && SegmentsLoaded(m1, root, file, phoff, k)
    requires InUserRange(SegmentAt(file, phoff, k))
    ensures SamePages(m, m1, root, SegmentAt(file, phoff, k))
  {
    hide WalkAt, UserByte, ByteAt, OutsideRange, SegmentPage, IsSegment, Vpn2, Vpn1, Vpn0, PageCount, PageVa;
    hide PagesFlagged, InUserRange, SegmentOk, PageDisjoint, RangeMappable;
    var q := SegmentAt(file, phoff, k);
    forall x: nat | x < PageCount(q.memsz)
      ensures Walk(m1.ram, root, PageVa(q.vaddr, x)) == Walk(m.ram, root, PageVa(q.vaddr, x))
    {
      var a := PageVa(q.vaddr, x);
      forall s: nat | s < k && IsSegment(file, phoff, s)
        ensures var p := SegmentAt(file, phoff, s);
          OutsideRange(p.vaddr, PageCount(p.memsz), Vpn2(a), Vpn1(a), Vpn0(a))
      {
        var p := SegmentAt(file, phoff, s);
        DisjointSymmetric(p, q);
        DisjointPages(q, p, x);
      }
      VpnBounds(a);
    }
  }

  lemma DisjointSymmetric(p: Phdr, q: Phdr)
    ensures PageDisjoint(p, q) == PageDisjoint(q, p)
  {
  }

  lemma SameSegmentPage(m: Mem, m1: Mem, root: nat, ph: Phdr, p: nat)
    requires SamePages(m, m1, root, ph)
    ensures SegmentPage(m, root, ph, p) <==> SegmentPage(m1, root, ph, p)
  {
    hide Walk, PageCount, PageVa;
    forall x: nat | x < PageCount(ph.memsz)
      ensures WasMapped(m, root, ph.vaddr, x, p) <==> WasMapped(m1, root, ph.vaddr, x, p)
    {
    }
  }

  lemma OthersRoles(m: Mem, m1: Mem, m2: Mem, root: nat, file: seq<Byte>, phoff: nat, k: nat)
    requires IsSegment(file, phoff, k) && OthersKept(m, m1, root, file, phoff, k)
    requires var q := SegmentAt(file, phoff, k);
      RolesButRange(m1, m2, root, q.vaddr, PageCount(q.memsz)) && SamePages(m, m1, root, q)
    ensures forall p :: p in m.owner && m.owner[p] != Free ==>
      m2.owner[p] == m.owner[p] || (Owns(m2, p, Held) && SegmentsPage(m, root, file, phoff, k + 1, p))
  {
    hide WalkAt, UserByte, ByteAt, SegmentPage, IsSegment, OutsideSegments, SamePages, OffSegments;
    var q := SegmentAt(file, phoff, k);
    forall p | p in m.owner && m.owner[p] != Free
      ensures m2.owner[p] == m.owner[p] || (Owns(m2, p, Held) && SegmentsPage(m, root, file, phoff, k + 1, p))
    {
      if m2.owner[p] != m1.owner[p] {
        RangePage(m1, m2, root, q, p);
        SameSegmentPage(m, m1, root, q, p);
      }
    }
  }

  lemma RangePage(m1: Mem, m2: Mem, root: nat, q: Phdr, p: nat)
    requires RolesButRange(m1, m2, root, q.vaddr, PageCount(q.memsz))
    requires p in m1.owner && m1.owner[p] != Free && m2.owner[p] != m1.owner[p]
    ensures Owns(m2, p, Held) && SegmentPage(m1, root, q, p)
  {
    hide WasMapped, PageCount;
  }

  lemma OthersNext(m: Mem, m1: Mem, m2: Mem, root: nat, file: seq<Byte>, phoff: nat, k: nat)
    requires IsSegment(file, phoff, k) && OthersKept(m, m1, root, file, phoff, k)
    requires var q := SegmentAt(file, phoff, k);
      LoadKeeps(m1, m2, root, q.vaddr, PageCount(q.memsz)) && SamePages(m, m1, root, q)
    ensures OthersKept(m, m2, root, file, phoff, k + 1)
  {
    hide Inv, WalkAt, UserByte, ByteAt, OutsideRange, SegmentsPage, IsSegment, SamePages, NoNewGlobals;
    hide Vpn2, Vpn1, Vpn0;
    var q := SegmentAt(file, phoff, k);
    OthersRoles(m, m1, m2, root, file, phoff, k);
    RangeRoots(m1, m2, root, q.vaddr, PageCount(q.memsz));
  }

  lemma GivenUpNext(m: Mem, m1: Mem, m2: Mem, root: nat, file: seq<Byte>, phoff: nat, k: nat)
    requires IsSegment(file, phoff, k) && SegmentsGivenUp(m, m1, root, file, phoff, k)
    requires var q := SegmentAt(file, phoff, k); var n := PageCount(q.memsz);
      && RolesButRange(m1, m2, root, q.vaddr, n) && GivenUp(m1, m2, root, q.vaddr, n) && SamePages(m, m1, root, q)
    ensures SegmentsGivenUp(m, m2, root, file, phoff, k + 1)
  {
    hide WasMapped, IsSegment, SamePages, PageCount;
    var q := SegmentAt(file, phoff, k);
    forall p | SegmentsPage(m, root, file, phoff, k + 1, p) ensures Owns(m2, p, Held) {
      if !SegmentsPage(m, root, file, phoff, k, p) { SameSegmentPage(m, m1, root, q, p); }
    }
  }

  // --- loading a file ---

  /** After the first k headers: their segments are loaded, on pages of their own. */
  ghost predicate LoadState(m: Mem, m': Mem, root: nat, file: seq<Byte>, phoff: nat, k: nat) {
    && SegmentsLoaded(m', root, file, phoff, k) && SegmentsGivenUp(m, m', root, file, phoff, k)
    && forall i: nat :: i < k ==> HeaderAt(file, phoff, i).Some?
  }

  ghost predicate LeftAlone(m: Mem, m': Mem, root: nat, file: seq<Byte>, phoff: nat, k: nat) {
    Inv(m') && OthersKept(m, m', root, file, phoff, k) && KeepsMappable(m, m', root)
  }

  lemma SegmentStep(m: Mem, m1: Mem, root: nat, file: seq<Byte>, phoff: nat, k: nat)
    requires IsSegment(file, phoff, k) && root in m.roots && SegmentsOk(m, root, file, phoff, k + 1)
    requires LeftAlone(m, m1, root, file, phoff, k) && LoadState(m, m1, root, file, phoff, k)
    requires !LoadSegment(m1, root, file, SegmentAt(file, phoff, k)).Panic?
    ensures var load := LoadSegment(m1, root, file, SegmentAt(file, phoff, k));
      && LeftAlone(m, load.m, root, file, phoff, k + 1)
      && (load.Loaded? ==> LoadState(m, load.m, root, file, phoff, k + 1))
  {
    hide Inv, LoadSegment, IsSegment, SegmentLoaded, Fit, PageDisjoint, PageCount, InUserRange, OthersKept;
    hide SegmentsGivenUp, GivenUp, RolesButRange, BytesKeptOff, WalksKeptOutside, NoNewGlobals, KeepsMappable;
    hide SamePages;
    var q := SegmentAt(file, phoff, k);
    var load := LoadSegment(m1, root, file, q);
    OthersRoots(m, m1, root, file, phoff, k);
    StaysFit(m, m1, root, q);
    SegmentIsLoaded(m1, root, file, q);
    if InUserRange(q) {
      PagesUntouched(m, m1, root, file, phoff, k);
      OthersNext(m, m1, load.m, root, file, phoff, k);
      LoadKeepsMappable(m1, load.m, root, q.vaddr, PageCount(q.memsz));
      MappableTrans(m, m1, load.m, root);
      if load.Loaded? {
        HasHeader(file, phoff, k);
        GivenUpNext(m, m1, load.m, root, file, phoff, k);
        SegmentsStay(m, m1, load.m, root, file, phoff, k);
      }
    } else {
      OutOfRange(m1, root, file, q);
      OthersGrow(m, m1, root, file, phoff, k);
    }
  }

  lemma SegmentsStay(m: Mem, m1: Mem, m2: Mem, root: nat, file: seq<Byte>, phoff: nat, k: nat)
    requires IsSegment(file, phoff, k) && SegmentsOk(m, root, file, phoff, k + 1) && root in m1.roots
    requires SegmentsLoaded(m1, root, file, phoff, k) && SegmentLoaded(m2, root, file, SegmentAt(file, phoff, k))
    requires var q := SegmentAt(file, phoff, k);
      InUserRange(q) && LoadKeeps(m1, m2, root, q.vaddr, PageCount(q.memsz))
    ensures SegmentsLoaded(m2, root, file, phoff, k + 1)
  {
    hide IsSegment, SegmentLoaded, RangeMappable, PageDisjoint, PageCount, InUserRange, LoadKeeps, SegmentOk;
    forall i: nat | i < k && IsSegment(file, phoff, i)
      ensures SegmentLoaded(m2, root, file, SegmentAt(file, phoff, i))
    {
      SegmentStays(m1, m2, root, file, SegmentAt(file, phoff, i), SegmentAt(file, phoff, k));
    }
  }

  lemma HasHeader(file: seq<Byte>, phoff: nat, k: nat)
    requires IsSegment(file, phoff, k)
    ensures HeaderAt(file, phoff, k).Some?
  {
  }

  lemma OutOfRange(m: Mem, root: nat, file: seq<Byte>, ph: Phdr)
    requires !InUserRange(ph)
    ensures LoadSegment(m, root, file, ph) == Failed(6, m)
  {
    hide InUserRange;
  }

  lemma OthersRoots(m: Mem, m': Mem, root: nat, file: seq<Byte>, phoff: nat, k: nat)
    requires OthersKept(m, m', root, file, phoff, k)
    ensures m'.roots == m.roots && m'.owner.Keys == m.owner.Keys
  {
  }

  lemma MappableTrans(m: Mem, m1: Mem, m2: Mem, root: nat)
    requires KeepsMappable(m, m1, root) && KeepsMappable(m1, m2, root)
    ensures KeepsMappable(m, m2, root)
  {
    hide Mappable;
  }

  /** For any number of segments, whatever was mapped where they lie: when elf_load's loop over the
      program headers succeeds, memory holds the image of every loadable segment, and the pages
      mapped there before are given up. Whether it succeeds or fails, nothing else has changed. */
  lemma {:induction false} ImageIsLoaded(m: Mem, root: nat, file: seq<Byte>, phoff: nat, k: nat)
    requires Inv(m) && root in m.roots && SegmentsOk(m, root, file, phoff, k)
    requires !LoadHeaders(m, root, file, phoff, k).Panic?
    ensures var load := LoadHeaders(m, root, file, phoff, k);
      LeftAlone(m, load.m, root, file, phoff, k) && (load.Loaded? ==> LoadState(m, load.m, root, file, phoff, k))
  {
    hide Inv, LoadSegment, SegmentsLoaded, OthersKept, KeepsMappable, SegmentsGivenUp, PageDisjoint, Fit, HeaderAt;
    hide HeaderPos;
    if k == 0 {
      OthersRefl(m, root, file, phoff);
      NoSegments(m, root, file, phoff);
    } else {
      ImageIsLoaded(m, root, file, phoff, k - 1);
      var load := LoadHeaders(m, root, file, phoff, k - 1);
      hide LoadState, LeftAlone;
      if load.Loaded? && IsSegment(file, phoff, k - 1) {
        NextIsSegment(load.m, root, file, phoff, k - 1);
        SegmentStep(m, load.m, root, file, phoff, k - 1);
      } else {
        SkipHeader(m, load.m, root, file, phoff, k - 1);
        if load.Loaded? { NextIsNone(load.m, root, file, phoff, k - 1); }
      }
    }
  }

  lemma NoSegments(m: Mem, root: nat, file: seq<Byte>, phoff: nat)
    ensures SegmentsLoaded(m, root, file, phoff, 0)
  {
  }

  lemma NextIsSegment(m: Mem, root: nat, file: seq<Byte>, phoff: nat, k: nat)
    requires IsSegment(file, phoff, k)
    ensures LoadHeader(m, root, file, phoff, k) == LoadSegment(m, root, file, SegmentAt(file, phoff, k))
  {
    hide LoadSegment, ParsePhdr;
  }

  lemma NextIsNone(m: Mem, root: nat, file: seq<Byte>, phoff: nat, k: nat)
    requires !IsSegment(file, phoff, k)
    ensures var load := LoadHeader(m, root, file, phoff, k);
      !load.Panic? && load.m == m && (load.Loaded? ==> HeaderAt(file, phoff, k).Some?)
  {
    hide LoadSegment, ParsePhdr;
  }

  lemma SkipHeader(m: Mem, m1: Mem, root: nat, file: seq<Byte>, phoff: nat, k: nat)
    requires LeftAlone(m, m1, root, file, phoff, k)
    ensures LeftAlone(m, m1, root, file, phoff, k + 1)
    ensures LoadState(m, m1, root, file, phoff, k) && !IsSegment(file, phoff, k) && HeaderAt(file, phoff, k).Some? ==>
            LoadState(m, m1, root, file, phoff, k + 1)
  {
    hide Inv, OthersKept, SegmentLoaded, IsSegment, SegmentPage, HeaderAt, KeepsMappable;
    OthersGrow(m, m1, root, file, phoff, k);
  }

  // --- a file whose pages were not mapped before ---

  ghost predicate SegmentsVacant(m: Mem, root: nat, file: seq<Byte>, phoff: nat, n: nat) {
    forall i: nat :: i < n && IsSegment(file, phoff, i) ==>
      RangeVacant(m, root, SegmentAt(file, phoff, i).vaddr, PageCount(SegmentAt(file, phoff, i).memsz))
  }

  lemma OffVacant(m: Mem, root: nat, va: nat, n: nat, a: nat)
    requires RangeVacant(m, root, va, n) && UserByte(m, root, a)
    ensures OffRange(va, n, a)
  {
    hide WalkAt, Vpn2, Vpn1, Vpn0, Wellformed, PageVa;
  }

  /** Then every user byte there was, of any space, is kept. */
  lemma FreshImage(m: Mem, root: nat, file: seq<Byte>, phoff: nat, n: nat)
    requires Inv(m) && root in m.roots && SegmentsOk(m, root, file, phoff, n)
    requires SegmentsVacant(m, root, file, phoff, n) && !LoadHeaders(m, root, file, phoff, n).Panic?
    ensures UserBytesKept(m, LoadHeaders(m, root, file, phoff, n).m)
  {
    hide Inv, UserByte, ByteAt, LoadHeaders, SegmentsOk, WalkAt, KeepsMappable, LoadState, IsSegment, RangeVacant;
    hide Vpn2, Vpn1, Vpn0, OutsideRange, SegmentsPage, PageCount;
    ImageIsLoaded(m, root, file, phoff, n);
    forall a: nat | UserByte(m, root, a) ensures OffSegments(file, phoff, n, a) {
      forall s: nat | s < n && IsSegment(file, phoff, s)
        ensures var ph := SegmentAt(file, phoff, s);
          OutsideRange(ph.vaddr, PageCount(ph.memsz), Vpn2(a), Vpn1(a), Vpn0(a))
      {
        OffVacant(m, root, SegmentAt(file, phoff, s).vaddr, PageCount(SegmentAt(file, phoff, s).memsz), a);
      }
    }
  }
}
