/** elf_load as elf.c has it: headers read one after another from an I/O object, segments mapped,
    filled, given their flags and zeroed at the end, in the active address space. */
module ElfLoader {
  import opened Common
  import opened Bytes
  import opened Sv39
  import opened PageTables
  import opened Mapping
  import opened Ranges
  import opened UserMemory
  import opened Elf
  import opened ElfFiles
  import opened Memory
  import opened IoLit
  import opened IoObjects

  datatype Outcome = Entry(entry: nat) | Error(code: nat) | Panicked

  /** How loading ends when its programs are loaded with this result. */
  function Ended(m: Mem, load: Load, entry: nat): (Outcome, Mem) {
    match load
    case Loaded(m') => (Outcome.Entry(entry), m')
    case Failed(code, m') => (Error(code), m')
    case Panic => (Panicked, m)
  }

  /** What elf_load does from position pos of the file on. */
  function ElfLoad(m: Mem, root: nat, file: seq<Byte>, pos: nat): (Outcome, Mem)
    requires pos <= |file|
  {
    var h := ReadAt(file, pos, EHDR_SIZE);
    if |h| != EHDR_SIZE then (Error(1), m)
    else if HeaderError(h) != 0 then (Error(HeaderError(h)), m)
    else
      Ended(m, LoadHeaders(m, root, file, Field(h, 32, 8), Field(h, 56, 2)), Field(h, 24, 8))
  }

  datatype Step = Done | Fail(code: nat) | Stop

  /** How a step ended, as the specification has it. */
  predicate Agrees(step: Step, load: Load) {
    match load
    case Loaded(_) => step.Done?
    case Failed(code, _) => step == Fail(code)
    case Panic => step.Stop?
  }

  /** The rest of the body, for a loadable segment. */
  method LoadOne(io: IoObject, mem: Manager, ph: Phdr) returns (step: Step)
    requires mem.Valid() && io.Ready()
    requires Fit(mem.state, mem.ActiveRoot(), ph)
    modifies io.Repr(), mem`ram, mem`freeList, mem`state
    ensures io.Ready() && io.File() == old(io.File())
    ensures var load := LoadSegment(old(mem.state), mem.ActiveRoot(), io.File(), ph);
      Agrees(step, load) && (!load.Panic? ==> mem.Valid() && mem.state == load.m)
  {
    hide Inv, FreeOk, StoreBytes, MapRange, SetRangeFlags, RangeMappable, RangeOfUserPages, MtagRootAddr, SegmentFlags;
    hide PageCount, UserRange, SegmentOk, RangeMayMap, Fill, IoObject.Ready, IoObject.File, IoObject.Pos;
    ghost var before, root := mem.state, mem.ActiveRoot();
    if ph.vaddr < USER_START_VMA || (ph.vaddr + ph.memsz) % TWO_64 > USER_END_VMA { return Fail(6); }
    var rwx := SegmentFlags(ph.flags);
    var found := io.Seek(ph.offset);
    if !found { return Fail(7); }
    SegmentMayMap(before, root, ph);
    var panic := mem.AllocAndMapRange(ph.vaddr, ph.memsz, USER_RW);
    if panic { return Stop; }
    SegmentCalls(before, root, io.File(), ph);
    var data := io.Read(ph.filesz);
    step := FillSegment(mem, ph, data, rwx);
  }

  /** The part that does not read the file: the bytes, the flags, and the zeros that follow. */
  method FillSegment(mem: Manager, ph: Phdr, data: seq<Byte>, rwx: Flags) returns (step: Step)
    requires mem.Valid() && SegmentOk(ph) && ph.memsz <= MAX_RANGE && !rwx.g
    requires UserRange(mem.state, mem.ActiveRoot(), ph.vaddr, ph.vaddr + |data|)
    requires RangeOfUserPages(StoreBytes(mem.state, mem.ActiveRoot(), ph.vaddr, data), mem.ActiveRoot(), ph.vaddr,
                              PageCount(ph.memsz))
    requires |data| == ph.filesz ==>
      var m := SetRangeFlags(StoreBytes(mem.state, mem.ActiveRoot(), ph.vaddr, data), mem.ActiveRoot(), ph.vaddr,
                             PageCount(ph.memsz), rwx);
      m.Some? && UserRange(m.value, mem.ActiveRoot(), ph.vaddr + ph.filesz, ph.vaddr + ph.memsz)
    modifies mem`ram, mem`freeList, mem`state
    ensures var load := Fill(old(mem.state), mem.ActiveRoot(), ph, data, rwx);
      Agrees(step, load) && (!load.Panic? ==> mem.Valid() && mem.state == load.m)
  {
    hide Inv, FreeOk, StoreBytes, SetRangeFlags, RangeOfUserPages, MtagRootAddr, PageCount, UserRange;
    mem.CopyToUser(ph.vaddr, data);
    if |data| != ph.filesz { return Fail(8); }
    mem.SetRangeFlagsAt(ph.vaddr, ph.memsz, rwx);
    if ph.memsz > ph.filesz {
      if !Writable(rwx) { return Stop; }
      mem.CopyToUser(ph.vaddr + ph.filesz, Zeros(ph.memsz - ph.filesz));
    }
    step := Done;
  }

  /** A segment in the user range is small enough for the manager's page counts. */
  lemma SegmentMayMap(m: Mem, root: nat, ph: Phdr)
    requires Fit(m, root, ph) && InUserRange(ph)
    ensures RangeMayMap(m, root, ph.vaddr, PageCount(ph.memsz)) && ph.memsz <= MAX_RANGE && ph.filesz <= ph.memsz
  {
    hide Mappable, Walk;
    var n := PageCount(ph.memsz);
    if n > 0 { assert Wellformed(PageVa(ph.vaddr, n - 1)); }
  }

  /** The memory manager's demands on its caller are met at every call. */
  lemma SegmentCalls(m: Mem, root: nat, file: seq<Byte>, ph: Phdr)
    requires Inv(m) && Fit(m, root, ph) && InUserRange(ph) && ph.offset <= |file|
    requires MapRange(m, root, ph.vaddr, PageCount(ph.memsz), USER_RW).Some?
    ensures !SegmentFlags(ph.flags).g
    ensures var n := PageCount(ph.memsz); var va := ph.vaddr;
      var m1 := MapRange(m, root, va, n, USER_RW).value;
      var data := ReadAt(file, ph.offset, ph.filesz);
      var m2 := StoreBytes(m1, root, va, data);
      && UserRange(m1, root, va, va + |data|) && RangeOfUserPages(m2, root, va, n)
      && (|data| == ph.filesz ==>
            && SetRangeFlags(m2, root, va, n, SegmentFlags(ph.flags)).Some?
            && UserRange(SetRangeFlags(m2, root, va, n, SegmentFlags(ph.flags)).value, root, va + ph.filesz, va + ph.memsz))
  {
    hide Inv, StoreBytes, MapRange, SetRangeFlags, RangeMappable, RangeOfUserPages, StepKeeps, PageCount, UserByte;
    hide OnlyData, SameWalks, HoldsBytes, BytesKeptOutside, PagesFlagged, SegmentFlags, ByteAt, LoadKeeps, GivenUp;
    hide InUserRange;
    var n, va := PageCount(ph.memsz), ph.vaddr;
    NoGlobalSegment(ph.flags);
    RemapStep(m, root, va, ph.memsz);
    var m1 := MapRange(m, root, va, n, USER_RW).value;
    LoadedInv(m, m1, root, va, n);
    var data := ReadAt(file, ph.offset, ph.filesz);
    StoreStep(m1, root, va, ph.memsz, va, data);
    var m2 := StoreBytes(m1, root, va, data);
    FlagStep(m2, root, va, ph.memsz, SegmentFlags(ph.flags));
    RangeBytesAreUser(SetRangeFlags(m2, root, va, n, SegmentFlags(ph.flags)).value, root, va, ph.memsz);
  }

  /** The segments that the header at pos names, when there is one, are fit to be loaded. */
  ghost predicate FitToLoad(m: Mem, root: nat, file: seq<Byte>, pos: nat)
    requires pos <= |file|
  {
    var h := ReadAt(file, pos, EHDR_SIZE);
    |h| == EHDR_SIZE ==> SegmentsOk(m, root, file, Field(h, 32, 8), Field(h, 56, 2))
  }

  /** What elf_load leaves of m, on success and on failure: everything off the segments. */
  ghost predicate KeepsOthers(m: Mem, m': Mem, root: nat, file: seq<Byte>, pos: nat)
    requires pos <= |file|
  {
    var h := ReadAt(file, pos, EHDR_SIZE);
    if |h| == EHDR_SIZE && HeaderError(h) == 0 then LeftAlone(m, m', root, file, Field(h, 32, 8), Field(h, 56, 2))
    else m' == m
  }

  /** The segments that the header at pos names are loaded, and what was mapped there is given up. */
  ghost predicate HoldsImage(m: Mem, m': Mem, root: nat, file: seq<Byte>, pos: nat)
    requires pos <= |file|
  {
    var h := ReadAt(file, pos, EHDR_SIZE);
    |h| == EHDR_SIZE && LoadState(m, m', root, file, Field(h, 32, 8), Field(h, 56, 2))
  }

  lemma ElfLoadKeeps(m: Mem, root: nat, file: seq<Byte>, pos: nat)
    requires Inv(m) && root in m.roots && pos <= |file| && FitToLoad(m, root, file, pos)
    ensures var (out, m') := ElfLoad(m, root, file, pos);
      && (!out.Panicked? ==> KeepsOthers(m, m', root, file, pos))
      && (out.Entry? ==> HoldsImage(m, m', root, file, pos))
  {
    hide Inv, LoadHeaders, SegmentsOk, LeftAlone, LoadState, FromLe;
    var h := ReadAt(file, pos, EHDR_SIZE);
    if |h| == EHDR_SIZE && !LoadHeaders(m, root, file, Field(h, 32, 8), Field(h, 56, 2)).Panic? {
      ImageIsLoaded(m, root, file, Field(h, 32, 8), Field(h, 56, 2));
    }
  }

  /** A file with headers of the gABI's layout: what makes it unsupported is what elf_load returns;
      else its programs are loaded in order, and when all are, e_entry is the entry point. */
  lemma ElfLoads(m: Mem, root: nat, file: seq<Byte>, pos: nat, e: Ehdr, ps: seq<Program>)
    requires IsElf(file, pos, e, ps) && pos <= |file|
    ensures !Supported(e) ==> ElfLoad(m, root, file, pos) == (Error(HeaderError(EhdrBytes(e))), m)
    ensures Supported(e) ==>
      var load, (out, m') := LoadPrograms(m, root, file, ps), ElfLoad(m, root, file, pos);
      && (load.Loaded? ==> out == Outcome.Entry(e.entry) && m' == load.m)
      && (load.Failed? ==> out == Error(load.code) && m' == load.m)
      && (load.Panic? ==> out.Panicked?)
  {
    hide IsElf, HeaderError, EhdrBytes, LoadHeaders, LoadPrograms, Field, PhdrBytes, EhdrOk;
    HeaderRead(file, pos, e, ps);
    HeaderErrorIs(e);
    EhdrFields(e);
    HeadersArePrograms(m, root, file, pos, e, ps, |ps|);
    assert ps[..|ps|] == ps;
  }

  lemma HeaderRead(file: seq<Byte>, pos: nat, e: Ehdr, ps: seq<Program>)
    requires IsElf(file, pos, e, ps) && pos <= |file|
    ensures EhdrOk(e) && |ps| == e.phnum && ReadAt(file, pos, EHDR_SIZE) == EhdrBytes(e)
  {
    hide EhdrBytes, PhdrBytes, EhdrOk;
  }

  /** Loaded, its programs are in memory. */
  lemma ElfIsLoaded(m: Mem, root: nat, file: seq<Byte>, pos: nat, e: Ehdr, ps: seq<Program>)
    requires Inv(m) && root in m.roots && pos <= |file| && IsElf(file, pos, e, ps) && ElfLoad(m, root, file, pos).0.Entry?
    ensures ElfLoad(m, root, file, pos).0 == Outcome.Entry(e.entry) && Supported(e)
    ensures FitToLoad(m, root, file, pos) <==> ProgramsOk(m, root, ps)
    ensures ProgramsOk(m, root, ps) ==> ProgramsLoaded(ElfLoad(m, root, file, pos).1, root, file, ps)
  {
    hide Inv, IsElf, EhdrBytes, LoadPrograms, Field, ElfLoad, ProgramsOk, SegmentsOk, ProgramsLoaded, EhdrOk;
    hide SegmentsLoaded, KeepsOthers, SegmentsGivenUp, HeaderError;
    ElfLoads(m, root, file, pos, e, ps);
    HeaderRead(file, pos, e, ps);
    HeaderErrorIs(e);
    EhdrFields(e);
    ProgramsAreSegments(m, root, file, pos, e, ps);
    if ProgramsOk(m, root, ps) {
      ElfLoadKeeps(m, root, file, pos);
      SegmentsArePrograms(ElfLoad(m, root, file, pos).1, root, file, pos, e, ps);
    }
  }

  lemma EveryElfIsLoaded(m: Mem, root: nat, file: seq<Byte>, pos: nat)
    requires Inv(m) && root in m.roots && pos <= |file| && FitToLoad(m, root, file, pos)
    ensures var (out, m') := ElfLoad(m, root, file, pos);
      out.Entry? ==> forall e, ps :: IsElf(file, pos, e, ps) ==> out.entry == e.entry && ProgramsLoaded(m', root, file, ps)
  {
    hide Inv, IsElf, ElfLoad, FitToLoad, ProgramsOk, ProgramsLoaded;
    var (out, m') := ElfLoad(m, root, file, pos);
    if out.Entry? {
      forall e, ps | IsElf(file, pos, e, ps) ensures out.entry == e.entry && ProgramsLoaded(m', root, file, ps) {
        ElfIsLoaded(m, root, file, pos, e, ps);
      }
    }
  }

  /** elf_load. When it returns an entry point, the active space holds the image of every loadable
      segment, whatever was mapped there before; whether it does or fails, every other space and
      everything off the segments is as before. */
  method LoadElf(io: IoObject, mem: Manager) returns (out: Outcome)
    requires mem.Valid() && io.Ready()
    requires FitToLoad(mem.state, mem.ActiveRoot(), io.File(), io.Pos())
    modifies io.Repr(), mem`ram, mem`freeList, mem`state
    ensures io.Ready() && io.File() == old(io.File())
    ensures out == ElfLoad(old(mem.state), mem.ActiveRoot(), io.File(), old(io.Pos())).0
    ensures !out.Panicked? ==>
      && mem.Valid() && mem.state == ElfLoad(old(mem.state), mem.ActiveRoot(), io.File(), old(io.Pos())).1
      && KeepsOthers(old(mem.state), mem.state, mem.ActiveRoot(), io.File(), old(io.Pos()))
    ensures out.Entry? ==> HoldsImage(old(mem.state), mem.state, mem.ActiveRoot(), io.File(), old(io.Pos()))
    ensures out.Entry? ==> forall e, ps :: IsElf(io.File(), old(io.Pos()), e, ps) ==>
      out.entry == e.entry && ProgramsLoaded(mem.state, mem.ActiveRoot(), io.File(), ps)
  {
    hide Inv, FreeOk, LoadHeaders, LoadHeader, SegmentsOk, FromLe, MtagRootAddr, LeftAlone, LoadState;
    hide KeepsOthers, HoldsImage, IsElf, ProgramsLoaded, IoObject.Ready, IoObject.File, IoObject.Pos;
    ghost var before, root, file := mem.state, mem.ActiveRoot(), io.File();
    ElfLoadKeeps(before, root, file, io.Pos());
    EveryElfIsLoaded(before, root, file, io.Pos());
    var h := io.Read(EHDR_SIZE);
    if |h| != EHDR_SIZE { return Error(1); }
    if HeaderError(h) != 0 { return Error(HeaderError(h)); }
    var phoff, phnum := Field(h, 32, 8), Field(h, 56, 2);
    NoHeaders(before, root, file, phoff, phnum);
    for i := 0 to phnum
      invariant mem.Valid() && mem.ActiveRoot() == root && io.Ready() && io.File() == file
      invariant LoadHeaders(before, root, file, phoff, i) == Loaded(mem.state)
    {
      HeaderStep(before, mem.state, root, file, phoff, i, phnum);
      var step := LoadNext(io, mem, phoff, i);
      match step
      case Done =>
      case Fail(code) => return Error(code);
      case Stop => return Panicked;
    }
    out := Outcome.Entry(Field(h, 24, 8));
  }

  /** The body of the loop over the program headers. */
  method LoadNext(io: IoObject, mem: Manager, phoff: nat, i: nat) returns (step: Step)
    requires mem.Valid() && io.Ready()
    requires IsSegment(io.File(), phoff, i) ==>
      Fit(mem.state, mem.ActiveRoot(), SegmentAt(io.File(), phoff, i))
    modifies io.Repr(), mem`ram, mem`freeList, mem`state
    ensures io.Ready() && io.File() == old(io.File())
    ensures var load := LoadHeader(old(mem.state), mem.ActiveRoot(), io.File(), phoff, i);
      Agrees(step, load) && (!load.Panic? ==> mem.Valid() && mem.state == load.m)
  {
    hide Inv, FreeOk, LoadSegment, Fit, FromLe, MtagRootAddr;
    hide IoObject.Ready, IoObject.File, IoObject.Pos;
    ghost var file := io.File();
    var found := io.Seek(HeaderPos(phoff, i));
    if !found { return Fail(4); }
    var raw := io.Read(PHDR_SIZE);
    if |raw| != PHDR_SIZE { return Fail(5); }
    assert raw == file[HeaderPos(phoff, i)..HeaderPos(phoff, i) + PHDR_SIZE];
    var ph := ParsePhdr(raw);
    if ph.ptype != PT_LOAD { return Done; }
    step := LoadOne(io, mem, ph);
  }

  lemma NoHeaders(m: Mem, root: nat, file: seq<Byte>, phoff: nat, n: nat)
    ensures LoadHeaders(m, root, file, phoff, 0) == Loaded(m)
  {
  }

  lemma {:induction false} FailureStays(m: Mem, root: nat, file: seq<Byte>, phoff: nat, k: nat, n: nat)
    requires k <= n && !LoadHeaders(m, root, file, phoff, k).Loaded?
    ensures LoadHeaders(m, root, file, phoff, n) == LoadHeaders(m, root, file, phoff, k)
  {
    hide LoadHeader;
    if k < n { FailureStays(m, root, file, phoff, k, n - 1); }
  }

  /** One turn of the loop over the program headers. */
  lemma HeaderStep(m: Mem, m1: Mem, root: nat, file: seq<Byte>, phoff: nat, i: nat, n: nat)
    requires Inv(m) && root in m.roots && i < n && SegmentsOk(m, root, file, phoff, n)
    requires LoadHeaders(m, root, file, phoff, i) == Loaded(m1)
    ensures var load := LoadHeader(m1, root, file, phoff, i);
      && LoadHeaders(m, root, file, phoff, i + 1) == load
      && (!load.Loaded? ==> LoadHeaders(m, root, file, phoff, n) == load)
    ensures IsSegment(file, phoff, i) ==> Fit(m1, root, SegmentAt(file, phoff, i))
  {
    hide Inv, LoadSegment, SegmentsLoaded, OthersKept, PageDisjoint, FromLe, Fit, KeepsMappable, LoadState;
    ImageIsLoaded(m, root, file, phoff, i);
    if !LoadHeader(m1, root, file, phoff, i).Loaded? { FailureStays(m, root, file, phoff, i + 1, n); }
    if IsSegment(file, phoff, i) {
      OthersRoots(m, m1, root, file, phoff, i);
      StaysFit(m, m1, root, SegmentAt(file, phoff, i));
    }
  }

  // --- one program after another ---

  /** The shell loads one file after another into its space, each from its start, and goes on after
      an error; none is a panic. */
  function LoadAll(m: Mem, root: nat, files: seq<seq<Byte>>): Option<Mem> {
    if files == [] then Some(m)
    else
      var last := |files| - 1;
      var prev := LoadAll(m, root, files[..last]);
      if prev.None? then None
      else
        var (out, m') := ElfLoad(prev.value, root, files[last], 0);
        if out.Panicked? then None else Some(m')
  }

  /** What holds after any number of loads. */
  ghost predicate AfterLoads(m: Mem, m': Mem, root: nat) {
    && Inv(m') && m'.roots == m.roots && m'.owner.Keys == m.owner.Keys && KeepsMappable(m, m', root)
    && forall r, a: nat :: r != root && UserByte(m, r, a) ==>
         UserByte(m', r, a) && ByteAt(m'.ram, r, a) == ByteAt(m.ram, r, a)
  }

  lemma KeepsOthersMeans(m: Mem, m': Mem, root: nat, file: seq<Byte>, pos: nat)
    requires Inv(m) && pos <= |file| && KeepsOthers(m, m', root, file, pos)
    ensures AfterLoads(m, m', root)
  {
    hide Inv, Mappable, UserByte, ByteAt, IsSegment, FromLe, OffSegments, OutsideSegments, SegmentsPage, WalkAt;
  }

  lemma AfterLoadsTrans(m: Mem, m1: Mem, m2: Mem, root: nat)
    requires AfterLoads(m, m1, root) && AfterLoads(m1, m2, root)
    ensures AfterLoads(m, m2, root)
  {
    hide Inv, Mappable, UserByte, ByteAt;
  }

  lemma NoLoads(m: Mem, root: nat)
    requires Inv(m)
    ensures AfterLoads(m, m, root)
  {
    hide Inv, Mappable, UserByte, ByteAt;
  }

  lemma FitStays(m: Mem, m': Mem, root: nat, file: seq<Byte>)
    requires FitToLoad(m, root, file, 0) && AfterLoads(m, m', root)
    ensures FitToLoad(m', root, file, 0)
  {
    hide Inv, KeepsMappable, PageDisjoint, Fit, FromLe, UserByte, ByteAt, IsSegment;
    var h := ReadAt(file, 0, EHDR_SIZE);
    if |h| == EHDR_SIZE {
      forall i: nat | i < Field(h, 56, 2) && IsSegment(file, Field(h, 32, 8), i)
        ensures Fit(m', root, SegmentAt(file, Field(h, 32, 8), i))
      {
        StaysFit(m, m', root, SegmentAt(file, Field(h, 32, 8), i));
      }
    }
  }

  /** After any number of commands: the invariant holds, no other space has changed, and when the
      last file was loaded its image is there in full, over whatever the earlier ones left. */
  lemma {:induction false} EveryCommandLoads(m: Mem, root: nat, files: seq<seq<Byte>>)
    requires Inv(m) && root in m.roots && LoadAll(m, root, files).Some?
    requires forall file :: file in files ==> FitToLoad(m, root, file, 0)
    ensures AfterLoads(m, LoadAll(m, root, files).value, root)
    ensures files != [] ==>
      var last := files[|files| - 1];
      var before := LoadAll(m, root, files[..|files| - 1]);
      && before.Some? && FitToLoad(before.value, root, last, 0)
      && (ElfLoad(before.value, root, last, 0).0.Entry? ==>
            HoldsImage(before.value, LoadAll(m, root, files).value, root, last, 0))
  {
    hide Inv, KeepsOthers, HoldsImage, FitToLoad, ElfLoad, KeepsMappable, UserByte, ByteAt;
    if files == [] {
      NoLoads(m, root);
      return;
    }
    var last := files[|files| - 1];
    EveryCommandLoads(m, root, files[..|files| - 1]);
    var m1 := LoadAll(m, root, files[..|files| - 1]).value;
    FitStays(m, m1, root, last);
    ElfLoadKeeps(m1, root, last, 0);
    var m2 := LoadAll(m, root, files).value;
    KeepsOthersMeans(m1, m2, root, last, 0);
    hide AfterLoads;
    AfterLoadsTrans(m, m1, m2, root);
  }
}
