/** The memory manager as memory.c has it: one physical memory updated in place, a free list linked
    through the free pages, and loops over table entries. Each method is proved to make the state
    change that the specification modules define. None stands for a kernel panic. */
module Memory {
  import opened Common
  import opened Bytes
  import opened Sv39
  import opened PageTables
  import opened Mapping
  import opened Ranges
  import opened PteWords
  import opened UserMemory
  import opened Clone
  import opened CloneTheorems
  import opened MemoryRuns

  // --- address-space tags ---

  /** mtag_to_root: the address of the level-2 table, in 64-bit arithmetic. */
  function MtagRootAddr(mtag: nat): nat { mtag * 0x10_0000 % TWO_64 / 0x100 }

  /** The tag that memory_space_clone returns: mode Sv39 and the page number of the root. */
  function MakeMtag(root: nat): nat { 0x8000_0000_0000_0000 + root }

  /** The mode bits of the tag, the top four, say Sv39, and its address space identifier is 0. */
  lemma MtagMode(root: nat)
    requires root < PPN_LIMIT
    ensures MakeMtag(root) < TWO_64 && MakeMtag(root) / 0x1000_0000_0000_0000 == 8
    ensures MakeMtag(root) / PPN_LIMIT % 0x1_0000 == 0 && MakeMtag(root) % PPN_LIMIT == root
  {
  }

  lemma MtagRoundTrip(root: nat)
    requires root < PPN_LIMIT
    ensures MtagRootAddr(MakeMtag(root)) == root * PAGE_SIZE
  {
    assert MakeMtag(root) * 0x10_0000 == 0x8_0000 * TWO_64 + root * 0x10_0000;
  }

  /** The loop of memory_init that makes the free list out of pages lo to hi - 1. */
  method LinkFreePages(bootRam: Ram, lo: nat, hi: nat) returns (ram: Ram)
    requires lo < hi && forall p :: lo <= p < hi ==> p in bootRam
    ensures ram == LinkedUpto(bootRam, lo, hi, hi)
  {
    hide StoreLink, LinkedUpto;
    ram := bootRam;
    LinkOneMore(bootRam, lo, lo, hi);
    var page: nat := lo;
    for x := 0 to hi - lo - 1
      invariant page == lo + x && ram == LinkedUpto(bootRam, lo, page, hi) && ram.Keys == bootRam.Keys
    {
      LinkOneMore(bootRam, lo, page, hi);
      ram := ram[page := StoreLink(ram[page], (page + 1) * PAGE_SIZE)];
      page := page + 1;
    }
    LinkOneMore(bootRam, lo, page, hi);
    ram := ram[page := StoreLink(ram[page], 0)];
  }

  /** The largest size whose page count an int holds. */
  const MAX_RANGE: nat := 0x7FF_FFFF_F000

  datatype FaultResult = Resumes | Exits | Panics

  class Manager {
    var ram: Ram
    var freeList: nat             // address of the first free page
    var satp: nat                 // tag of the active space
    ghost var state: Mem

    ghost predicate Consistent()
      reads this
    {
      FreeOk(state) && state.ram == ram && freeList == ListAddr(state.free, 0)
    }

    function ActiveRoot(): nat
      reads this
    {
      MtagRootAddr(satp) / PAGE_SIZE
    }

    ghost predicate Valid()
      reads this
    {
      Consistent() && Inv(state) && ActiveRoot() in state.roots
    }

    constructor (bootRam: Ram, lo: nat, hi: nat, mainRoot: nat, ghost kernel: set<nat>)
      requires BootTables(bootRam, lo, hi, mainRoot, kernel) && mainRoot < PPN_LIMIT
      ensures Valid() && state == InitState(bootRam, lo, hi, mainRoot, kernel) && ActiveRoot() == mainRoot
    {
      hide Inv, FreeOk, LinkedUpto, MakeMtag, MtagRootAddr, BootTables, InitState;
      InitFields(bootRam, lo, hi, mainRoot, kernel);
      MtagRoundTrip(mainRoot);
      var linked := LinkFreePages(bootRam, lo, hi);
      ram := linked;
      freeList, satp := lo * PAGE_SIZE, MakeMtag(mainRoot);
      state := InitState(bootRam, lo, hi, mainRoot, kernel);
    }

    method AllocatePage() returns (page: Option<nat>)
      requires Consistent()
      modifies this`ram, this`freeList, this`state
      ensures old(state.free) == [] ==> page == None
      ensures old(state.free) != [] ==>
        && page == Some(old(state.free[0]) * PAGE_SIZE)
        && state == AllocPage(old(state)).value.0 && Consistent()
    {
      if freeList == 0 {
        assert state.free == [] by { HeadNotNull(state); }
        return None;
      }
      HeadNotNull(state);
      AllocKeepsFree(state);
      var newPage := freeList;
      assert newPage / PAGE_SIZE == state.free[0];
      assert Link(ram[state.free[0]]) == ListAddr(state.free, 1);
      freeList := Link(ram[newPage / PAGE_SIZE]);
      ram := ram[newPage / PAGE_SIZE := ZeroPage()];
      state := AllocPage(state).value.0;
      page := Some(newPage);
    }

    method ReleasePage(page: nat)
      requires Consistent() && page % PAGE_SIZE == 0 && Owns(state, page / PAGE_SIZE, Held)
      modifies this`ram, this`freeList, this`state
      ensures Consistent() && state == FreePage(old(state), page / PAGE_SIZE)
    {
      FreeKeepsFree(state, page / PAGE_SIZE);
      ram := ram[page / PAGE_SIZE := StoreLink(ram[page / PAGE_SIZE], freeList)];
      freeList := page;
      state := FreePage(state, page / PAGE_SIZE);
    }

    /** One level of walk_pt: the table that entry i of table t points to, created if need be. */
    method NextTable(t: nat, i: nat, create: bool, ghost role: Role) returns (next: Option<nat>, panic: bool)
      requires Consistent() && i < PTE_CNT
      requires create ==> Inv(state) && SlotFor(state, t, i, role)
      requires create && Entry(state.ram, t, i).flags.v ==> !Entry(state.ram, t, i).flags.g
      modifies this`ram, this`freeList, this`state
      ensures !create ==>
        && state == old(state) && Consistent() && !panic
        && next == if Entry(old(state).ram, t, i).flags.v then Some(Entry(old(state).ram, t, i).ppn) else None
      ensures create ==> var result := EnsureTable(old(state), t, i, role);
        && (panic <==> result.None?)
        && (!panic ==> Consistent() && state == result.value.0 && next == Some(result.value.1))
    {
      hide Inv, Entry, FreeOk, SlotFor, AllocPage, Attach, TablePte, StorePte, SameWalks, Extends, NoNewGlobals;
      if Entry(ram, t, i).flags.v { return Some(Entry(ram, t, i).ppn), false; }
      if !create { return None, false; }
      ghost var before := state;
      EnsureTableKeeps(before, t, i, role);
      var page := AllocatePage();
      if page.None? { return None, true; }
      var p := page.value / PAGE_SIZE;
      AttachInRam(before, t, i, role);
      ram := ram[t := StorePte(ram[t], i, TablePte(p, NO_FLAGS))];
      state := Attach(state, t, i, TablePte(p, NO_FLAGS), role);
      InvFree(state);
      return Some(p), false;
    }

    /** walk_pt: the level-0 table whose entry VPN0 serves va; none is NULL. */
    method WalkTables(root: nat, va: nat, create: bool) returns (table: Option<nat>, panic: bool)
      requires Consistent() && (create ==> Inv(state) && Mappable(state, root, va))
      modifies this`ram, this`freeList, this`state
      ensures !Wellformed(va) ==> table == None && !panic && state == old(state) && Consistent()
      ensures Wellformed(va) && !create ==>
        && state == old(state) && Consistent() && !panic
        && table == LeafTableOf(old(state).ram, root, va)
      ensures Wellformed(va) && create ==>
        && (panic <==> WalkPt(old(state), root, va).None?)
        && (!panic ==> Consistent() && table.Some? && WalkPt(old(state), root, va) == Some((state, table.value)))
    {
      hide Inv, Entry, FreeOk, EnsureTable;
      if !Wellformed(va) { return None, false; }
      var mid;
      if create { RootSlotFits(state, root, va); }
      mid, panic := NextTable(root, Vpn2(va), create, Mid(root, Vpn2(va)));
      if panic || mid.None? { return None, panic; }
      if create { MidSlotFits(old(state), root, va); }
      table, panic := NextTable(mid.value, Vpn1(va), create, Leaf(mid.value, Vpn1(va)));
    }

    method AllocAndMapPage(va: nat, rwxug: Flags) returns (panic: bool)
      requires Valid() && (Wellformed(va) ==> Mappable(state, ActiveRoot(), va))
      modifies this`ram, this`freeList, this`state
      ensures panic <==> MapPage(old(state), ActiveRoot(), va, rwxug).None?
      ensures !panic ==> Valid() && state == MapPage(old(state), ActiveRoot(), va, rwxug).value
      ensures !panic ==>
        && old(state.free) != []
        && SlotWord(ram, ActiveRoot(), va) == 0x400 * old(state.free)[0] + LeafByte(rwxug)
    {
      hide Inv, Entry, FreeOk, WalkPt, AllocPage, MapPage, Mappable, LeafPte, StorePte, MtagRootAddr, Wellformed;
      hide Vpn0, ListAddr, SlotWord, LeafByte;
      MalformedPanics(state, ActiveRoot(), va, rwxug);
      if !Wellformed(va) { return true; }
      ghost var root := ActiveRoot();
      ghost var before := state;
      MappedIsValid(before, root, va, rwxug);
      var page := AllocatePage();
      if page.None? { return true; }
      MapInRam(before, root, va, rwxug);
      var table;
      table, panic := WalkTables(ActiveRoot(), va, true);
      if panic { return true; }
      var p, l := page.value / PAGE_SIZE, table.value;
      VpnBounds(va);
      ram := ram[l := StorePte(ram[l], Vpn0(va), LeafPte(p, rwxug))];
      state := MapPage(before, root, va, rwxug).value;
      MapPageWord(before, root, va, rwxug);
    }

    method AllocAndMapRange(va: nat, size: nat, rwxug: Flags) returns (panic: bool)
      requires Valid() && size <= MAX_RANGE
      requires RangeMayMap(state, ActiveRoot(), va, PageCount(size))
      modifies this`ram, this`freeList, this`state
      ensures panic <==> MapRange(old(state), ActiveRoot(), va, PageCount(size), rwxug).None?
      ensures !panic ==> Valid() && state == MapRange(old(state), ActiveRoot(), va, PageCount(size), rwxug).value
    {
      hide Inv, Entry, FreeOk, MapRange, RangeMayMap, MapPage, Mappable, MtagRootAddr, Wellformed, PageVa;
      hide ListAddr;
      var numPages := size / PAGE_SIZE;
      if size % PAGE_SIZE > 0 { numPages := numPages + 1; }
      ghost var before, root := state, ActiveRoot();
      MapNoPages(before, root, va, rwxug);
      for x := 0 to numPages
        invariant Valid() && ActiveRoot() == root && MapRange(before, root, va, x, rwxug) == Some(state)
      {
        MapNextPage(before, state, root, va, x, numPages, rwxug);
        panic := AllocAndMapPage(PageVa(va, x), rwxug);
        if panic { return true; }
      }
      panic := false;
    }

    /** memory_handle_page_fault: a fault at an address of the user range gets a page there, even if
        one is mapped already. */
    method HandlePageFault(va: nat) returns (r: FaultResult)
      requires Valid() && (USER_START_VMA <= va <= USER_END_VMA ==> Mappable(state, ActiveRoot(), va))
      modifies this`ram, this`freeList, this`state
      ensures r.Exits? <==> va < 0xC000_0000 || 0xD000_0000 < va
      ensures r.Exits? ==> state == old(state) && Valid()
      ensures r.Panics? ==> MapPage(old(state), ActiveRoot(), va, USER_RW).None?
      ensures r.Resumes? ==> Valid() && MapPage(old(state), ActiveRoot(), va, USER_RW) == Some(state)
      ensures r.Resumes? ==>     // D, A, U, W, R and V
        old(state.free) != [] && SlotWord(ram, ActiveRoot(), va) == 0x400 * old(state.free)[0] + 0xD7
    {
      hide SlotWord;
      if !(USER_START_VMA <= va && va <= USER_END_VMA) { return Exits; }
      var panic := AllocAndMapPage(va, USER_RW);
      return if panic then Panics else Resumes;
    }

    /** memory_set_page_flags. SetPageFlagsIff says when the invariant is kept. */
    method SetPageFlagsAt(va: nat, rwxug: Flags) returns (panic: bool)
      requires Valid() && (Wellformed(va) ==> Mappable(state, ActiveRoot(), va))
      modifies this`ram, this`freeList, this`state
      ensures panic <==> SetPageFlags(old(state), ActiveRoot(), va, rwxug).None?
      ensures !panic ==>
        && Consistent() && Some(state) == SetPageFlags(old(state), ActiveRoot(), va, rwxug)
        && (Inv(state) ==> Valid())
      ensures !panic ==>
        var word := SlotWord(old(ram), ActiveRoot(), va);
        SlotWord(ram, ActiveRoot(), va) == word - word % 0x100 + LeafByte(rwxug)
    {
      hide Inv, Entry, FreeOk, StorePte, MtagRootAddr, Mappable, SlotWord, LeafByte;
      ghost var root := ActiveRoot();
      var table;
      table, panic := WalkTables(ActiveRoot(), va, false);
      if table.None? { return true; }
      FlagsStored(state, root, va, rwxug);
      SetPageFlagsWord(state, root, va, rwxug) by { TablesAreThere(state, root, va); }
      var l := table.value;
      var e0 := Entry(ram, l, Vpn0(va));
      state := SetPageFlags(state, root, va, rwxug).value;
      ram := ram[l := StorePte(ram[l], Vpn0(va), RawPte.Pte(LeafFlags(rwxug), e0.rsw, e0.ppn, e0.attr))];
    }

    method SetRangeFlagsAt(va: nat, size: nat, rwxug: Flags)
      requires Valid() && size <= MAX_RANGE
      requires RangeOfUserPages(state, ActiveRoot(), va, PageCount(size)) && !rwxug.g
      modifies this`ram, this`freeList, this`state
      ensures Valid() && Some(state) == SetRangeFlags(old(state), ActiveRoot(), va, PageCount(size), rwxug)
    {
      hide Inv, Entry, FreeOk, SetRangeFlags, RangeOfUserPages, SetPageFlags, Walk, MtagRootAddr, Wellformed, PageVa;
      hide ListAddr;
      var numPages := size / PAGE_SIZE;
      if size % PAGE_SIZE > 0 { numPages := numPages + 1; }
      ghost var before, root := state, ActiveRoot();
      MapNoPages(before, root, va, rwxug);
      for x := 0 to numPages
        invariant Valid() && ActiveRoot() == root && SetRangeFlags(before, root, va, x, rwxug) == Some(state)
      {
        FlagNextPage(before, state, root, va, x, numPages, rwxug);
        UserIsMappable(state, root, PageVa(va, x));
        var panic := SetPageFlagsAt(PageVa(va, x), rwxug);
      }
    }

    /** memcpy or memset into mapped user pages of the active space, one store at a time. */
    method CopyToUser(va: nat, bs: seq<Byte>)
      requires Valid() && UserRange(state, ActiveRoot(), va, va + |bs|)
      modifies this`ram, this`state
      ensures Valid() && state == StoreBytes(old(state), ActiveRoot(), va, bs)
    {
      hide Inv, FreeOk, Walk, MtagRootAddr, UserRange, StoreBytes;
      ghost var before, root := state, ActiveRoot();
      StorePrefix(before, root, va, bs, 0);
      for x := 0 to |bs|
        invariant Valid() && ActiveRoot() == root && state == StoreBytes(before, root, va, bs[..x])
      {
        StorePrefix(before, root, va, bs, x);
        var w := Walk(ram, ActiveRoot(), va + x);
        if w.Found? && w.level == 0 && w.pte.ppn in ram {
          ram := ram[w.pte.ppn := ram[w.pte.ppn][Offset(va + x) := bs[x]]];
        }
        state := StoreByte(state, root, va + x, bs[x]);
      }
      assert bs[..|bs|] == bs;
    }

    // --- memory_space_clone; the two inner loops are methods of their own ---

    /** The body shared by the three loops: copy the entry, allocate a page, refer to it. */
    method CopyEntryDeep(table: nat, i: nat, e: Pte, role: Role) returns (page: Option<nat>)
      requires Consistent() && Inv(state) && Slot(state, table, i, role) && DeepEntry(e, role)
      modifies this`ram, this`freeList, this`state
      ensures page.None? <==> CopySlot(old(state), table, i, e, role).None?
      ensures page.Some? ==> Consistent() && CopySlot(old(state), table, i, e, role) == Some((state, page.value))
    {
      hide Inv, Entry, FreeOk, StorePte, LeafPte, TablePte, ListAddr, ZeroPage, Slot, DeepEntry, Grows, SlotCopied;
      ghost var before := state;
      CopySlotKeeps(before, table, i, e, role);
      CopySlotInRam(before, table, i, e, role);
      ram := ram[table := StorePte(ram[table], i, e)];
      state := StoreEntry(state, table, i, e);
      var address := AllocatePage();
      if address.None? { return None; }
      var p := address.value / PAGE_SIZE;
      ram := ram[table := StorePte(ram[table], i, if role.Data? then LeafPte(p, e.flags) else TablePte(p, e.flags))];
      state := CopySlot(before, table, i, e, role).value.0;
      InvFree(state);
      page := Some(p);
    }

    method CloneLeafTable(old0: nat, new0: nat) returns (ok: bool)
      requires Consistent() && Inv(state) && IsLeaf(state, old0) && IsLeaf(state, new0) && old0 != new0
      requires EmptyTable(state.ram, new0)
      modifies this`ram, this`freeList, this`state
      ensures ok <==> CloneLeaf(old(state), old0, new0, PTE_CNT).Some?
      ensures ok ==> Consistent() && CloneLeaf(old(state), old0, new0, PTE_CNT) == Some(state)
    {
      hide Inv, Entry, FreeOk, StorePte, ListAddr, Slot, DeepEntry, EmptyTable, CloneLeaf, CopySlot;
      ghost var before := state;
      CloneNothing(before, old0, new0);
      for k := 0 to PTE_CNT
        invariant Consistent() && CloneLeaf(before, old0, new0, k) == Some(state)
      {
        LeafLoop(before, state, old0, new0, k);
        var e := Entry(ram, old0, k);
        if !Deep(e) {
          ram := ram[new0 := StorePte(ram[new0], k, e)];
          state := StoreEntry(state, new0, k, e);
        } else {
          var page := CopyEntryDeep(new0, k, e, Data(new0, k));
          if page.None? { return false; }
          if e.ppn in ram && page.value in ram { ram := ram[page.value := ram[e.ppn]]; }
          state := CopyPage(state, e.ppn, page.value);
        }
      }
      ok := true;
    }

    method CloneMidTable(old1: nat, new1: nat) returns (ok: bool)
      requires Consistent() && Inv(state) && IsMid(state, old1) && IsMid(state, new1) && old1 != new1
      requires EmptyTable(state.ram, new1)
      modifies this`ram, this`freeList, this`state
      ensures ok <==> CloneMid(old(state), old1, new1, PTE_CNT).Some?
      ensures ok ==> Consistent() && CloneMid(old(state), old1, new1, PTE_CNT) == Some(state)
    {
      hide Inv, Entry, FreeOk, StorePte, ListAddr, Slot, DeepEntry, EmptyTable, CloneMid, CloneLeaf, CopySlot;
      ghost var before := state;
      CloneNothing(before, old1, new1);
      for j := 0 to PTE_CNT
        invariant Consistent() && CloneMid(before, old1, new1, j) == Some(state)
      {
        MidLoop(before, state, old1, new1, j);
        var e := Entry(ram, old1, j);
        if !Deep(e) {
          ram := ram[new1 := StorePte(ram[new1], j, e)];
          state := StoreEntry(state, new1, j, e);
        } else {
          var page := CopyEntryDeep(new1, j, e, Leaf(new1, j));
          if page.None? { return false; }
          ok := CloneLeafTable(e.ppn, page.value);
          if !ok { return; }
        }
      }
      ok := true;
    }

    /** memory_space_clone: the tag of the copy of the active space. */
    method CloneActiveSpace() returns (mtag: Option<nat>)
      requires Valid()
      modifies this`ram, this`freeList, this`state
      ensures mtag.None? <==> CloneSpace(old(state), ActiveRoot()).None?
      ensures mtag.Some? ==>
        && Valid() && CloneSpace(old(state), ActiveRoot()) == Some((state, MtagRootAddr(mtag.value) / PAGE_SIZE))
    {
      hide Inv, Entry, FreeOk, StorePte, ListAddr, Slot, DeepEntry, EmptyTable, CloneRoot, CloneMid, CopySlot;
      hide AllocPage, MtagRootAddr, MakeMtag, AddRoot;
      ghost var before := state;
      var old2 := ActiveRoot();
      NewRoot(before, old2);
      var address := AllocatePage();
      if address.None? { return None; }
      var new2 := address.value / PAGE_SIZE;
      state := AddRoot(state, new2);
      ghost var start := state;
      for i := 0 to PTE_CNT
        invariant Consistent() && CloneRoot(start, old2, new2, i) == Some(state)
      {
        RootLoop(start, state, old2, new2, i);
        var e := Entry(ram, old2, i);
        if !Deep(e) {
          ram := ram[new2 := StorePte(ram[new2], i, e)];
          state := StoreEntry(state, new2, i, e);
        } else {
          var page := CopyEntryDeep(new2, i, e, Mid(new2, i));
          if page.None? { return None; }
          var ok := CloneMidTable(e.ppn, page.value);
          if !ok { return None; }
        }
      }
      ClonedIsValid(before, old2, new2);
      MtagRoundTrip(new2);
      mtag := Some(MakeMtag(new2));
    }
  }

  function LeafTableOf(ram: Ram, root: nat, va: nat): Option<nat> {
    var e2 := Entry(ram, root, Vpn2(va));
    var e1 := Entry(ram, e2.ppn, Vpn1(va));
    if e2.flags.v && e1.flags.v then Some(e1.ppn) else None
  }

  /** In terms of memory, creating a table is one store, of a pointer to the page allocated. */
  lemma AttachInRam(m: Mem, t: nat, i: nat, role: Role)
    requires Inv(m) && SlotFor(m, t, i, role) && m.free != []
    ensures var (m1, p) := AllocPage(m).value; var m2 := Attach(m1, t, i, TablePte(p, NO_FLAGS), role);
      && p == m.free[0] && t in m1.ram
      && m2.ram == m1.ram[t := StorePte(m1.ram[t], i, TablePte(p, NO_FLAGS))] && m2.free == m1.free
      && CreateTable(m, t, i, role) == (m2, p)
  {
    TablesInUse(m, t);
    hide Inv, ZeroPage, StorePte, TablePte;
  }

  lemma CloneNothing(m: Mem, a: nat, b: nat)
    ensures CloneLeaf(m, a, b, 0) == CloneMid(m, a, b, 0) == Some(m)
  {
  }

  lemma {:induction false} ClonePrefix(m: Mem, a: nat, b: nat, k: nat, n: nat)
    requires k <= n
    ensures CloneLeaf(m, a, b, k).None? ==> CloneLeaf(m, a, b, n).None?
    ensures CloneMid(m, a, b, k).None? ==> CloneMid(m, a, b, n).None?
    ensures CloneRoot(m, a, b, k).None? ==> CloneRoot(m, a, b, n).None?
  {
    hide CloneLeafSlot, CloneMidSlot, CloneRootSlot;
    if k < n { ClonePrefix(m, a, b, k, n - 1); }
  }

  lemma StoreKeepsFree(m: Mem, table: nat, i: nat, e: Pte)
    requires Inv(m) && (table in m.roots || IsMid(m, table) || IsLeaf(m, table)) && i < PTE_CNT
    ensures table in m.ram && FreeOk(StoreEntry(m, table, i, e))
    ensures StoreEntry(m, table, i, e).ram == m.ram[table := StorePte(m.ram[table], i, e)]
  {
    TablesInUse(m, table);
    FreeFrame(m, StoreEntry(m, table, i, e), table);
  }

  /** The state at the head of the innermost loop. */
  lemma LeafLoop(m: Mem, m1: Mem, old0: nat, new0: nat, k: nat)
    requires Inv(m) && IsLeaf(m, old0) && IsLeaf(m, new0) && old0 != new0 && EmptyTable(m.ram, new0)
    requires k < PTE_CNT && CloneLeaf(m, old0, new0, k) == Some(m1)
    ensures var e := Entry(m1.ram, old0, k); var next := CloneLeafSlot(m1, old0, new0, k);
      && Inv(m1) && Slot(m1, new0, k, Data(new0, k)) && (Deep(e) ==> DeepEntry(e, Data(new0, k)))
      && new0 in m1.ram && FreeOk(StoreEntry(m1, new0, k, e))
      && CloneLeaf(m, old0, new0, k + 1) == next
      && (next.None? ==> CloneLeaf(m, old0, new0, PTE_CNT).None?)
      && (next.Some? ==> FreeOk(next.value))
  {
    hide Inv, Entry, FreeOk, CloneLeafSlot, LeafCopy, StoreEntry, Takes, LeafCost, LeafSlotCost, SlotsKeptExcept;
    CloneLeafKeeps(m, old0, new0, k);
    LeavesStay(m, m1, new0, old0);
    LeavesStay(m, m1, new0, new0);
    LeafEntry(m1, old0, k);
    StoreKeepsFree(m1, new0, k, Entry(m1.ram, old0, k));
    CloneLeafSlotKeeps(m1, old0, new0, k);
    ClonePrefix(m, old0, new0, k + 1, PTE_CNT);
    if CloneLeafSlot(m1, old0, new0, k).Some? { InvFree(CloneLeafSlot(m1, old0, new0, k).value); }
  }

  lemma MidsStay(m: Mem, m': Mem, x: nat, t: nat)
    requires Grows(m, m', x) && IsMid(m, t)
    ensures IsMid(m', t)
  {
  }

  lemma MidLoop(m: Mem, m1: Mem, old1: nat, new1: nat, j: nat)
    requires Inv(m) && IsMid(m, old1) && IsMid(m, new1) && old1 != new1 && EmptyTable(m.ram, new1)
    requires j < PTE_CNT && CloneMid(m, old1, new1, j) == Some(m1)
    ensures var e := Entry(m1.ram, old1, j); var slot := CopySlot(m1, new1, j, e, Leaf(new1, j));
      && Inv(m1) && Slot(m1, new1, j, Leaf(new1, j)) && (Deep(e) ==> DeepEntry(e, Leaf(new1, j)))
      && new1 in m1.ram && FreeOk(StoreEntry(m1, new1, j, e))
      && (Deep(e) && slot.Some? ==>
            var (m2, p) := slot.value;
            && Inv(m2) && IsLeaf(m2, e.ppn) && IsLeaf(m2, p) && e.ppn != p && EmptyTable(m2.ram, p))
      && CloneMid(m, old1, new1, j + 1) == CloneMidSlot(m1, old1, new1, j)
      && (CloneMidSlot(m1, old1, new1, j).None? ==> CloneMid(m, old1, new1, PTE_CNT).None?)
  {
    hide Inv, Entry, FreeOk, CloneMidSlot, CopySlot, MidCopy, StoreEntry, Takes, MidCost, EmptyTable;
    CloneMidKeeps(m, old1, new1, j);
    MidsStay(m, m1, new1, old1);
    MidsStay(m, m1, new1, new1);
    MidEntry(m1, old1, j);
    var e := Entry(m1.ram, old1, j);
    StoreKeepsFree(m1, new1, j, e);
    ClonePrefix(m, old1, new1, j + 1, PTE_CNT);
    if Deep(e) { CopySlotKeeps(m1, new1, j, e, Leaf(new1, j)); }
  }

  lemma RootLoop(m: Mem, m1: Mem, old2: nat, new2: nat, i: nat)
    requires Inv(m) && old2 in m.roots && new2 in m.roots && old2 != new2 && EmptyTable(m.ram, new2)
    requires i < PTE_CNT && CloneRoot(m, old2, new2, i) == Some(m1)
    ensures var e := Entry(m1.ram, old2, i); var slot := CopySlot(m1, new2, i, e, Mid(new2, i));
      && Inv(m1) && Slot(m1, new2, i, Mid(new2, i)) && (Deep(e) ==> DeepEntry(e, Mid(new2, i)))
      && new2 in m1.ram && FreeOk(StoreEntry(m1, new2, i, e))
      && (Deep(e) && slot.Some? ==>
            var (m2, p) := slot.value;
            && Inv(m2) && IsMid(m2, e.ppn) && IsMid(m2, p) && e.ppn != p && EmptyTable(m2.ram, p))
      && CloneRoot(m, old2, new2, i + 1) == CloneRootSlot(m1, old2, new2, i)
      && (CloneRootSlot(m1, old2, new2, i).None? ==> CloneRoot(m, old2, new2, PTE_CNT).None?)
  {
    hide Inv, Entry, FreeOk, CloneRootSlot, CopySlot, RootCopy, StoreEntry, Takes, RootCost, EmptyTable;
    CloneRootKeeps(m, old2, new2, i);
    SameRoots(m, m1, new2);
    RootEntry(m1, old2, i);
    RootEntry(m1, new2, i);
    var e := Entry(m1.ram, old2, i);
    StoreKeepsFree(m1, new2, i, e);
    ClonePrefix(m, old2, new2, i + 1, PTE_CNT);
    if Deep(e) { CopySlotKeeps(m1, new2, i, e, Mid(new2, i)); }
  }

  lemma NewRoot(m: Mem, root: nat)
    requires Inv(m) && root in m.roots
    ensures m.free == [] ==> CloneSpace(m, root).None?
    ensures m.free != [] ==>
      var (m1, p) := AllocPage(m).value; var start := AddRoot(m1, p);
      && p == m.free[0] && Inv(start) && FreeOk(start) && start.ram == m1.ram && start.free == m1.free
      && root in start.roots && p in start.roots && root != p && EmptyTable(start.ram, p)
      && CloneRoot(start, root, p, 0) == Some(start)
      && (CloneRoot(start, root, p, PTE_CNT).None? ==> CloneSpace(m, root).None?)
      && (CloneRoot(start, root, p, PTE_CNT).Some? ==>
            CloneSpace(m, root) == Some((CloneRoot(start, root, p, PTE_CNT).value, p)))
  {
    if m.free == [] { return; }
    NewSpace(m, root);
    var (m1, p) := AllocPage(m).value;
    InvFree(AddRoot(m1, p));
    hide Inv, FreeOk, EmptyTable, Untouched, SameWalks, ZeroPage;
  }

  lemma ClonedIsValid(m: Mem, root: nat, p: nat)
    requires Inv(m) && root in m.roots && CloneSpace(m, root).Some? && CloneSpace(m, root).value.1 == p
    ensures var m' := CloneSpace(m, root).value.0; Inv(m') && root in m'.roots && p < PPN_LIMIT
  {
    hide Inv, CloneSpace, SameWalks, Untouched, WalkCopied, WalkAt;
    CloneIsFaithful(m, root);
    PpnBound(m, p);
  }

  lemma PpnBound(m: Mem, p: nat)
    requires Inv(m) && p in m.owner
    ensures p < PPN_LIMIT
  {
    hide TreeOk, Linked, Distinct;
  }

  lemma StorePrefix(m: Mem, root: nat, va: nat, bs: seq<Byte>, x: nat)
    requires Inv(m) && FreeOk(m) && UserRange(m, root, va, va + |bs|) && x <= |bs|
    ensures x == 0 ==> StoreBytes(m, root, va, bs[..x]) == m
    ensures x < |bs| ==>
      var m1 := StoreBytes(m, root, va, bs[..x]); var m2 := StoreByte(m1, root, va + x, bs[x]);
      && StoreBytes(m, root, va, bs[..x + 1]) == m2
      && Inv(m2) && FreeOk(m2) && m2.free == m.free && m2.roots == m.roots
      && m1.free == m.free
  {
    hide Inv, FreeOk, StoreByte, UserByte, Walk, ByteAt, SameWalks;
    StoreBytesKeeps(m, root, va, bs[..x]);
    if x < |bs| {
      assert bs[..x + 1][..x] == bs[..x];
      StoreBytesKeeps(m, root, va, bs[..x + 1]);
      InvFree(StoreBytes(m, root, va, bs[..x + 1]));
    }
  }

  lemma CopySlotInRam(m: Mem, table: nat, i: nat, e: Pte, role: Role)
    requires Inv(m) && Slot(m, table, i, role) && DeepEntry(e, role)
    ensures var m1 := StoreEntry(m, table, i, e);
      && FreeOk(m1) && m1.free == m.free && table in m.ram && i < PTE_CNT
      && m1.ram == m.ram[table := StorePte(m.ram[table], i, e)]
      && (m.free != [] ==>
            var (m2, p) := AllocPage(m1).value;
            var e' := if role.Data? then LeafPte(p, e.flags) else TablePte(p, e.flags);
            var copied := CopySlot(m, table, i, e, role).value;
            && copied.1 == p && copied.0.free == m2.free && table in m2.ram
            && copied.0.ram == m2.ram[table := StorePte(m2.ram[table], i, e')])
  {
    TablesInUse(m, table);
    FreeFrame(m, StoreEntry(m, table, i, e), table);
    if m.free != [] { NewPageFits(m, table, i, e, role); }
    hide Inv, Entry, FreeOk, LeafPte, TablePte, ZeroPage, StorePte;
  }

  lemma MappedIsValid(m: Mem, root: nat, va: nat, rwxug: Flags)
    requires Inv(m) && Mappable(m, root, va) && Wellformed(va)
    ensures MapPage(m, root, va, rwxug).Some? ==>
      var m' := MapPage(m, root, va, rwxug).value; Inv(m') && FreeOk(m') && m'.roots == m.roots
    ensures m.free == [] ==> MapPage(m, root, va, rwxug).None?
  {
    hide Inv, FreeOk, Mappable, MapsOnly, NoNewGlobals, Unreferenced;
    RemapKeeps(m, root, va, rwxug);
    if MapPage(m, root, va, rwxug).Some? { InvFree(MapPage(m, root, va, rwxug).value); }
  }

  lemma MapNoPages(m: Mem, root: nat, va: nat, rwxug: Flags)
    ensures MapRange(m, root, va, 0, rwxug) == Some(m) == SetRangeFlags(m, root, va, 0, rwxug)
  {
  }

  lemma MalformedPanics(m: Mem, root: nat, va: nat, rwxug: Flags)
    ensures !Wellformed(va) ==> MapPage(m, root, va, rwxug).None?
  {
  }

  /** No global entry is on the way to a wellformed page of the range, and the range does not wrap
      around; some of its pages may be mapped, and some addresses may not be wellformed. */
  ghost predicate RangeMayMap(m: Mem, root: nat, va: nat, n: nat) {
    && root in m.roots && PageVa(va, n) <= TWO_64
    && forall x: nat :: x < n && Wellformed(PageVa(va, x)) ==> Mappable(m, root, PageVa(va, x))
  }

  /** The pages mapped so far had wellformed addresses. */
  lemma {:induction false} MappedPrefix(m: Mem, root: nat, va: nat, x: nat, n: nat, rwxug: Flags)
    requires RangeMayMap(m, root, va, n) && x <= n && MapRange(m, root, va, x, rwxug).Some?
    ensures RangeMappable(m, root, va, x)
  {
    hide Wellformed, Mappable, MapPage, PageVa;
    if x > 0 {
      MappedPrefix(m, root, va, x - 1, n, rwxug);
      MalformedPanics(MapRange(m, root, va, x - 1, rwxug).value, root, PageVa(va, x - 1), rwxug);
    }
  }

  lemma MapNextPage(m: Mem, m1: Mem, root: nat, va: nat, x: nat, n: nat, rwxug: Flags)
    requires Inv(m) && RangeMayMap(m, root, va, n) && x < n && MapRange(m, root, va, x, rwxug) == Some(m1)
    ensures Wellformed(PageVa(va, x)) ==> Mappable(m1, root, PageVa(va, x))
    ensures MapRange(m, root, va, x + 1, rwxug) == MapPage(m1, root, PageVa(va, x), rwxug)
    ensures MapRange(m, root, va, x + 1, rwxug).None? ==> MapRange(m, root, va, n, rwxug).None?
  {
    hide Inv, MapPage, Mappable, PageVa, Wellformed, RolesButRange, GivenUp, NoNewGlobals, RangeTables, FreshlyMapped;
    hide WalksKeptOutside;
    MappedPrefix(m, root, va, x, n, rwxug);
    RemapRangeKeeps(m, root, va, x, rwxug);
    RangePrefix(m, root, va, x + 1, n, rwxug);
    if Wellformed(PageVa(va, x)) { StaysMappable(m, m1, root, va, x, PageVa(va, x)); }
  }

  lemma FlagNextPage(m: Mem, m1: Mem, root: nat, va: nat, x: nat, n: nat, rwxug: Flags)
    requires Inv(m) && RangeOfUserPages(m, root, va, n) && !rwxug.g && x < n
    requires SetRangeFlags(m, root, va, x, rwxug) == Some(m1)
    ensures Wellformed(PageVa(va, x)) && IsUser(Walk(m1.ram, root, PageVa(va, x)))
    ensures SetRangeFlags(m, root, va, x + 1, rwxug) == SetPageFlags(m1, root, PageVa(va, x), rwxug)
    ensures SetRangeFlags(m, root, va, x + 1, rwxug).Some? && Inv(SetRangeFlags(m, root, va, x + 1, rwxug).value)
  {
    hide Inv, SetPageFlags, Walk, RangeFlagged;
    SetRangeFlagsKeeps(m, root, va, x, rwxug);
    SetRangeFlagsKeeps(m, root, va, x + 1, rwxug);
    FlaggedInv(m, SetRangeFlags(m, root, va, x + 1, rwxug).value, root, va, x + 1, rwxug);
    LastPageUser(m, m1, root, va, x + 1, rwxug);
  }

  lemma FlaggedInv(m: Mem, m': Mem, root: nat, va: nat, n: nat, rwxug: Flags)
    requires RangeFlagged(m, m', root, va, n, rwxug)
    ensures Inv(m')
  {
  }

  /** In terms of memory, mapping ends with one store, into the table that walk_pt returns. */
  lemma MapInRam(m: Mem, root: nat, va: nat, rwxug: Flags)
    requires Inv(m) && Mappable(m, root, va) && Wellformed(va) && m.free != []
    ensures var (m1, p) := AllocPage(m).value;
      && p == m.free[0] && Inv(m1) && Mappable(m1, root, va)
      && (MapPage(m, root, va, rwxug).Some? <==> WalkPt(m1, root, va).Some?)
      && (WalkPt(m1, root, va).Some? ==>
            var (m2, l) := WalkPt(m1, root, va).value;
            var m' := MapPage(m, root, va, rwxug).value;
            && l in m2.ram && m'.free == m2.free
            && m'.ram == m2.ram[l := StorePte(m2.ram[l], Vpn0(va), LeafPte(p, rwxug))])
  {
    hide Inv, Entry, WalkPt, ZeroPage, StorePte, LeafPte, Extends, NoNewGlobals, SameWalks, EmptyTable;
    AllocKeeps(m);
    AllocKeepsMappable(m, root, va);
    var (m1, p) := AllocPage(m).value;
    WalkPtKeeps(m1, root, va);
    if WalkPt(m1, root, va).Some? {
      var (m2, l) := WalkPt(m1, root, va).value;
      TablesInUse(m2, l);
    }
  }

  /** Setting the flags is one store, into the table that walk_pt finds. */
  lemma FlagsStored(m: Mem, root: nat, va: nat, rwxug: Flags)
    requires Inv(m) && Mappable(m, root, va) && Wellformed(va) && LeafTableOf(m.ram, root, va).Some?
    ensures LeafTableOf(m.ram, root, va).value in m.ram
    ensures var m' := SetPageFlags(m, root, va, rwxug);
      m'.Some? && FreeOk(m'.value) && m'.value.free == m.free && m'.value.roots == m.roots
  {
    hide Inv, Entry, StorePte, FreeOk;
    VpnBounds(va);
    TablesFound(m, root, va);
    var l := LeafTableOf(m.ram, root, va).value;
    TablesInUse(m, l);
    InvFree(m);
    FreeFrame(m, SetPageFlags(m, root, va, rwxug).value, l);
  }

  lemma TablesAreThere(m: Mem, root: nat, va: nat)
    requires LeafTableOf(m.ram, root, va).Some?
    ensures TablesNeeded(m, root, va) == 0
  {
    hide Entry;
  }

  lemma UserIsMappable(m: Mem, root: nat, va: nat)
    requires root in m.roots && IsUser(Walk(m.ram, root, va))
    ensures Mappable(m, root, va)
  {
    hide Entry;
  }

  lemma RootSlotFits(m: Mem, root: nat, va: nat)
    requires Mappable(m, root, va)
    ensures SlotFor(m, root, Vpn2(va), Mid(root, Vpn2(va)))
    ensures Entry(m.ram, root, Vpn2(va)).flags.v ==> !Entry(m.ram, root, Vpn2(va)).flags.g
  {
  }

  lemma MidSlotFits(m: Mem, root: nat, va: nat)
    requires Inv(m) && Mappable(m, root, va)
    requires EnsureTable(m, root, Vpn2(va), Mid(root, Vpn2(va))).Some?
    ensures var (m1, t) := EnsureTable(m, root, Vpn2(va), Mid(root, Vpn2(va))).value;
      && Inv(m1) && SlotFor(m1, t, Vpn1(va), Leaf(t, Vpn1(va)))
      && (Entry(m1.ram, t, Vpn1(va)).flags.v ==> !Entry(m1.ram, t, Vpn1(va)).flags.g)
  {
    hide Inv, Entry, EnsureTable, WalkMid;
    EnsureTableKeeps(m, root, Vpn2(va), Mid(root, Vpn2(va)));
  }

  lemma HeadNotNull(m: Mem)
    requires FreeOk(m)
    ensures ListAddr(m.free, 0) == 0 <==> m.free == []
    ensures m.free != [] ==> m.free[0] in m.ram && ListAddr(m.free, 0) / PAGE_SIZE == m.free[0]
  {
    if m.free != [] { assert Owns(m, m.free[0], Free); }
  }

  lemma InvFree(m: Mem)
    requires Inv(m)
    ensures FreeOk(m)
  {
  }

  lemma InitFields(ram: Ram, lo: nat, hi: nat, mainRoot: nat, kernel: set<nat>)
    requires BootTables(ram, lo, hi, mainRoot, kernel)
    ensures 0 < lo < hi && forall p :: lo <= p < hi ==> p in ram
    ensures var m := InitState(ram, lo, hi, mainRoot, kernel);
      && Inv(m) && FreeOk(m) && m.ram == LinkedUpto(ram, lo, hi, hi)
      && ListAddr(m.free, 0) == lo * PAGE_SIZE && m.roots == {mainRoot}
  {
    InitKeeps(ram, lo, hi, mainRoot, kernel);
    InvFree(InitState(ram, lo, hi, mainRoot, kernel));
    hide Inv, FreeOk, LinkedUpto;
  }
}
