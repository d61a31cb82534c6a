/** Address translation, and the mapping of fresh pages (memory_alloc_and_map_page and _range). */
module Mapping {
  import opened Common
  import opened Bytes
  import opened Sv39
  import opened PageTables

  // --- virtual addresses ---

  const USER_START_VMA: nat := 0xC000_0000
  const USER_END_VMA: nat := 0xD000_0000

  /** PTE_R, PTE_W and PTE_U: what a segment is first mapped with, and a page after a fault. */
  const USER_RW := Flags(false, true, true, false, true, false, false, false)

  function Vpn2(va: nat): nat { va / 0x4000_0000 % PTE_CNT }

  function Vpn1(va: nat): nat { va / 0x20_0000 % PTE_CNT }

  function Vpn0(va: nat): nat { va / 0x1000 % PTE_CNT }

  /** Bits 63:38 are all 0 or all 1. */
  predicate Wellformed(va: nat) { va < 0x40_0000_0000 || TWO_64 - 0x40_0000_0000 <= va < TWO_64 }

  /** The wellformed addresses are the lowest and the highest 2^38. */
  lemma WellformedBits(va: nat)
    requires va < TWO_64
    ensures Wellformed(va) <==> va / 0x40_0000_0000 == 0 || va / 0x40_0000_0000 == 0x3FF_FFFF
  {
  }

  // --- the table walk of the manual ---

  datatype WalkResult = Unmapped | Found(level: nat, pte: Pte, global: bool)

  function WalkLeaf(ram: Ram, l: nat, global: bool, k: nat): WalkResult {
    var e := Entry(ram, l, k);
    if !e.flags.v then Unmapped else Found(0, e, global || e.flags.g)
  }

  function WalkMid(ram: Ram, t: nat, global: bool, j: nat, k: nat): WalkResult {
    var e := Entry(ram, t, j);
    if !e.flags.v then Unmapped
    else if !Pointer(e) then Found(1, e, global || e.flags.g)
    else WalkLeaf(ram, e.ppn, global || e.flags.g, k)
  }

  function WalkAt(ram: Ram, root: nat, i: nat, j: nat, k: nat): WalkResult {
    var e := Entry(ram, root, i);
    if !e.flags.v then Unmapped
    else if !Pointer(e) then Found(2, e, e.flags.g)
    else WalkMid(ram, e.ppn, e.flags.g, j, k)
  }

  function Walk(ram: Ram, root: nat, va: nat): WalkResult {
    WalkAt(ram, root, Vpn2(va), Vpn1(va), Vpn0(va))
  }

  /** Address translation, section 4.3.2: the 4 KB page that `va` is on, with its leaf's flags. */
  datatype Translation = Fault | Mapped(page: nat, flags: Flags, global: bool)

  function Translate(ram: Ram, root: nat, va: nat): Translation {
    if !Wellformed(va) then Fault else LeafTranslation(Walk(ram, root, va), va)
  }

  /** A leaf has R or X, and no leaf has W without R; a superpage must be aligned to its size. */
  function LeafTranslation(w: WalkResult, va: nat): Translation {
    if w.Unmapped? || Pointer(w.pte) || (w.pte.flags.w && !w.pte.flags.r) then Fault
    else if w.level == 0 then Mapped(w.pte.ppn, w.pte.flags, w.global)
    else if w.level == 1 then
      if w.pte.ppn % PTE_CNT != 0 then Fault else Mapped(w.pte.ppn + Vpn0(va), w.pte.flags, w.global)
    else if w.pte.ppn % (PTE_CNT * PTE_CNT) != 0 then Fault
    else Mapped(w.pte.ppn + Vpn1(va) * PTE_CNT + Vpn0(va), w.pte.flags, w.global)
  }

  function Pow512(level: nat): (p: nat)
    ensures p > 0
  {
    if level == 0 then 1 else 512 * Pow512(level - 1)
  }

  /** The algorithm of section 4.3.2, from step 2 on: table t of a level, after entries of which one
      was global or none. A leaf of a higher level takes the low parts of the page number from the
      address. */
  function Resolve(ram: Ram, t: nat, level: nat, va: nat, global: bool): Translation
    decreases level
  {
    var e := Entry(ram, t, va / PAGE_SIZE / Pow512(level) % 512);
    if !e.flags.v || (!e.flags.r && e.flags.w) then Fault
    else if e.flags.r || e.flags.x then
      if e.ppn % Pow512(level) != 0 then Fault
      else Mapped(e.ppn + va / PAGE_SIZE % Pow512(level), e.flags, global || e.flags.g)
    else if level == 0 then Fault
    else Resolve(ram, e.ppn, level - 1, va, global || e.flags.g)
  }

  lemma Levels(va: nat)
    ensures Pow512(0) == 1 && Pow512(1) == 512 && Pow512(2) == 0x4_0000
    ensures va / PAGE_SIZE / 0x4_0000 % 512 == Vpn2(va) && va / PAGE_SIZE / 512 % 512 == Vpn1(va)
    ensures va / PAGE_SIZE / 1 % 512 == Vpn0(va)
    ensures va / PAGE_SIZE % 1 == 0 && va / PAGE_SIZE % 512 == Vpn0(va)
    ensures va / PAGE_SIZE % 0x4_0000 == Vpn1(va) * 512 + Vpn0(va)
  {
    assert Pow512(1) == 512 * Pow512(0);
    assert Pow512(2) == 512 * Pow512(1);
    assert va / 0x20_0000 == va / PAGE_SIZE / 512;
    assert va / 0x4000_0000 == va / PAGE_SIZE / 0x4_0000;
    assert va / PAGE_SIZE % 0x4_0000 == va / PAGE_SIZE / 512 % 512 * 512 + va / PAGE_SIZE % 512;
  }

  /** Translation is that of the manual. */
  lemma TranslateIs(ram: Ram, root: nat, va: nat)
    ensures Translate(ram, root, va) == if Wellformed(va) then Resolve(ram, root, 2, va, false) else Fault
  {
    hide Entry, Wellformed, Vpn2, Vpn1, Vpn0, Pow512;
    Levels(va);
    var e2 := Entry(ram, root, Vpn2(va));
    var e1 := Entry(ram, e2.ppn, Vpn1(va));
    ResolveLeaf(ram, e1.ppn, va, e2.flags.g || e1.flags.g);
    ResolveMid(ram, e2.ppn, va, e2.flags.g);
  }

  lemma ResolveLeaf(ram: Ram, t: nat, va: nat, global: bool)
    ensures Resolve(ram, t, 0, va, global) == LeafTranslation(WalkLeaf(ram, t, global, Vpn0(va)), va)
  {
    hide Entry, Vpn2, Vpn1, Vpn0, Pow512;
    Levels(va);
  }

  lemma ResolveMid(ram: Ram, t: nat, va: nat, global: bool)
    ensures Resolve(ram, t, 1, va, global) == LeafTranslation(WalkMid(ram, t, global, Vpn1(va), Vpn0(va)), va)
  {
    hide Entry, Vpn2, Vpn1, Vpn0, Pow512;
    Levels(va);
    var e := Entry(ram, t, Vpn1(va));
    ResolveLeaf(ram, e.ppn, va, global || e.flags.g);
  }

  /** Every walk of every address space sees the same in both memories. */
  ghost predicate SameWalks(m: Mem, m': Mem) {
    forall r, i: nat, j: nat, k: nat :: r in m.roots && i < PTE_CNT && j < PTE_CNT && k < PTE_CNT ==>
      WalkAt(m'.ram, r, i, j, k) == WalkAt(m.ram, r, i, j, k)
  }

  predicate IsTable(m: Mem, t: nat) { t in m.roots || t in m.kernel || IsMid(m, t) || IsLeaf(m, t) }

  /** A walk reads its own level-2 table, and level-1, level-0 and kernel tables. */
  lemma WalkFrame(m: Mem, ram: Ram, r: nat, i: nat, j: nat, k: nat)
    requires TreeOk(m) && r in m.roots && i < PTE_CNT && j < PTE_CNT && k < PTE_CNT
    requires forall t, x :: IsTable(m, t) && (t in m.roots ==> t == r) ==> Entry(ram, t, x) == Entry(m.ram, t, x)
    ensures WalkAt(ram, r, i, j, k) == WalkAt(m.ram, r, i, j, k)
  {
    hide Entry;
    assert RootTableOk(m, r);
    var e2 := Entry(m.ram, r, i);
    assert UpperOk(m, e2, Mid(r, i));
    if e2.flags.v && Pointer(e2) {
      var t := e2.ppn;
      if e2.flags.g {
        assert KernelTableOk(m, t);
        assert StaysInKernel(m, Entry(m.ram, t, j));
      } else {
        assert RoleOk(m, t);
        assert UpperOk(m, Entry(m.ram, t, j), Leaf(t, j));
      }
      assert IsTable(m, t);
      var e1 := Entry(m.ram, t, j);
      if e1.flags.v && Pointer(e1) {
        assert IsTable(m, e1.ppn);
      }
    }
  }

  lemma AllocSameWalks(m: Mem)
    requires Inv(m) && m.free != []
    ensures SameWalks(m, AllocPage(m).value.0)
  {
    var (m', p) := AllocPage(m).value;
    assert Owns(m, p, Free) by { hide Linked, Distinct, TreeOk; }
    assert !IsTable(m, p);
    assert forall t, x :: t != p ==> Entry(m'.ram, t, x) == Entry(m.ram, t, x) by { hide LoadPte; }
    hide Entry, FreeOk;
    forall r, i: nat, j: nat, k: nat | r in m.roots && i < PTE_CNT && j < PTE_CNT && k < PTE_CNT
      ensures WalkAt(m'.ram, r, i, j, k) == WalkAt(m.ram, r, i, j, k)
    {
      WalkFrame(m, m'.ram, r, i, j, k);
    }
  }

  /** A new, empty table changes no translation. */
  lemma AttachTableWalk(m: Mem, t: nat, x: nat, e: Pte, role: Role, r: nat, i: nat, j: nat, k: nat)
    requires Inv(m) && x < PTE_CNT && !Entry(m.ram, t, x).flags.v
    requires CanAttach(m, t, x, e, role) && !IsLeaf(m, t) && t in m.ram
    requires r in m.roots && i < PTE_CNT && j < PTE_CNT && k < PTE_CNT
    ensures WalkAt(Attach(m, t, x, e, role).ram, r, i, j, k) == WalkAt(m.ram, r, i, j, k)
  {
    hide LoadPte, StorePte, FreeOk;
    EntriesAfterStore(m, t, x, e);
    hide Entry;
    assert e.ppn != t;
    assert RootTableOk(m, r);
    var e2 := Entry(m.ram, r, i);
    assert UpperOk(m, e2, Mid(r, i));
    if e2.flags.v && Pointer(e2) {
      if e2.flags.g {
        assert KernelTableOk(m, e2.ppn);
        assert StaysInKernel(m, Entry(m.ram, e2.ppn, j));
      } else {
        assert RoleOk(m, e2.ppn);
        assert UpperOk(m, Entry(m.ram, e2.ppn, j), Leaf(e2.ppn, j));
      }
    }
  }

  /** Writing a level-0 entry changes the translation of its own page of its own space only. */
  lemma StoreLeafWalk(m: Mem, l: nat, x: nat, e: Pte, l2: nat, i2: nat, l1: nat, i1: nat,
                      r: nat, i: nat, j: nat, k: nat)
    requires Inv(m) && x < PTE_CNT && e.flags.v && l in m.ram
    requires Owns(m, l, Leaf(l1, i1)) && Owns(m, l1, Mid(l2, i2))
    requires r in m.roots && i < PTE_CNT && j < PTE_CNT && k < PTE_CNT
    ensures WalkAt(StoreEntry(m, l, x, e).ram, r, i, j, k) ==
            if r == l2 && i == i2 && j == i1 && k == x then Found(0, e, e.flags.g)
            else WalkAt(m.ram, r, i, j, k)
  {
    hide LoadPte, StorePte, FreeOk;
    EntriesAfterStore(m, l, x, e);
    hide Entry;
    assert RoleOk(m, l);
    assert RoleOk(m, l1);
    assert RootTableOk(m, r);
    assert RootTableOk(m, l2);
    assert UpperOk(m, Entry(m.ram, l2, i2), Mid(l2, i2));
    assert UpperOk(m, Entry(m.ram, l1, i1), Leaf(l1, i1));
    var e2 := Entry(m.ram, r, i);
    assert UpperOk(m, e2, Mid(r, i));
    if e2.flags.v && Pointer(e2) {
      if e2.flags.g {
        assert KernelTableOk(m, e2.ppn);
        assert StaysInKernel(m, Entry(m.ram, e2.ppn, j));
      } else {
        assert RoleOk(m, e2.ppn);
        assert UpperOk(m, Entry(m.ram, e2.ppn, j), Leaf(e2.ppn, j));
      }
    }
  }

  // --- user pages: reached by no global entry ---

  predicate IsUser(w: WalkResult) { w.Found? && w.level == 0 && !w.global }

  /** The tables on the way to a user page, and the ledger entries that make the way unique. */
  lemma UserPath(m: Mem, r: nat, i: nat, j: nat, k: nat) returns (t: nat, l: nat)
    requires Inv(m) && r in m.roots && i < PTE_CNT && j < PTE_CNT && k < PTE_CNT
    requires IsUser(WalkAt(m.ram, r, i, j, k))
    ensures t == Entry(m.ram, r, i).ppn && l == Entry(m.ram, t, j).ppn
    ensures Owns(m, t, Mid(r, i)) && Owns(m, l, Leaf(t, j))
    ensures Owns(m, WalkAt(m.ram, r, i, j, k).pte.ppn, Data(l, k))
    ensures Entry(m.ram, l, k) == WalkAt(m.ram, r, i, j, k).pte
    ensures Entry(m.ram, l, k).flags.v && !Entry(m.ram, l, k).flags.g
    ensures Entry(m.ram, r, i).flags.v && Entry(m.ram, t, j).flags.v
  {
    hide Entry, FreeOk, KernelOk;
    t := Entry(m.ram, r, i).ppn;
    l := Entry(m.ram, t, j).ppn;
    assert RootTableOk(m, r);
    assert UpperOk(m, Entry(m.ram, r, i), Mid(r, i));
    assert RoleOk(m, t);
    assert UpperOk(m, Entry(m.ram, t, j), Leaf(t, j));
    assert RoleOk(m, l);
    assert LowerOk(m, Entry(m.ram, l, k), Data(l, k));
  }

  // --- walk_pt and memory_alloc_and_map_page ---

  /** No global entry lies on the way to the level-0 entry of `va`. */
  predicate Mappable(m: Mem, root: nat, va: nat) {
    var e2 := Entry(m.ram, root, Vpn2(va));
    var e1 := Entry(m.ram, e2.ppn, Vpn1(va));
    root in m.roots && (e2.flags.v ==> !e2.flags.g && (e1.flags.v ==> !e1.flags.g))
  }

  /** Nor is that entry in use. */
  predicate Vacant(m: Mem, root: nat, va: nat) {
    Mappable(m, root, va) && Walk(m.ram, root, va) == Unmapped
  }

  /** The part of m that mapping never touches: every page in use that is not a table of a space. */
  ghost predicate Extends(m: Mem, m': Mem) {
    && m'.ram.Keys == m.ram.Keys && m'.owner.Keys == m.owner.Keys
    && m'.roots == m.roots && m'.kernel == m.kernel
    && (forall p :: p in m.owner && m.owner[p] != Free ==> m'.owner[p] == m.owner[p])
    && (forall p :: p in m.ram && !Owns(m, p, Free) && p !in m.roots && !IsMid(m, p) && !IsLeaf(m, p) ==>
          m'.ram[p] == m.ram[p])
  }

  predicate UpperTable(m: Mem, t: nat) { t in m.roots || IsMid(m, t) }

  /** Every global entry of a level-2 or level-1 table was there before. */
  ghost predicate NoNewGlobals(m: Mem, m': Mem) {
    forall t, i :: UpperTable(m', t) && Entry(m'.ram, t, i).flags.v && Entry(m'.ram, t, i).flags.g ==>
      UpperTable(m, t) && Entry(m.ram, t, i) == Entry(m'.ram, t, i)
  }

  /** A zeroed page off the free list becomes the table that entry i of table t points to. */
  function CreateTable(m: Mem, t: nat, i: nat, role: Role): (Mem, nat)
    requires m.free != []
  {
    var (m1, p) := AllocPage(m).value;
    (Attach(m1, t, i, TablePte(p, NO_FLAGS), role), p)
  }

  /** One level of walk_pt with create = 1. */
  function EnsureTable(m: Mem, t: nat, i: nat, role: Role): Option<(Mem, nat)> {
    var e := Entry(m.ram, t, i);
    if e.flags.v then Some((m, e.ppn))
    else if m.free == [] then None
    else Some(CreateTable(m, t, i, role))
  }

  predicate SlotFor(m: Mem, t: nat, i: nat, role: Role) {
    i < PTE_CNT && ((t in m.roots && role == Mid(t, i)) || (IsMid(m, t) && role == Leaf(t, i)))
  }

  lemma TablesInUse(m: Mem, t: nat)
    requires Inv(m) && (t in m.roots || IsMid(m, t) || IsLeaf(m, t))
    ensures t in m.ram && t !in m.kernel && !Owns(m, t, Free) && !Owns(m, t, Held)
  {
    hide RoleOk, RootTableOk, KernelTableOk, Linked, Distinct;
  }

  /** After AllocPage, the new page can be attached as a table. */
  lemma NewTableFits(m: Mem, t: nat, i: nat, role: Role, flags: Flags)
    requires Inv(m) && m.free != [] && SlotFor(m, t, i, role) && !Entry(m.ram, t, i).flags.v
    requires !flags.g && !flags.r && !flags.w && !flags.x
    ensures var (m1, p) := AllocPage(m).value; var e := TablePte(p, flags);
      && Inv(m1) && t in m1.ram && t != p && Owns(m, p, Free) && !Entry(m1.ram, t, i).flags.v
      && CanAttach(m1, t, i, e, role) && e.ppn == p && !IsLeaf(m1, t) && SlotFor(m1, t, i, role)
  {
    hide LoadPte, Inv, EmptyTable, ZeroPage, TablePte;
    AllocKeeps(m);
    TablesInUse(m, t);
    var (m1, p) := AllocPage(m).value;
    PpnFits(m1, p);
    TablePteFlags(p, flags);
    if t in m.roots && t in m.owner { assert m.owner[t] == Root by { RootRole(m, t); } }
  }

  lemma TablePteFlags(p: nat, flags: Flags)
    ensures TablePte(p, flags).flags == flags.(v := true)
  {
  }

  lemma PpnFits(m: Mem, p: nat)
    requires Inv(m) && p in m.owner
    ensures p in m.ram
    ensures forall f :: LeafPte(p, f).ppn == p
    ensures forall f :: TablePte(p, f).ppn == p
  {
    hide TreeOk, Linked, Distinct;
  }

  lemma RootRole(m: Mem, r: nat)
    requires Inv(m) && r in m.roots
    ensures r in m.owner ==> m.owner[r] == Root
  {
    hide RoleOk, RootTableOk, KernelOk, FreeOk;
  }

  lemma CreateTableKeeps(m: Mem, t: nat, i: nat, role: Role)
    requires Inv(m) && m.free != [] && SlotFor(m, t, i, role) && !Entry(m.ram, t, i).flags.v
    ensures t in m.ram && Inv(CreateTable(m, t, i, role).0) && SameWalks(m, CreateTable(m, t, i, role).0)
  {
    NewTableFits(m, t, i, role, NO_FLAGS);
    AllocSameWalks(m);
    var (m1, p) := AllocPage(m).value;
    var e := TablePte(p, NO_FLAGS);
    AttachKeeps(m1, t, i, e, role);
    var m' := Attach(m1, t, i, e, role);
    hide Entry, Inv, AllocPage, CanAttach, Attach, WalkAt, TablePte;
    forall r, i2: nat, j: nat, k: nat | r in m.roots && i2 < PTE_CNT && j < PTE_CNT && k < PTE_CNT
      ensures WalkAt(m'.ram, r, i2, j, k) == WalkAt(m.ram, r, i2, j, k)
    {
      AttachTableWalk(m1, t, i, e, role, r, i2, j, k);
    }
  }

  /** Page p was free, table t is written, and p gets a role: nothing else changes. */
  lemma AttachedExtends(m: Mem, p: nat, t: nat, i: nat, e: Pte, role: Role)
    requires Inv(m) && m.free != [] && p == m.free[0] && e.ppn == p && i < PTE_CNT
    requires t in m.roots || IsMid(m, t) || IsLeaf(m, t)
    ensures Extends(m, Attach(AllocPage(m).value.0, t, i, e, role))
  {
    TablesInUse(m, t);
    AllocKeepsFree(m);
    hide StorePte, Inv, ZeroPage;
  }

  lemma CreateTableEntries(m: Mem, t: nat, i: nat, role: Role)
    requires Inv(m) && m.free != [] && SlotFor(m, t, i, role) && !Entry(m.ram, t, i).flags.v
    ensures var (m', p) := CreateTable(m, t, i, role);
      && p == m.free[0] && m'.free == m.free[1..] && Owns(m', p, role) && Extends(m, m')
      && EmptyTable(m'.ram, p) && NoNewGlobals(m, m')
  {
    hide LoadPte, StorePte, Inv, ZeroPage, Extends;
    NewTableFits(m, t, i, role, NO_FLAGS);
    var (m1, p) := AllocPage(m).value;
    var e := TablePte(p, NO_FLAGS);
    AttachedExtends(m, p, t, i, e, role);
    EntriesAfterStore(m1, t, i, e);
    AllocNoNewGlobals(m);
    hide Entry;
  }

  lemma AllocNoNewGlobals(m: Mem)
    requires Inv(m) && m.free != []
    ensures NoNewGlobals(m, AllocPage(m).value.0)
  {
    AllocKeepsFree(m);
    assert m.free[0] !in m.roots by { hide RootTableOk, RoleOk, KernelOk, Linked, Distinct; }
    hide Inv, LoadPte, ZeroPage;
  }

  lemma NoNewGlobalsTrans(m: Mem, m1: Mem, m2: Mem)
    requires NoNewGlobals(m, m1) && NoNewGlobals(m1, m2)
    ensures NoNewGlobals(m, m2)
  {
  }

  lemma EnsureTableKeeps(m: Mem, t: nat, i: nat, role: Role)
    requires Inv(m) && SlotFor(m, t, i, role)
    requires Entry(m.ram, t, i).flags.v ==> !Entry(m.ram, t, i).flags.g
    ensures EnsureTable(m, t, i, role).Some? <==> Entry(m.ram, t, i).flags.v || m.free != []
    ensures EnsureTable(m, t, i, role).Some? ==>
      var (m', p) := EnsureTable(m, t, i, role).value;
      && Inv(m') && Owns(m', p, role) && SameWalks(m, m') && Extends(m, m') && NoNewGlobals(m, m')
      && if Entry(m.ram, t, i).flags.v then m' == m && p == Entry(m.ram, t, i).ppn
         else m'.free == m.free[1..] && EmptyTable(m'.ram, p)
  {
    if Entry(m.ram, t, i).flags.v {
      if t in m.roots { assert RootTableOk(m, t); } else { assert RoleOk(m, t); }
      assert UpperOk(m, Entry(m.ram, t, i), role) by { hide Entry; }
    } else if m.free != [] {
      CreateTableKeeps(m, t, i, role);
      CreateTableEntries(m, t, i, role);
    }
    hide Inv, Entry, CreateTable;
  }

  lemma ExtendsTrans(m: Mem, m1: Mem, m2: Mem)
    requires Extends(m, m1) && Extends(m1, m2)
    ensures Extends(m, m2)
  {
  }

  /** walk_pt with create = 1: the level-0 table for `va`, or none where the kernel panics. */
  function WalkPt(m: Mem, root: nat, va: nat): Option<(Mem, nat)> {
    var mid := EnsureTable(m, root, Vpn2(va), Mid(root, Vpn2(va)));
    if mid.None? then None
    else
      var t := mid.value.1;
      EnsureTable(mid.value.0, t, Vpn1(va), Leaf(t, Vpn1(va)))
  }

  function TablesNeeded(m: Mem, root: nat, va: nat): nat {
    var e := Entry(m.ram, root, Vpn2(va));
    if !e.flags.v then 2 else if !Entry(m.ram, e.ppn, Vpn1(va)).flags.v then 1 else 0
  }

  /** Level-0 table l serves `va` in the space of `root`. */
  predicate Serves(m: Mem, root: nat, va: nat, l: nat) {
    IsLeaf(m, l) && var t := m.owner[l].parent;
    Owns(m, l, Leaf(t, Vpn1(va))) && Owns(m, t, Mid(root, Vpn2(va)))
  }

  lemma ServesWalk(m: Mem, root: nat, va: nat, l: nat)
    requires Inv(m) && Serves(m, root, va, l)
    ensures root in m.roots && Walk(m.ram, root, va) == WalkLeaf(m.ram, l, false, Vpn0(va))
  {
    var t := m.owner[l].parent;
    assert RoleOk(m, l);
    assert RoleOk(m, t);
    assert RootTableOk(m, root);
    hide Entry;
    assert UpperOk(m, Entry(m.ram, root, Vpn2(va)), Mid(root, Vpn2(va)));
    assert UpperOk(m, Entry(m.ram, t, Vpn1(va)), Leaf(t, Vpn1(va)));
  }

  lemma WalkPtKeeps(m: Mem, root: nat, va: nat)
    requires Inv(m) && Mappable(m, root, va)
    ensures WalkPt(m, root, va).Some? <==> |m.free| >= TablesNeeded(m, root, va)
    ensures WalkPt(m, root, va).Some? ==>
      var (m', l) := WalkPt(m, root, va).value;
      && Inv(m') && SameWalks(m, m') && Extends(m, m') && NoNewGlobals(m, m')
      && Serves(m', root, va, l)
      && WalkLeaf(m'.ram, l, false, Vpn0(va)) == Walk(m.ram, root, va)
      && m'.free == m.free[TablesNeeded(m, root, va)..]
  {
    hide Inv, Entry, EnsureTable, WalkMid;
    var i, j := Vpn2(va), Vpn1(va);
    EnsureTableKeeps(m, root, i, Mid(root, i));
    var mid := EnsureTable(m, root, i, Mid(root, i));
    if mid.Some? {
      var (m1, t) := mid.value;
      assert Entry(m1.ram, t, j).flags.v ==> !Entry(m1.ram, t, j).flags.g;
      EnsureTableKeeps(m1, t, j, Leaf(t, j));
      var leaf := EnsureTable(m1, t, j, Leaf(t, j));
      if leaf.Some? {
        var (m', l) := leaf.value;
        ServesWalk(m', root, va, l);
        ExtendsTrans(m, m1, m');
        NoNewGlobalsTrans(m, m1, m');
      }
    }
  }

  /** Roles when entry k of level-0 table l is overwritten: a user page that it referred to is then
      referred to by no table. */
  function Released(m: Mem, l: nat, k: nat): map<nat, Role> {
    var e := Entry(m.ram, l, k);
    if e.flags.v && !e.flags.g then m.owner[e.ppn := Held] else m.owner
  }

  /** Store a level-0 entry that refers to page e.ppn, over what is there. */
  function Overwrite(m: Mem, l: nat, k: nat, e: Pte, role: Role): Mem {
    Mem(StoreEntry(m, l, k, e).ram, Released(m, l, k)[e.ppn := role], m.free, m.roots, m.kernel)
  }

  /** memory_alloc_and_map_page: the page is allocated first, then the tables on the way to it. None
      is a panic: the address is not wellformed, or a page is missing. */
  function MapPage(m: Mem, root: nat, va: nat, rwxug: Flags): Option<Mem> {
    if !Wellformed(va) || m.free == [] then None
    else
      var (m1, p) := AllocPage(m).value;
      var walked := WalkPt(m1, root, va);
      if walked.None? then None
      else
        var (m2, l) := walked.value;
        Some(Overwrite(m2, l, Vpn0(va), LeafPte(p, rwxug), if rwxug.g then Shared else Data(l, Vpn0(va))))
  }

  lemma AllocKeepsMappable(m: Mem, root: nat, va: nat)
    requires Inv(m) && m.free != [] && Mappable(m, root, va)
    ensures Mappable(AllocPage(m).value.0, root, va)
    ensures TablesNeeded(AllocPage(m).value.0, root, va) == TablesNeeded(m, root, va)
  {
    AllocKeepsFree(m);
    var p := m.free[0];
    TablesInUse(m, root);
    assert RootTableOk(m, root);
    hide FreeOk, LoadPte, WalkAt, ZeroPage;
    var e2 := Entry(m.ram, root, Vpn2(va));
    assert UpperOk(m, e2, Mid(root, Vpn2(va)));
  }

  lemma SlotHolds(m: Mem, l: nat, k: nat)
    requires Inv(m) && IsLeaf(m, l) && k < PTE_CNT
    ensures LowerOk(m, Entry(m.ram, l, k), Data(l, k))
  {
    hide Entry, FreeOk, RootsOk, KernelOk, LowerOk;
    assert RoleOk(m, l);
  }

  lemma OverwriteLeaf(m: Mem, l: nat, k: nat, e: Pte, role: Role, q: nat)
    requires Inv(m) && IsLeaf(m, l) && l in m.ram && k < PTE_CNT && CanAttach(m, l, k, e, role) && IsLeaf(m, q)
    ensures LeafTableOk(Overwrite(m, l, k, e, role), q)
  {
    hide LoadPte, StorePte, Inv, LowerOk;
    var m' := Overwrite(m, l, k, e, role);
    EntriesAfterStore(m, l, k, e);
    SlotHolds(m, l, k);
    hide Entry;
    forall x | 0 <= x < PTE_CNT ensures LowerOk(m', Entry(m'.ram, q, x), Data(q, x)) {
      SlotHolds(m, q, x);
      LowerStays(m, m', l, k, e, role, q, x);
    }
  }

  lemma LowerStays(m: Mem, m': Mem, l: nat, k: nat, e: Pte, role: Role, q: nat, x: nat)
    requires LowerOk(m, Entry(m.ram, l, k), Data(l, k)) && LowerOk(m, Entry(m.ram, q, x), Data(q, x))
    requires IsLeaf(m, l) && CanAttach(m, l, k, e, role)
    requires m'.owner == Released(m, l, k)[e.ppn := role]
    requires Entry(m'.ram, q, x) == if q == l && x == k then e else Entry(m.ram, q, x)
    ensures LowerOk(m', Entry(m'.ram, q, x), Data(q, x))
  {
    hide Entry;
  }

  lemma OverwriteMid(m: Mem, l: nat, k: nat, e: Pte, role: Role, q: nat)
    requires Inv(m) && IsLeaf(m, l) && l in m.ram && k < PTE_CNT && CanAttach(m, l, k, e, role) && IsMid(m, q)
    ensures MidTableOk(Overwrite(m, l, k, e, role), q)
  {
    hide LoadPte, StorePte, FreeOk, RootsOk, KernelOk, LowerOk;
    EntriesAfterStore(m, l, k, e);
    SlotHolds(m, l, k);
    hide Entry;
    assert RoleOk(m, q);
    SlotOwns(m, l, k);
  }

  lemma SlotOwns(m: Mem, l: nat, k: nat)
    requires LowerOk(m, Entry(m.ram, l, k), Data(l, k))
    ensures var e := Entry(m.ram, l, k); e.flags.v && !e.flags.g ==> Owns(m, e.ppn, Data(l, k))
  {
  }

  lemma OverwriteRole(m: Mem, l: nat, k: nat, e: Pte, role: Role, q: nat)
    requires Inv(m) && IsLeaf(m, l) && l in m.ram && k < PTE_CNT && CanAttach(m, l, k, e, role) && q in m.owner
    ensures RoleOk(Overwrite(m, l, k, e, role), q)
  {
    hide LoadPte, StorePte, FreeOk, RootsOk, KernelOk, LeafTableOk, MidTableOk, LowerOk;
    EntriesAfterStore(m, l, k, e);
    hide Entry;
    assert RoleOk(m, q);
    SlotHolds(m, l, k);
    SlotOwns(m, l, k);
    if IsLeaf(m, q) { OverwriteLeaf(m, l, k, e, role, q); }
    if IsMid(m, q) { OverwriteMid(m, l, k, e, role, q); }
  }

  lemma OverwriteTables(m: Mem, l: nat, k: nat, e: Pte, role: Role)
    requires Inv(m) && IsLeaf(m, l) && l in m.ram && k < PTE_CNT && CanAttach(m, l, k, e, role)
    ensures RootsOk(Overwrite(m, l, k, e, role)) && KernelOk(Overwrite(m, l, k, e, role))
  {
    hide LoadPte, StorePte, FreeOk;
    var m' := Overwrite(m, l, k, e, role);
    EntriesAfterStore(m, l, k, e);
    hide Entry;
    SlotHolds(m, l, k);
    forall r | r in m'.roots ensures RootTableOk(m', r) {
      assert RootTableOk(m, r);
    }
    forall t | t in m'.kernel ensures KernelTableOk(m', t) {
      assert KernelTableOk(m, t);
    }
  }

  /** Overwriting a level-0 entry keeps the invariant. */
  lemma OverwriteKeeps(m: Mem, l: nat, k: nat, e: Pte, role: Role)
    requires Inv(m) && IsLeaf(m, l) && k < PTE_CNT && CanAttach(m, l, k, e, role)
    ensures l in m.ram && Inv(Overwrite(m, l, k, e, role))
  {
    hide Entry, StorePte, RootsOk, KernelOk, RoleOk;
    TablesInUse(m, l);
    SlotHolds(m, l, k);
    var m' := Overwrite(m, l, k, e, role);
    FreeFrame(m, m', l);
    OverwriteTables(m, l, k, e, role);
    forall q | q in m'.owner ensures RoleOk(m', q) {
      OverwriteRole(m, l, k, e, role, q);
    }
  }

  /** The walk of `va` finds the entry `e` in m'; every other walk is as before. */
  ghost predicate MapsOnly(m: Mem, m': Mem, root: nat, va: nat, e: Pte) {
    forall r, i: nat, j: nat, k: nat :: r in m.roots && i < PTE_CNT && j < PTE_CNT && k < PTE_CNT ==>
      WalkAt(m'.ram, r, i, j, k) ==
      if r == root && i == Vpn2(va) && j == Vpn1(va) && k == Vpn0(va) then Found(0, e, e.flags.g)
      else WalkAt(m.ram, r, i, j, k)
  }

  lemma LeafFits(m: Mem, l: nat, k: nat, p: nat, rwxug: Flags)
    requires Inv(m) && IsLeaf(m, l) && Owns(m, p, Held)
    ensures CanAttach(m, l, k, LeafPte(p, rwxug), if rwxug.g then Shared else Data(l, k))
    ensures l in m.ram && p != l
  {
    PpnFits(m, p);
    TablesInUse(m, l);
    hide Inv, EmptyTable;
  }

  /** Page p holds the contents of mapped memory. */
  predicate IsData(m: Mem, p: nat) {
    p in m.ram && p in m.owner && (m.owner[p].Data? || m.owner[p].Shared?)
  }

  lemma AllocExtends(m: Mem)
    requires Inv(m) && m.free != []
    ensures Extends(m, AllocPage(m).value.0)
  {
    AllocKeepsFree(m);
    hide TreeOk, Linked, Distinct, ZeroPage;
  }

  /** The state just before memory_alloc_and_map_page stores the level-0 entry. */
  lemma BeforeMapping(m: Mem, root: nat, va: nat)
    requires Inv(m) && m.free != [] && Mappable(m, root, va)
    ensures var (m1, p) := AllocPage(m).value;
      && p == m.free[0] && Owns(m, p, Free)
      && (WalkPt(m1, root, va).Some? <==> |m.free| >= 1 + TablesNeeded(m, root, va))
      && (WalkPt(m1, root, va).Some? ==>
            var (m2, l) := WalkPt(m1, root, va).value;
            && Inv(m2) && SameWalks(m, m2) && Extends(m, m2) && NoNewGlobals(m, m2)
            && Serves(m2, root, va, l)
            && WalkLeaf(m2.ram, l, false, Vpn0(va)) == Walk(m.ram, root, va)
            && Owns(m2, p, Held) && p in m2.ram && m2.ram[p] == ZeroPage()
            && m2.free == m.free[1 + TablesNeeded(m, root, va)..])
  {
    hide Inv, Entry, WalkPt, WalkAt, ZeroPage, EmptyTable, WalkLeaf;
    AllocKeeps(m);
    AllocSameWalks(m);
    AllocExtends(m);
    AllocNoNewGlobals(m);
    AllocKeepsMappable(m, root, va);
    var (m1, p) := AllocPage(m).value;
    HeldIsData(m1, p);
    VpnBounds(va);
    WalkPtKeeps(m1, root, va);
    if WalkPt(m1, root, va).Some? {
      ExtendsTrans(m, m1, WalkPt(m1, root, va).value.0);
      NoNewGlobalsTrans(m, m1, WalkPt(m1, root, va).value.0);
    }
  }

  lemma VpnBounds(va: nat)
    ensures Vpn2(va) < PTE_CNT && Vpn1(va) < PTE_CNT && Vpn0(va) < PTE_CNT
  {
  }

  lemma HeldIsData(m: Mem, p: nat)
    requires Inv(m) && Owns(m, p, Held)
    ensures p !in m.roots && p in m.ram
  {
    hide RootTableOk, RoleOk, KernelOk, Linked, Distinct;
  }

  // --- mapping over what was mapped before ---

  /** As Extends, but page q, which held mapped memory, is given up. */
  ghost predicate ExtendsBut(m: Mem, m': Mem, q: nat) {
    && m'.ram.Keys == m.ram.Keys && m'.owner.Keys == m.owner.Keys
    && m'.roots == m.roots && m'.kernel == m.kernel
    && (forall p :: p in m.owner && m.owner[p] != Free && p != q ==> m'.owner[p] == m.owner[p])
    && (forall p :: p in m.ram && !Owns(m, p, Free) && p !in m.roots && !IsMid(m, p) && !IsLeaf(m, p) ==>
          m'.ram[p] == m.ram[p])
    && q in m.owner && m.owner[q].Data? && Owns(m', q, Held)
  }

  /** No table of any space refers to page q. */
  ghost predicate Unreferenced(m: Mem, q: nat) {
    forall t, i: nat :: t in m.roots || IsMid(m, t) || IsLeaf(m, t) ==> !RefersTo(m, t, i, q)
  }

  lemma HeldIsUnreferenced(m: Mem, q: nat)
    requires Inv(m) && Owns(m, q, Held)
    ensures Unreferenced(m, q)
  {
    hide Entry, FreeOk, KernelOk;
    forall t, i: nat | t in m.roots || IsMid(m, t) || IsLeaf(m, t) ensures !RefersTo(m, t, i, q) {
      if i < PTE_CNT {
        if t in m.roots {
          assert RootTableOk(m, t) && UpperOk(m, Entry(m.ram, t, i), Mid(t, i));
        } else {
          assert RoleOk(m, t);
          if IsMid(m, t) { assert UpperOk(m, Entry(m.ram, t, i), Leaf(t, i)); }
          else { assert LowerOk(m, Entry(m.ram, t, i), Data(t, i)); }
        }
      }
    }
  }

  /** The last step of mapping, when walk_pt has returned the table l. */
  lemma StoreMapped(m2: Mem, l: nat, k: nat, p: nat, rwxug: Flags)
    requires Inv(m2) && IsLeaf(m2, l) && k < PTE_CNT && Owns(m2, p, Held)
    ensures var role := if rwxug.g then Shared else Data(l, k);
      && l in m2.ram && p in m2.ram && p != l && LeafPte(p, rwxug).ppn == p && LeafPte(p, rwxug).flags.v
      && Inv(Overwrite(m2, l, k, LeafPte(p, rwxug), role))
  {
    hide Entry, Overwrite, StorePte, Inv, LowerOk, EmptyTable;
    var role := if rwxug.g then Shared else Data(l, k);
    PpnFits(m2, p);
    LeafFits(m2, l, k, p, rwxug);
    OverwriteKeeps(m2, l, k, LeafPte(p, rwxug), role);
  }

  /** What becomes of the pages: a user page mapped before is given up, and nothing else changes. */
  lemma StoredExtends(m: Mem, m2: Mem, l: nat, k: nat, e: Pte, role: Role)
    requires Inv(m2) && Extends(m, m2) && Owns(m, e.ppn, Free) && IsLeaf(m2, l) && k < PTE_CNT && l in m2.ram
    requires role != Free && Owns(m2, e.ppn, Held)
    ensures var before, m' := Entry(m2.ram, l, k), Overwrite(m2, l, k, e, role);
      if before.flags.v && !before.flags.g then Owns(m, before.ppn, Data(l, k)) ==> ExtendsBut(m, m', before.ppn)
      else Extends(m, m')
  {
    hide StorePte, Inv, Entry;
    SlotHolds(m2, l, k);
  }

  lemma StoredNoNewGlobals(m: Mem, m2: Mem, l: nat, k: nat, e: Pte, role: Role)
    requires Inv(m2) && NoNewGlobals(m, m2) && IsLeaf(m2, l) && l in m2.ram && k < PTE_CNT
    requires role.Data? || role.Shared?
    ensures NoNewGlobals(m, Overwrite(m2, l, k, e, role))
  {
    hide Inv, LoadPte, StorePte, Entry;
    EntriesAfterStore(m2, l, k, e);
    SlotHolds(m2, l, k);
    if l in m2.roots { RootRole(m2, l); }
  }

  lemma MapsOnlyAfterStore(m: Mem, m2: Mem, ram: Ram, root: nat, va: nat, l: nat, e: Pte)
    requires Inv(m2) && SameWalks(m, m2) && m2.roots == m.roots && Serves(m2, root, va, l)
    requires l in m2.ram && e.flags.v && ram == StoreEntry(m2, l, Vpn0(va), e).ram
    ensures forall r, i: nat, j: nat, k: nat :: r in m.roots && i < PTE_CNT && j < PTE_CNT && k < PTE_CNT ==>
      WalkAt(ram, r, i, j, k) ==
      if r == root && i == Vpn2(va) && j == Vpn1(va) && k == Vpn0(va) then Found(0, e, e.flags.g)
      else WalkAt(m.ram, r, i, j, k)
  {
    hide Inv, Entry, WalkAt, StorePte;
    var t := m2.owner[l].parent;
    forall r, i: nat, j: nat, k: nat | r in m.roots && i < PTE_CNT && j < PTE_CNT && k < PTE_CNT
      ensures WalkAt(ram, r, i, j, k) ==
        if r == root && i == Vpn2(va) && j == Vpn1(va) && k == Vpn0(va) then Found(0, e, e.flags.g)
        else WalkAt(m.ram, r, i, j, k)
    {
      StoreLeafWalk(m2, l, Vpn0(va), e, root, Vpn2(va), t, Vpn1(va), r, i, j, k);
    }
  }

  /** The new page is mapped, whatever was mapped there before: a user page then belongs to nobody
      but whoever holds its address, and keeps its contents. */
  lemma RemapKeeps(m: Mem, root: nat, va: nat, rwxug: Flags)
    requires Inv(m) && Mappable(m, root, va) && Wellformed(va)
    ensures MapPage(m, root, va, rwxug).Some? <==> |m.free| >= 1 + TablesNeeded(m, root, va)
    ensures MapPage(m, root, va, rwxug).Some? ==>
      var m' := MapPage(m, root, va, rwxug).value;
      var p := m.free[0];
      var w := Walk(m.ram, root, va);
      && Inv(m') && NoNewGlobals(m, m') && MapsOnly(m, m', root, va, LeafPte(p, rwxug))
      && LeafPte(p, rwxug).ppn == p && Owns(m, p, Free) && IsData(m', p) && m'.ram[p] == ZeroPage()
      && m'.free == m.free[1 + TablesNeeded(m, root, va)..]
      && if IsUser(w) then ExtendsBut(m, m', w.pte.ppn) && Unreferenced(m', w.pte.ppn) else Extends(m, m')
  {
    if m.free == [] { return; }
    hide Inv, Entry, WalkPt, LeafPte, WalkAt, ZeroPage, SameWalks, MapsOnly, NoNewGlobals, AllocPage;
    hide Overwrite, Extends, TablesNeeded, ExtendsBut, Unreferenced, WalkLeaf, Serves, Mappable;
    BeforeMapping(m, root, va);
    var (m1, p) := AllocPage(m).value;
    var walked := WalkPt(m1, root, va);
    if walked.None? { return; }
    var (m2, l) := walked.value;
    StoreLast(m, m2, root, va, l, p, rwxug);
  }

  lemma StoreLast(m: Mem, m2: Mem, root: nat, va: nat, l: nat, p: nat, rwxug: Flags)
    requires Inv(m) && root in m.roots && Inv(m2) && SameWalks(m, m2) && Extends(m, m2) && NoNewGlobals(m, m2)
    requires Serves(m2, root, va, l) && WalkLeaf(m2.ram, l, false, Vpn0(va)) == Walk(m.ram, root, va)
    requires Owns(m, p, Free) && Owns(m2, p, Held) && p in m2.ram && m2.ram[p] == ZeroPage()
    ensures
      var role := if rwxug.g then Shared else Data(l, Vpn0(va));
      var m' := Overwrite(m2, l, Vpn0(va), LeafPte(p, rwxug), role);
      var w := Walk(m.ram, root, va);
      && Inv(m') && NoNewGlobals(m, m') && MapsOnly(m, m', root, va, LeafPte(p, rwxug))
      && LeafPte(p, rwxug).ppn == p && IsData(m', p) && m'.ram[p] == ZeroPage() && m'.free == m2.free
      && if IsUser(w) then ExtendsBut(m, m', w.pte.ppn) && Unreferenced(m', w.pte.ppn) else Extends(m, m')
  {
    hide Inv, Entry, LeafPte, WalkAt, ZeroPage, SameWalks, NoNewGlobals, Extends, ExtendsBut, Unreferenced, StorePte;
    var k := Vpn0(va);
    var role := if rwxug.g then Shared else Data(l, k);
    VpnBounds(va);
    StoreMapped(m2, l, k, p, rwxug);
    var m' := Overwrite(m2, l, k, LeafPte(p, rwxug), role);
    ExtendsRoots(m, m2);
    MapsOnlyAfterStore(m, m2, m'.ram, root, va, l, LeafPte(p, rwxug));
    StoredNoNewGlobals(m, m2, l, k, LeafPte(p, rwxug), role);
    StoredExtends(m, m2, l, k, LeafPte(p, rwxug), role);
    var w := Walk(m.ram, root, va);
    if IsUser(w) {
      var t, l0 := UserPath(m, root, Vpn2(va), Vpn1(va), k);
      SameLeafTable(m, m2, root, va, l0, t, l);
      HeldIsUnreferenced(m', w.pte.ppn) by { ButHeld(m, m', w.pte.ppn); }
    }
  }

  lemma ButHeld(m: Mem, m': Mem, q: nat)
    requires ExtendsBut(m, m', q)
    ensures Owns(m', q, Held)
  {
  }

  /** walk_pt returns the level-0 table that the walk went through before. */
  lemma SameLeafTable(m: Mem, m2: Mem, root: nat, va: nat, l0: nat, t: nat, l: nat)
    requires Inv(m2) && Extends(m, m2) && Serves(m2, root, va, l)
    requires Owns(m, t, Mid(root, Vpn2(va))) && Owns(m, l0, Leaf(t, Vpn1(va)))
    ensures l0 == l
  {
    hide Entry, FreeOk, RootTableOk, MidTableOk, LeafTableOk, RootsOk, KernelOk;
    assert RoleOk(m2, l) && RoleOk(m2, l0) && RoleOk(m2, t) && RoleOk(m2, m2.owner[l].parent);
  }

  /** In particular, where nothing was mapped: nothing else changes. */
  lemma MapPageKeeps(m: Mem, root: nat, va: nat, rwxug: Flags)
    requires Inv(m) && Vacant(m, root, va) && Wellformed(va)
    ensures MapPage(m, root, va, rwxug).Some? <==> |m.free| >= 1 + TablesNeeded(m, root, va)
    ensures MapPage(m, root, va, rwxug).Some? ==>
      var m' := MapPage(m, root, va, rwxug).value;
      var p := m.free[0];
      && Inv(m') && Extends(m, m') && NoNewGlobals(m, m') && MapsOnly(m, m', root, va, LeafPte(p, rwxug))
      && LeafPte(p, rwxug).ppn == p && Owns(m, p, Free) && IsData(m', p) && m'.ram[p] == ZeroPage()
      && m'.free == m.free[1 + TablesNeeded(m, root, va)..]
  {
    hide Inv, Entry, MapPage, LeafPte, WalkAt, ZeroPage, MapsOnly, NoNewGlobals, Extends, TablesNeeded;
    RemapKeeps(m, root, va, rwxug);
  }

  lemma ExtendsRoots(m: Mem, m': Mem)
    requires Extends(m, m')
    ensures m'.roots == m.roots
  {
  }
}
