/** Mapping ranges (memory_alloc_and_map_range), changing flags (memory_set_range_flags) and the
    bytes that a program sees at its virtual addresses. */
module Ranges {
  import opened Common
  import opened Sv39
  import opened PageTables
  import opened Mapping
  import opened TableGrowth

  // --- virtual pages ---

  lemma VpnSplit(va: nat)
    ensures va == va / 0x80_0000_0000 * 0x80_0000_0000 + Vpn2(va) * 0x4000_0000 + Vpn1(va) * 0x20_0000
                  + Vpn0(va) * 0x1000 + va % PAGE_SIZE
  {
    assert va / 0x20_0000 == va / 0x1000 / 512;
    assert va / 0x4000_0000 == va / 0x20_0000 / 512;
    assert va / 0x80_0000_0000 == va / 0x4000_0000 / 512;
  }

  predicate SamePage(va: nat, va': nat) {
    Vpn2(va) == Vpn2(va') && Vpn1(va) == Vpn1(va') && Vpn0(va) == Vpn0(va')
  }

  /** Wellformed addresses are on the same page exactly when they agree above bit 11. */
  lemma PageOf(va: nat, va': nat)
    requires Wellformed(va) && Wellformed(va')
    ensures SamePage(va, va') <==> va / PAGE_SIZE == va' / PAGE_SIZE
  {
    VpnSplit(va);
    VpnSplit(va');
    var top, top' := va / 0x80_0000_0000, va' / 0x80_0000_0000;
    assert top == 0 || top == 0x1FF_FFFF;
    assert top' == 0 || top' == 0x1FF_FFFF;
  }

  function PageVa(va: nat, x: nat): nat { va + x * PAGE_SIZE }

  // --- memory_alloc_and_map_range ---

  function MapRange(m: Mem, root: nat, va: nat, n: nat, rwxug: Flags): Option<Mem> {
    if n == 0 then Some(m)
    else
      var prev := MapRange(m, root, va, n - 1, rwxug);
      if prev.None? then None else MapPage(prev.value, root, PageVa(va, n - 1), rwxug)
  }

  ghost predicate RangeVacant(m: Mem, root: nat, va: nat, n: nat) {
    forall x: nat :: x < n ==> Wellformed(PageVa(va, x)) && Vacant(m, root, PageVa(va, x))
  }

  /** The physical page that `va` is on, when it is mapped. */
  function PageAt(ram: Ram, root: nat, va: nat): nat {
    var w := Walk(ram, root, va);
    if w.Found? then w.pte.ppn else 0
  }

  /** `va` is mapped with exactly the given flags to a zeroed page that was free in m. */
  ghost predicate FreshlyMapped(m: Mem, m': Mem, root: nat, va: nat, rwxug: Flags) {
    var p := PageAt(m'.ram, root, va);
    && Walk(m'.ram, root, va) == Found(0, LeafPte(p, rwxug), rwxug.g)
    && Owns(m, p, Free) && IsData(m', p) && m'.ram[p] == ZeroPage()
  }

  predicate OutsideRange(va: nat, n: nat, i: nat, j: nat, k: nat) {
    forall x: nat | x < n :: !(i == Vpn2(PageVa(va, x)) && j == Vpn1(PageVa(va, x)) && k == Vpn0(PageVa(va, x)))
  }

  ghost predicate WalksKeptOutside(m: Mem, m': Mem, root: nat, va: nat, n: nat) {
    forall r, i: nat, j: nat, k: nat ::
      r in m.roots && i < PTE_CNT && j < PTE_CNT && k < PTE_CNT && (r == root ==> OutsideRange(va, n, i, j, k)) ==>
        WalkAt(m'.ram, r, i, j, k) == WalkAt(m.ram, r, i, j, k)
  }

  ghost predicate RangeMapped(m: Mem, m': Mem, root: nat, va: nat, n: nat, rwxug: Flags) {
    && Inv(m') && Extends(m, m') && NoNewGlobals(m, m')
    && (forall x: nat :: x < n ==> FreshlyMapped(m, m', root, PageVa(va, x), rwxug))
    && (forall x: nat, y: nat :: x < y < n ==>
          PageAt(m'.ram, root, PageVa(va, x)) != PageAt(m'.ram, root, PageVa(va, y)))
    && WalksKeptOutside(m, m', root, va, n)
  }

  /** Pages in use keep their roles. */
  ghost predicate KeepsRoles(m: Mem, m': Mem) {
    && m'.ram.Keys == m.ram.Keys && m'.owner.Keys == m.owner.Keys
    && m'.roots == m.roots && m'.kernel == m.kernel
    && forall p :: p in m.owner && m.owner[p] != Free ==> m'.owner[p] == m.owner[p]
  }

  lemma ExtendsRoles(m: Mem, m': Mem)
    requires Extends(m, m')
    ensures KeepsRoles(m, m')
  {
  }

  lemma DataKept(m: Mem, m': Mem, p: nat)
    requires Inv(m) && IsData(m, p) && Extends(m, m')
    ensures IsData(m', p) && m'.ram[p] == m.ram[p]
  {
    hide RootTableOk, RoleOk, KernelOk, FreeOk;
  }

  lemma OwnPageOnly(va: nat, n: nat, x: nat)
    requires x < n && forall y: nat :: y < n ==> Wellformed(PageVa(va, y))
    ensures OutsideRange(va, x, Vpn2(PageVa(va, x)), Vpn1(PageVa(va, x)), Vpn0(PageVa(va, x)))
    ensures forall y: nat :: y < n && y != x ==> !SamePage(PageVa(va, x), PageVa(va, y))
  {
    forall y: nat | y < n && y != x ensures !SamePage(PageVa(va, x), PageVa(va, y)) {
      PageOf(PageVa(va, x), PageVa(va, y));
    }
  }

  lemma MapNothing(m: Mem)
    ensures Extends(m, m) && NoNewGlobals(m, m)
  {
  }

  // --- whatever was mapped in the range before ---

  /** Every page of the range can be mapped: its address is wellformed, and no global entry is on
      the way to it. */
  ghost predicate RangeMappable(m: Mem, root: nat, va: nat, n: nat) {
    root in m.roots && forall x: nat :: x < n ==> Wellformed(PageVa(va, x)) && Mappable(m, root, PageVa(va, x))
  }

  /** The user page at page x of the range, in m, is p. */
  predicate WasMapped(m: Mem, root: nat, va: nat, x: nat, p: nat) {
    IsUser(Walk(m.ram, root, PageVa(va, x))) && PageAt(m.ram, root, PageVa(va, x)) == p
  }

  /** Pages in use keep their roles, except user pages that were mapped in the range: those may now
      be held by nobody but whoever knows their address. */
  ghost predicate RolesButRange(m: Mem, m': Mem, root: nat, va: nat, n: nat) {
    && m'.ram.Keys == m.ram.Keys && m'.owner.Keys == m.owner.Keys
    && m'.roots == m.roots && m'.kernel == m.kernel
    && forall p :: p in m.owner && m.owner[p] != Free ==>
         m'.owner[p] == m.owner[p] || (Owns(m', p, Held) && exists x: nat :: x < n && WasMapped(m, root, va, x, p))
  }

  /** The user pages that were mapped in the range are given up. */
  ghost predicate GivenUp(m: Mem, m': Mem, root: nat, va: nat, n: nat) {
    forall x: nat, p :: x < n && WasMapped(m, root, va, x, p) ==> Owns(m', p, Held)
  }

  /** As Extends, but the user pages that were mapped in the range are given up. */
  ghost predicate ExtendsButRange(m: Mem, m': Mem, root: nat, va: nat, n: nat) {
    && RolesButRange(m, m', root, va, n) && GivenUp(m, m', root, va, n)
    && (forall p :: p in m.ram && !Owns(m, p, Free) && p !in m.roots && !IsMid(m, p) && !IsLeaf(m, p) ==>
          m'.ram[p] == m.ram[p])
  }

  /** The tables that mapping the range has to create. */
  datatype TableKey = MidKey(i: nat) | LeafKey(i: nat, j: nat)

  function MissingMids(m: Mem, root: nat, va: nat, n: nat): set<TableKey> {
    set x: nat | x < n && !HasMid(m, root, Vpn2(PageVa(va, x))) :: MidKey(Vpn2(PageVa(va, x)))
  }

  function MissingLeaves(m: Mem, root: nat, va: nat, n: nat): set<TableKey> {
    set x: nat | x < n && !HasLeaf(m, root, Vpn2(PageVa(va, x)), Vpn1(PageVa(va, x))) ::
      LeafKey(Vpn2(PageVa(va, x)), Vpn1(PageVa(va, x)))
  }

  /** One free page for each page of the range and one for each missing table. */
  function RangeCost(m: Mem, root: nat, va: nat, n: nat): nat {
    n + |MissingMids(m, root, va, n)| + |MissingLeaves(m, root, va, n)|
  }

  /** The tables of m1 are those of m and those that the first n pages needed. */
  ghost predicate RangeTables(m: Mem, m1: Mem, root: nat, va: nat, n: nat) {
    && (forall i: nat :: i < PTE_CNT ==>
          (HasMid(m1, root, i) <==> HasMid(m, root, i) || exists x: nat :: x < n && Vpn2(PageVa(va, x)) == i))
    && (forall i: nat, j: nat :: i < PTE_CNT && j < PTE_CNT ==>
          (HasLeaf(m1, root, i, j) <==>
           HasLeaf(m, root, i, j) || exists x: nat :: x < n && Vpn2(PageVa(va, x)) == i && Vpn1(PageVa(va, x)) == j))
  }

  lemma MissingNext(m: Mem, root: nat, va: nat, n: nat)
    requires n > 0
    ensures var a := PageVa(va, n - 1);
      && MissingMids(m, root, va, n) ==
           MissingMids(m, root, va, n - 1) + (if HasMid(m, root, Vpn2(a)) then {} else {MidKey(Vpn2(a))})
      && MissingLeaves(m, root, va, n) ==
           MissingLeaves(m, root, va, n - 1) +
             (if HasLeaf(m, root, Vpn2(a), Vpn1(a)) then {} else {LeafKey(Vpn2(a), Vpn1(a))})
  {
    hide HasMid, HasLeaf, Vpn2, Vpn1, PageVa;
  }

  /** The n-th page needs the tables that neither m has nor an earlier page needed. */
  lemma CostNext(m: Mem, m1: Mem, root: nat, va: nat, n: nat)
    requires n > 0 && RangeTables(m, m1, root, va, n - 1)
    requires Mappable(m1, root, PageVa(va, n - 1))
    ensures RangeCost(m, root, va, n) == RangeCost(m, root, va, n - 1) + 1 + TablesNeeded(m1, root, PageVa(va, n - 1))
  {
    hide Vpn2, Vpn1, PageVa, Entry;
    var a := PageVa(va, n - 1);
    VpnBounds(a);
    MissingNext(m, root, va, n);
    assert HasMid(m1, root, Vpn2(a)) <==> HasMid(m, root, Vpn2(a)) || MidKey(Vpn2(a)) in MissingMids(m, root, va, n - 1);
    assert HasLeaf(m1, root, Vpn2(a), Vpn1(a)) <==>
           HasLeaf(m, root, Vpn2(a), Vpn1(a)) || LeafKey(Vpn2(a), Vpn1(a)) in MissingLeaves(m, root, va, n - 1);
  }

  lemma TablesNext(m: Mem, m1: Mem, m2: Mem, root: nat, va: nat, n: nat)
    requires n > 0 && RangeTables(m, m1, root, va, n - 1) && TablesAdded(m1, m2, root, PageVa(va, n - 1))
    ensures RangeTables(m, m2, root, va, n)
  {
    hide Vpn2, Vpn1, PageVa, HasMid, HasLeaf;
  }

  ghost predicate RangeRemapped(m: Mem, m': Mem, root: nat, va: nat, n: nat, rwxug: Flags) {
    && Inv(m') && ExtendsButRange(m, m', root, va, n) && NoNewGlobals(m, m') && RangeTables(m, m', root, va, n)
    && (forall x: nat :: x < n ==> FreshlyMapped(m, m', root, PageVa(va, x), rwxug))
    && (forall x: nat, y: nat :: x < y < n ==>
          PageAt(m'.ram, root, PageVa(va, x)) != PageAt(m'.ram, root, PageVa(va, y)))
    && WalksKeptOutside(m, m', root, va, n)
  }

  lemma RangeStarts(m: Mem, root: nat, va: nat, rwxug: Flags)
    requires Inv(m) && root in m.roots
    ensures RangeRemapped(m, m, root, va, 0, rwxug) && RangeCost(m, root, va, 0) == 0
  {
    hide Inv, HasMid, HasLeaf, Entry, WalkAt;
    assert MissingMids(m, root, va, 0) == {} && MissingLeaves(m, root, va, 0) == {};
    MapNothing(m);
  }

  /** Mapping other pages puts no global entry on the way. */
  lemma StaysMappable(m: Mem, m1: Mem, root: nat, va: nat, n: nat, a: nat)
    requires Inv(m) && Inv(m1) && Mappable(m, root, a)
    requires RolesButRange(m, m1, root, va, n) && NoNewGlobals(m, m1)
    ensures Mappable(m1, root, a)
  {
    hide FreeOk, Entry, WasMapped, RootTableOk;
    VpnBounds(a);
    var e2 := Entry(m1.ram, root, Vpn2(a));
    assert UpperTable(m1, root);
    if e2.flags.v {
      assert !e2.flags.g;
      MidOfRoot(m1, root, Vpn2(a));
      var e1 := Entry(m1.ram, e2.ppn, Vpn1(a));
      if e1.flags.v && e1.flags.g { SameMid(m, m1, root, Vpn2(a), e2.ppn); }
    }
  }

  /** A level-1 table that was one before is in the same place. */
  lemma SameMid(m: Mem, m1: Mem, root: nat, i: nat, t: nat)
    requires Inv(m) && IsMid(m, t) && Owns(m1, t, Mid(root, i)) && i < PTE_CNT
    requires m1.owner[t] == m.owner[t]
    ensures Entry(m.ram, root, i).flags.v && !Entry(m.ram, root, i).flags.g && Entry(m.ram, root, i).ppn == t
  {
    hide FreeOk, Entry, RootsOk, KernelOk, MidTableOk;
    assert RoleOk(m, t);
  }

  /** What the mapping of the last page of the range finds. */
  lemma BeforeLast(m: Mem, m1: Mem, root: nat, va: nat, n: nat, rwxug: Flags)
    requires n > 0 && Inv(m) && RangeMappable(m, root, va, n) && RangeRemapped(m, m1, root, va, n - 1, rwxug)
    ensures var last := PageVa(va, n - 1);
      && Wellformed(last) && Mappable(m1, root, last) && root in m1.roots
      && Walk(m1.ram, root, last) == Walk(m.ram, root, last)
      && forall x: nat :: x < n - 1 ==> !SamePage(last, PageVa(va, x))
  {
    hide Inv, Entry, WalkAt, Vpn2, Vpn1, Vpn0, RolesButRange, GivenUp, NoNewGlobals, FreshlyMapped, Mappable, RangeTables;
    var last := PageVa(va, n - 1);
    assert Mappable(m, root, last);
    OwnPageOnly(va, n, n - 1);
    VpnBounds(last);
    StaysMappable(m, m1, root, va, n - 1, last);
    RangeRoots(m, m1, root, va, n - 1);
  }

  lemma RangeRoots(m: Mem, m1: Mem, root: nat, va: nat, n: nat)
    requires RolesButRange(m, m1, root, va, n)
    ensures m1.roots == m.roots && m1.owner.Keys == m.owner.Keys
    ensures forall p :: p in m.owner && m.owner[p] != Free ==> m1.owner[p] != Free
  {
    hide WasMapped;
  }

  /** One more page: what becomes of the pages in use. */
  lemma ExtendsNext(m: Mem, m1: Mem, m2: Mem, root: nat, va: nat, n: nat)
    requires n > 0 && Inv(m1) && ExtendsButRange(m, m1, root, va, n - 1)
    requires var w := Walk(m.ram, root, PageVa(va, n - 1));
             if IsUser(w) then ExtendsBut(m1, m2, w.pte.ppn) else Extends(m1, m2)
    ensures ExtendsButRange(m, m2, root, va, n)
  {
    hide Inv, Walk, PageVa;
    RangeRoots(m, m1, root, va, n - 1);
    var w := Walk(m.ram, root, PageVa(va, n - 1));
    assert IsUser(w) ==> WasMapped(m, root, va, n - 1, w.pte.ppn);
    forall p | p in m.owner && m.owner[p] != Free
      ensures m2.owner[p] == m.owner[p] || exists x: nat :: x < n && WasMapped(m, root, va, x, p)
    {
      if m2.owner[p] == m1.owner[p] && m1.owner[p] != m.owner[p] {
        var x: nat :| x < n - 1 && WasMapped(m, root, va, x, p);
        assert x < n;
      }
    }
    forall x: nat, p | x < n && WasMapped(m, root, va, x, p) ensures Owns(m2, p, Held) {
      if x < n - 1 { assert Owns(m1, p, Held); }
    }
  }

  /** The pages mapped so far stay mapped. */
  lemma FreshStays(m: Mem, m1: Mem, m2: Mem, root: nat, va: nat, n: nat, rwxug: Flags, x: nat, e: Pte)
    requires x < n - 1 && Inv(m) && Inv(m1) && root in m.roots && m1.roots == m.roots
    requires FreshlyMapped(m, m1, root, PageVa(va, x), rwxug)
    requires MapsOnly(m1, m2, root, PageVa(va, n - 1), e) && !SamePage(PageVa(va, n - 1), PageVa(va, x))
    requires var w := Walk(m.ram, root, PageVa(va, n - 1));
             if IsUser(w) then ExtendsBut(m1, m2, w.pte.ppn) else Extends(m1, m2)
    ensures FreshlyMapped(m, m2, root, PageVa(va, x), rwxug)
    ensures PageAt(m2.ram, root, PageVa(va, x)) == PageAt(m1.ram, root, PageVa(va, x))
  {
    hide Inv, WalkAt, PageVa, Vpn2, Vpn1, Vpn0, LeafPte, ZeroPage;
    VpnBounds(PageVa(va, x));
    VpnBounds(PageVa(va, n - 1));
    var w := Walk(m.ram, root, PageVa(va, n - 1));
    if IsUser(w) {
      var a := PageVa(va, n - 1);
      var _, _ := UserPath(m, root, Vpn2(a), Vpn1(a), Vpn0(a));
    }
    DataIsNoTable(m1, PageAt(m1.ram, root, PageVa(va, x)));
  }

  lemma DataIsNoTable(m: Mem, p: nat)
    requires Inv(m) && IsData(m, p)
    ensures p !in m.roots && !IsMid(m, p) && !IsLeaf(m, p)
  {
    hide RootTableOk, RoleOk, KernelOk, FreeOk;
  }

  lemma FreshLast(m: Mem, m1: Mem, m2: Mem, root: nat, va: nat, n: nat, rwxug: Flags)
    requires n > 0 && ExtendsButRange(m, m1, root, va, n - 1) && root in m1.roots && m1.free != []
    requires var p := m1.free[0];
             && MapsOnly(m1, m2, root, PageVa(va, n - 1), LeafPte(p, rwxug)) && LeafPte(p, rwxug).ppn == p
             && Owns(m1, p, Free) && IsData(m2, p) && m2.ram[p] == ZeroPage()
    ensures FreshlyMapped(m, m2, root, PageVa(va, n - 1), rwxug)
    ensures PageAt(m2.ram, root, PageVa(va, n - 1)) == m1.free[0]
  {
    hide WalkAt, PageVa, Vpn2, Vpn1, Vpn0, LeafPte, ZeroPage;
    VpnBounds(PageVa(va, n - 1));
    RangeRoots(m, m1, root, va, n - 1);
    LeafIsGlobal(m1.free[0], rwxug);
  }

  lemma WalksKeptNext(m: Mem, m1: Mem, m2: Mem, root: nat, va: nat, n: nat, e: Pte)
    requires n > 0 && WalksKeptOutside(m, m1, root, va, n - 1) && m1.roots == m.roots
    requires MapsOnly(m1, m2, root, PageVa(va, n - 1), e)
    ensures WalksKeptOutside(m, m2, root, va, n)
  {
    hide WalkAt, PageVa, Vpn2, Vpn1, Vpn0;
  }

  lemma LastRemap(m: Mem, m1: Mem, root: nat, va: nat, n: nat, rwxug: Flags)
    requires n > 0 && Inv(m) && RangeMappable(m, root, va, n) && RangeRemapped(m, m1, root, va, n - 1, rwxug)
    requires MapPage(m1, root, PageVa(va, n - 1), rwxug).Some?
    ensures RangeRemapped(m, MapPage(m1, root, PageVa(va, n - 1), rwxug).value, root, va, n, rwxug)
  {
    hide Inv, Entry, WalkAt, LeafPte, ZeroPage, Vpn2, Vpn1, Vpn0, NoNewGlobals, MapPage, Mappable, PageVa;
    hide RolesButRange, GivenUp, RangeTables, FreshlyMapped, WalksKeptOutside, MapsOnly, ExtendsBut;
    hide Extends, Unreferenced, SamePage;
    var last := PageVa(va, n - 1);
    BeforeLast(m, m1, root, va, n, rwxug);
    RemapKeeps(m1, root, last, rwxug);
    MapPageTables(m1, root, last, rwxug);
    var m2 := MapPage(m1, root, last, rwxug).value;
    RangeRoots(m, m1, root, va, n - 1);
    NoNewGlobalsTrans(m, m1, m2);
    ExtendsNext(m, m1, m2, root, va, n);
    TablesNext(m, m1, m2, root, va, n);
    FreshLast(m, m1, m2, root, va, n, rwxug);
    WalksKeptNext(m, m1, m2, root, va, n, LeafPte(m1.free[0], rwxug));
    forall x: nat | x < n - 1
      ensures FreshlyMapped(m, m2, root, PageVa(va, x), rwxug)
      ensures PageAt(m2.ram, root, PageVa(va, x)) == PageAt(m1.ram, root, PageVa(va, x)) != m1.free[0]
    {
      FreshStays(m, m1, m2, root, va, n, rwxug, x, LeafPte(m1.free[0], rwxug));
      FreshInUse(m, m1, root, PageVa(va, x), rwxug);
    }
  }

  lemma FreshInUse(m: Mem, m1: Mem, root: nat, a: nat, rwxug: Flags)
    requires FreshlyMapped(m, m1, root, a, rwxug)
    ensures !Owns(m1, PageAt(m1.ram, root, a), Free)
  {
    hide WalkAt;
  }

  /** Mapping a range, whatever was mapped there: it succeeds if and only if there is a free page for
      each page and each missing table, and takes exactly those; every page of the range is then a
      fresh one, and the user pages mapped there before are given up. */
  lemma {:induction false} RemapRangeKeeps(m: Mem, root: nat, va: nat, n: nat, rwxug: Flags)
    requires Inv(m) && RangeMappable(m, root, va, n)
    ensures MapRange(m, root, va, n, rwxug).Some? <==> |m.free| >= RangeCost(m, root, va, n)
    ensures MapRange(m, root, va, n, rwxug).Some? ==>
      var m' := MapRange(m, root, va, n, rwxug).value;
      RangeRemapped(m, m', root, va, n, rwxug) && m'.free == m.free[RangeCost(m, root, va, n)..]
  {
    hide Inv, Entry, WalkAt, Mappable, LeafPte, ZeroPage, Vpn2, Vpn1, Vpn0, NoNewGlobals, MapPage, RangeRemapped;
    hide RangeCost, TablesNeeded, PageVa;
    if n == 0 {
      RangeStarts(m, root, va, rwxug);
      return;
    }
    RemapRangeKeeps(m, root, va, n - 1, rwxug);
    var prev := MapRange(m, root, va, n - 1, rwxug);
    if prev.None? {
      CostGrows(m, root, va, n);
      return;
    }
    var m1 := prev.value;
    var last := PageVa(va, n - 1);
    BeforeLast(m, m1, root, va, n, rwxug);
    RemapNext(m, m1, root, va, n, rwxug);
    if MapPage(m1, root, last, rwxug).Some? { LastRemap(m, m1, root, va, n, rwxug); }
  }

  lemma CostGrows(m: Mem, root: nat, va: nat, n: nat)
    requires n > 0
    ensures RangeCost(m, root, va, n - 1) <= RangeCost(m, root, va, n)
  {
    hide MissingMids, MissingLeaves;
    var a := PageVa(va, n - 1);
    MissingNext(m, root, va, n);
    OneMoreKey(MissingMids(m, root, va, n - 1), MidKey(Vpn2(a)));
    OneMoreKey(MissingLeaves(m, root, va, n - 1), LeafKey(Vpn2(a), Vpn1(a)));
  }

  lemma OneMoreKey(keys: set<TableKey>, key: TableKey)
    ensures |keys| <= |keys + {key}| <= |keys| + 1 && keys + {} == keys
  {
    assert key in keys ==> keys + {key} == keys;
  }

  lemma RemapNext(m: Mem, m1: Mem, root: nat, va: nat, n: nat, rwxug: Flags)
    requires n > 0 && RangeRemapped(m, m1, root, va, n - 1, rwxug) && Mappable(m1, root, PageVa(va, n - 1))
    requires Wellformed(PageVa(va, n - 1))
    requires |m.free| >= RangeCost(m, root, va, n - 1) && m1.free == m.free[RangeCost(m, root, va, n - 1)..]
    ensures var m2 := MapPage(m1, root, PageVa(va, n - 1), rwxug);
      && (m2.Some? <==> |m.free| >= RangeCost(m, root, va, n))
      && (m2.Some? ==> m2.value.free == m.free[RangeCost(m, root, va, n)..])
  {
    hide Inv, Entry, WalkAt, Mappable, LeafPte, ZeroPage, Vpn2, Vpn1, Vpn0, NoNewGlobals, MapPage;
    hide RangeCost, TablesNeeded, PageVa, RangeTables, ExtendsButRange, WalksKeptOutside;
    CostNext(m, m1, root, va, n);
    RemapKeeps(m1, root, PageVa(va, n - 1), rwxug);
  }

  // --- a range where nothing was mapped ---

  lemma VacantIsMappable(m: Mem, root: nat, va: nat, n: nat)
    requires RangeVacant(m, root, va, n) && root in m.roots
    ensures RangeMappable(m, root, va, n) && forall x: nat, p :: x < n ==> !WasMapped(m, root, va, x, p)
  {
    hide Wellformed, Entry, WalkAt;
  }

  lemma NothingGivenUp(m: Mem, m': Mem, root: nat, va: nat, n: nat)
    requires ExtendsButRange(m, m', root, va, n) && forall x: nat, p :: x < n ==> !WasMapped(m, root, va, x, p)
    ensures Extends(m, m')
  {
    hide WasMapped;
  }

  lemma {:induction false} CostBound(m: Mem, root: nat, va: nat, n: nat)
    ensures RangeCost(m, root, va, n) <= 3 * n
  {
    hide HasMid, HasLeaf;
    if n == 0 {
      assert MissingMids(m, root, va, 0) == {} && MissingLeaves(m, root, va, 0) == {};
    } else {
      var a := PageVa(va, n - 1);
      CostBound(m, root, va, n - 1);
      MissingNext(m, root, va, n);
      OneMoreKey(MissingMids(m, root, va, n - 1), MidKey(Vpn2(a)));
      OneMoreKey(MissingLeaves(m, root, va, n - 1), LeafKey(Vpn2(a), Vpn1(a)));
    }
  }

  /** Then nothing else changes at all. */
  lemma MapRangeKeeps(m: Mem, root: nat, va: nat, n: nat, rwxug: Flags)
    requires Inv(m) && root in m.roots && RangeVacant(m, root, va, n)
    ensures MapRange(m, root, va, n, rwxug).Some? <==> |m.free| >= RangeCost(m, root, va, n)
    ensures RangeCost(m, root, va, n) <= 3 * n
    ensures MapRange(m, root, va, n, rwxug).Some? ==>
      var m' := MapRange(m, root, va, n, rwxug).value;
      RangeMapped(m, m', root, va, n, rwxug) && m'.free == m.free[RangeCost(m, root, va, n)..]
  {
    hide Inv, MapRange, RangeVacant, RangeMappable, FreshlyMapped, WalksKeptOutside, NoNewGlobals, ExtendsButRange;
    hide RangeCost, WasMapped, Extends, RangeTables;
    VacantIsMappable(m, root, va, n);
    RemapRangeKeeps(m, root, va, n, rwxug);
    CostBound(m, root, va, n);
    if MapRange(m, root, va, n, rwxug).Some? {
      NothingGivenUp(m, MapRange(m, root, va, n, rwxug).value, root, va, n);
    }
  }

  lemma LeafIsGlobal(p: nat, rwxug: Flags)
    ensures LeafPte(p, rwxug).flags.g == rwxug.g
  {
  }

  // --- user pages ---

  /** No two user pages, of one space or of two, share a physical page. */
  lemma UserPagesDistinct(m: Mem, r: nat, i: nat, j: nat, k: nat, r': nat, i': nat, j': nat, k': nat)
    requires Inv(m) && r in m.roots && i < PTE_CNT && j < PTE_CNT && k < PTE_CNT
    requires r' in m.roots && i' < PTE_CNT && j' < PTE_CNT && k' < PTE_CNT
    requires IsUser(WalkAt(m.ram, r, i, j, k)) && IsUser(WalkAt(m.ram, r', i', j', k'))
    requires WalkAt(m.ram, r, i, j, k).pte.ppn == WalkAt(m.ram, r', i', j', k').pte.ppn
    ensures r == r' && i == i' && j == j' && k == k'
  {
    hide Inv, Entry, WalkAt;
    var _, _ := UserPath(m, r, i, j, k);
    var _, _ := UserPath(m, r', i', j', k');
  }

  // --- memory_set_page_flags and memory_set_range_flags ---

  /** walk_pt with create = 0 finds the entry whose flags are replaced; none where the kernel panics. */
  function SetPageFlags(m: Mem, root: nat, va: nat, rwxug: Flags): Option<Mem> {
    var e2 := Entry(m.ram, root, Vpn2(va));
    var e1 := Entry(m.ram, e2.ppn, Vpn1(va));
    if !Wellformed(va) || !e2.flags.v || !e1.flags.v then None
    else
      var e0 := Entry(m.ram, e1.ppn, Vpn0(va));
      Some(StoreEntry(m, e1.ppn, Vpn0(va), RawPte.Pte(LeafFlags(rwxug), e0.rsw, e0.ppn, e0.attr)))
  }

  function SetRangeFlags(m: Mem, root: nat, va: nat, n: nat, rwxug: Flags): Option<Mem> {
    if n == 0 then Some(m)
    else
      var prev := SetRangeFlags(m, root, va, n - 1, rwxug);
      if prev.None? then None else SetPageFlags(prev.value, root, PageVa(va, n - 1), rwxug)
  }

  lemma ReplacedRole(m: Mem, l: nat, k: nat, e: Pte, q: nat)
    requires Inv(m) && IsLeaf(m, l) && l in m.ram && k < PTE_CNT && RefersTo(m, l, k, e.ppn)
    requires e.flags.v && !e.flags.g && e.flags.a && e.flags.d && q in m.owner
    ensures RoleOk(StoreEntry(m, l, k, e), q)
  {
    hide LoadPte, StorePte, FreeOk, RootsOk, KernelOk;
    EntriesAfterStore(m, l, k, e);
    hide Entry;
    assert RoleOk(m, q) && RoleOk(m, l);
  }

  /** Replacing a user page's entry by one that refers to the same page. */
  lemma ReplaceKeeps(m: Mem, l: nat, k: nat, e: Pte)
    requires Inv(m) && IsLeaf(m, l) && k < PTE_CNT && RefersTo(m, l, k, e.ppn)
    requires e.flags.v && !e.flags.g && e.flags.a && e.flags.d
    ensures Inv(StoreEntry(m, l, k, e)) && Extends(m, StoreEntry(m, l, k, e))
    ensures NoNewGlobals(m, StoreEntry(m, l, k, e))
  {
    hide LoadPte, StorePte;
    TablesInUse(m, l);
    var m' := StoreEntry(m, l, k, e);
    EntriesAfterStore(m, l, k, e);
    FreeFrame(m, m', l);
    hide FreeOk, Entry, RoleOk;
    forall r | r in m'.roots ensures RootTableOk(m', r) {
      assert RootTableOk(m, r);
    }
    forall t | t in m'.kernel ensures KernelTableOk(m', t) {
      assert KernelTableOk(m, t);
    }
    forall q | q in m'.owner ensures RoleOk(m', q) {
      ReplacedRole(m, l, k, e, q);
    }
  }

  /** The flags of a user page become the given ones plus A, D and V; its page and every other
      walk stay. */
  lemma SetPageFlagsKeeps(m: Mem, root: nat, va: nat, rwxug: Flags)
    requires Inv(m) && root in m.roots && Wellformed(va) && IsUser(Walk(m.ram, root, va)) && !rwxug.g
    ensures SetPageFlags(m, root, va, rwxug).Some?
    ensures var m' := SetPageFlags(m, root, va, rwxug).value;
      && Inv(m') && Extends(m, m') && NoNewGlobals(m, m') && m'.owner == m.owner && m'.free == m.free
      && IsUser(Walk(m'.ram, root, va)) && Walk(m'.ram, root, va).pte.flags == LeafFlags(rwxug)
      && MapsOnly(m, m', root, va, Walk(m'.ram, root, va).pte)
      && PageAt(m'.ram, root, va) == PageAt(m.ram, root, va)
  {
    hide Inv, Entry, WalkAt, Vpn2, Vpn1, Vpn0, Extends, NoNewGlobals, StorePte;
    VpnBounds(va);
    var t, l := UserPath(m, root, Vpn2(va), Vpn1(va), Vpn0(va));
    var e0 := Entry(m.ram, l, Vpn0(va));
    var e: Pte := RawPte.Pte(LeafFlags(rwxug), e0.rsw, e0.ppn, e0.attr);
    TablesInUse(m, l);
    ReplaceKeeps(m, l, Vpn0(va), e);
    var m' := StoreEntry(m, l, Vpn0(va), e);
    assert SetPageFlags(m, root, va, rwxug) == Some(m');
    forall r, i: nat, j: nat, k: nat | r in m.roots && i < PTE_CNT && j < PTE_CNT && k < PTE_CNT
      ensures WalkAt(m'.ram, r, i, j, k) ==
        if r == root && i == Vpn2(va) && j == Vpn1(va) && k == Vpn0(va) then Found(0, e, e.flags.g)
        else WalkAt(m.ram, r, i, j, k)
    {
      StoreLeafWalk(m, l, Vpn0(va), e, root, Vpn2(va), t, Vpn1(va), r, i, j, k);
    }
  }

  /** An entry stored in a level-0 table must be one that the invariant allows there. */
  lemma StoredMustFit(m: Mem, l: nat, k: nat, e: Pte)
    requires Inv(m) && IsLeaf(m, l) && l in m.ram && k < PTE_CNT && Inv(StoreEntry(m, l, k, e))
    ensures LowerOk(m, e, Data(l, k))
  {
    hide FreeOk, RootsOk, KernelOk, LoadPte, StorePte;
    var m' := StoreEntry(m, l, k, e);
    EntriesAfterStore(m, l, k, e);
    hide Entry;
    assert RoleOk(m', l);
    assert LowerOk(m', Entry(m'.ram, l, k), Data(l, k));
  }

  /** A non-global entry refers to the page that the entry before it referred to. */
  lemma DataReferredTo(m: Mem, l: nat, k: nat, p: nat)
    requires Inv(m) && Owns(m, p, Data(l, k))
    ensures RefersTo(m, l, k, p)
  {
    hide FreeOk, RootsOk, KernelOk, Entry;
    assert RoleOk(m, p);
  }

  lemma GlobalEntryRole(m: Mem, l: nat, k: nat, e: Pte, q: nat)
    requires Inv(m) && IsLeaf(m, l) && l in m.ram && k < PTE_CNT && e.flags.v && e.flags.g
    requires LowerOk(m, e, Data(l, k)) && !RefersTo(m, l, k, Entry(m.ram, l, k).ppn) && q in m.owner
    ensures RoleOk(StoreEntry(m, l, k, e), q)
  {
    hide LoadPte, StorePte, FreeOk, RootsOk, KernelOk;
    EntriesAfterStore(m, l, k, e);
    hide Entry;
    assert RoleOk(m, q);
  }

  /** A global entry may replace one that refers to no page of a space. */
  lemma GlobalEntryKeeps(m: Mem, l: nat, k: nat, e: Pte)
    requires Inv(m) && IsLeaf(m, l) && k < PTE_CNT && e.flags.v && e.flags.g && LowerOk(m, e, Data(l, k))
    requires !RefersTo(m, l, k, Entry(m.ram, l, k).ppn)
    ensures Inv(StoreEntry(m, l, k, e))
  {
    hide LoadPte, StorePte, LowerOk, RefersTo;
    TablesInUse(m, l);
    var m' := StoreEntry(m, l, k, e);
    EntriesAfterStore(m, l, k, e);
    FreeFrame(m, m', l);
    hide FreeOk, Entry, RoleOk;
    forall r | r in m'.roots ensures RootTableOk(m', r) {
      assert RootTableOk(m, r);
    }
    forall t | t in m'.kernel ensures KernelTableOk(m', t) {
      assert KernelTableOk(m, t);
    }
    forall q | q in m'.owner ensures RoleOk(m', q) {
      GlobalEntryRole(m, l, k, e, q);
    }
  }

  /** The level-0 entry for `va`. */
  function SlotEntry(ram: Ram, root: nat, va: nat): Pte {
    Entry(ram, Entry(ram, Entry(ram, root, Vpn2(va)).ppn, Vpn1(va)).ppn, Vpn0(va))
  }

  lemma TablesFound(m: Mem, root: nat, va: nat)
    requires Inv(m) && Mappable(m, root, va) && TablesNeeded(m, root, va) == 0
    ensures var t := Entry(m.ram, root, Vpn2(va)).ppn; var l := Entry(m.ram, t, Vpn1(va)).ppn;
      Owns(m, t, Mid(root, Vpn2(va))) && Owns(m, l, Leaf(t, Vpn1(va))) && l in m.ram
  {
    hide Entry, FreeOk, KernelOk;
    VpnBounds(va);
    MidOfRoot(m, root, Vpn2(va));
    var t := Entry(m.ram, root, Vpn2(va)).ppn;
    assert RoleOk(m, t) && UpperOk(m, Entry(m.ram, t, Vpn1(va)), Leaf(t, Vpn1(va)));
    TablesInUse(m, Entry(m.ram, t, Vpn1(va)).ppn);
  }

  /** Page p is not managed, or mapped by global entries only. */
  predicate MayBeGlobal(m: Mem, p: nat) { p in m.owner ==> m.owner[p] == Shared }

  /** Where the tables for the address exist, the invariant is kept if and only if a user page is
      mapped there, or, when the flags have G, the page that the entry names is nobody's: else the
      entry comes to refer to a page that it has no claim to. */
  lemma SetPageFlagsIff(m: Mem, root: nat, va: nat, rwxug: Flags)
    requires Inv(m) && Mappable(m, root, va) && Wellformed(va) && TablesNeeded(m, root, va) == 0
    ensures SetPageFlags(m, root, va, rwxug).Some?
    ensures Inv(SetPageFlags(m, root, va, rwxug).value) <==>
            if rwxug.g then MayBeGlobal(m, SlotEntry(m.ram, root, va).ppn) else IsUser(Walk(m.ram, root, va))
  {
    hide Inv, Entry, StorePte, MapsOnly, NoNewGlobals, Extends;
    VpnBounds(va);
    TablesFound(m, root, va);
    var t := Entry(m.ram, root, Vpn2(va)).ppn;
    var l, k := Entry(m.ram, t, Vpn1(va)).ppn, Vpn0(va);
    ServesWalk(m, root, va, l);
    var e0 := Entry(m.ram, l, k);
    var e: Pte := RawPte.Pte(LeafFlags(rwxug), e0.rsw, e0.ppn, e0.attr);
    if Inv(StoreEntry(m, l, k, e)) { StoredMustFit(m, l, k, e); }
    SlotHolds(m, l, k);
    if rwxug.g {
      if MayBeGlobal(m, e0.ppn) { GlobalEntryKeeps(m, l, k, e); }
    } else if IsUser(Walk(m.ram, root, va)) {
      SetPageFlagsKeeps(m, root, va, rwxug);
    } else if Owns(m, e.ppn, Data(l, k)) {
      DataReferredTo(m, l, k, e.ppn);
    }
  }

  /** An entry that has never been used comes to map physical page 0. */
  lemma NullEntryMapped(m: Mem, root: nat, va: nat, rwxug: Flags)
    requires Inv(m) && Mappable(m, root, va) && Wellformed(va) && TablesNeeded(m, root, va) == 0
    requires SlotEntry(m.ram, root, va) == NULL_PTE
    ensures var m' := SetPageFlags(m, root, va, rwxug);
      m'.Some? && Walk(m'.value.ram, root, va) == Found(0, RawPte.Pte(LeafFlags(rwxug), 0, 0, 0), rwxug.g)
  {
    hide Inv, Entry, StorePte;
    VpnBounds(va);
    TablesFound(m, root, va);
    var t := Entry(m.ram, root, Vpn2(va)).ppn;
    var l := Entry(m.ram, t, Vpn1(va)).ppn;
    ServesWalk(m, root, va, l);
    StoreLeafWalk(m, l, Vpn0(va), RawPte.Pte(LeafFlags(rwxug), 0, 0, 0), root, Vpn2(va), t, Vpn1(va),
                  root, Vpn2(va), Vpn1(va), Vpn0(va));
  }

  ghost predicate NullTable(ram: Ram, t: nat) {
    forall x: nat :: x < PTE_CNT ==> Entry(ram, t, x) == NULL_PTE
  }

  lemma CreatedIsNull(m: Mem, t: nat, i: nat, role: Role)
    requires Inv(m) && m.free != [] && SlotFor(m, t, i, role) && !Entry(m.ram, t, i).flags.v
    ensures var (m', p) := CreateTable(m, t, i, role); NullTable(m'.ram, p)
  {
    hide LoadPte, StorePte, Inv, ZeroPage, TablePte;
    NewTableFits(m, t, i, role, NO_FLAGS);
    var (m1, p) := AllocPage(m).value;
    EntriesAfterStore(m1, t, i, TablePte(p, NO_FLAGS));
    forall x: nat | x < PTE_CNT ensures Entry(m1.ram, p, x) == NULL_PTE {
      LoadZero(x);
    }
  }

  /** A level-0 table that walk_pt creates has null entries only. */
  lemma NewLeafIsNull(m: Mem, root: nat, va: nat)
    requires Inv(m) && Mappable(m, root, va) && TablesNeeded(m, root, va) > 0 && WalkPt(m, root, va).Some?
    ensures var (m', l) := WalkPt(m, root, va).value; NullTable(m'.ram, l)
  {
    hide Inv, Entry, NullTable, CreateTable;
    var i, j := Vpn2(va), Vpn1(va);
    VpnBounds(va);
    EnsureTableKeeps(m, root, i, Mid(root, i));
    var (m1, t) := EnsureTable(m, root, i, Mid(root, i)).value;
    CreatedIsNull(m1, t, j, Leaf(t, j));
  }

  /** Mapping the first page of a level-0 table leaves its other entries null. */
  lemma NeighbourIsNull(m: Mem, root: nat, a: nat, va: nat, rwxug: Flags)
    requires Inv(m) && Mappable(m, root, a) && TablesNeeded(m, root, a) > 0
    requires Vpn2(va) == Vpn2(a) && Vpn1(va) == Vpn1(a) && Vpn0(va) != Vpn0(a)
    requires MapPage(m, root, a, rwxug).Some?
    ensures var m' := MapPage(m, root, a, rwxug).value;
      && Inv(m') && Mappable(m', root, va) && TablesNeeded(m', root, va) == 0
      && SlotEntry(m'.ram, root, va) == NULL_PTE
  {
    hide Inv, Entry, WalkPt, LeafPte, StorePte, ZeroPage, Overwrite, Extends, NoNewGlobals, SameWalks;
    hide Mappable, TablesNeeded;
    VpnBounds(a);
    VpnBounds(va);
    var (m1, p) := AllocPage(m).value;
    AllocKeeps(m);
    AllocKeepsMappable(m, root, a);
    BeforeMapping(m, root, a);
    AllocNeeds(m, root, a);
    var (m2, l) := WalkPt(m1, root, a).value;
    NewLeafIsNull(m1, root, a);
    NullAfterStore(m2, root, a, va, l, p, rwxug);
  }

  lemma AllocNeeds(m: Mem, root: nat, a: nat)
    requires Inv(m) && m.free != [] && Mappable(m, root, a)
    ensures TablesNeeded(AllocPage(m).value.0, root, a) == TablesNeeded(m, root, a)
  {
    hide Inv, Entry, ZeroPage;
    VpnBounds(a);
    AllocKeepsMappable(m, root, a);
    AllocSameTables(m, root);
  }

  lemma NullAfterStore(m2: Mem, root: nat, a: nat, va: nat, l: nat, p: nat, rwxug: Flags)
    requires Inv(m2) && Serves(m2, root, a, l) && NullTable(m2.ram, l) && Owns(m2, p, Held)
    requires Vpn2(va) == Vpn2(a) && Vpn1(va) == Vpn1(a) && Vpn0(va) != Vpn0(a)
    ensures var role := if rwxug.g then Shared else Data(l, Vpn0(a));
      var m' := Overwrite(m2, l, Vpn0(a), LeafPte(p, rwxug), role);
      && Inv(m') && Mappable(m', root, va) && TablesNeeded(m', root, va) == 0
      && SlotEntry(m'.ram, root, va) == NULL_PTE
  {
    hide Inv, LoadPte, LeafPte, StorePte, Vpn2, Vpn1, Vpn0;
    VpnBounds(a);
    VpnBounds(va);
    var role := if rwxug.g then Shared else Data(l, Vpn0(a));
    StoreMapped(m2, l, Vpn0(a), p, rwxug);
    var m' := Overwrite(m2, l, Vpn0(a), LeafPte(p, rwxug), role);
    EntriesAfterStore(m2, l, Vpn0(a), LeafPte(p, rwxug));
    hide Entry;
    ServesPath(m', root, va, l);
  }

  lemma ServesPath(m: Mem, root: nat, va: nat, l: nat)
    requires Inv(m) && Serves(m, root, va, l)
    ensures Mappable(m, root, va) && TablesNeeded(m, root, va) == 0
    ensures SlotEntry(m.ram, root, va) == Entry(m.ram, l, Vpn0(va))
  {
    hide Entry, FreeOk, KernelOk;
    assert RoleOk(m, l);
    assert RoleOk(m, m.owner[l].parent);
  }

  /** For example: when a page has been mapped, and the level-0 table for it created, setting the
      flags of the page beside it, which is not mapped, maps that page to physical page 0. */
  lemma FlagsMapPageZero(m: Mem, root: nat, a: nat, rwxug: Flags)
    requires Inv(m) && Mappable(m, root, a) && TablesNeeded(m, root, a) > 0 && a % 0x20_0000 == 0
    requires MapPage(m, root, a, USER_RW).Some?
    ensures var va, m1 := a + PAGE_SIZE, MapPage(m, root, a, USER_RW).value;
      var m' := SetPageFlags(m1, root, va, rwxug);
      && Inv(m1) && Walk(m1.ram, root, va) == Unmapped
      && m'.Some? && Walk(m'.value.ram, root, va) == Found(0, RawPte.Pte(LeafFlags(rwxug), 0, 0, 0), rwxug.g)
  {
    hide Inv, Entry, StorePte, MapPage, Mappable, TablesNeeded, SlotEntry;
    var va, m1 := a + PAGE_SIZE, MapPage(m, root, a, USER_RW).value;
    NextPage(a);
    assert Wellformed(a) && Wellformed(va) by { NextWellformed(m, root, a); }
    NeighbourIsNull(m, root, a, va, USER_RW);
    NullIsUnmapped(m1, root, va);
    NullEntryMapped(m1, root, va, rwxug);
  }

  lemma NextPage(a: nat)
    requires a % 0x20_0000 == 0
    ensures Vpn2(a + PAGE_SIZE) == Vpn2(a) && Vpn1(a + PAGE_SIZE) == Vpn1(a) && Vpn0(a + PAGE_SIZE) != Vpn0(a)
    ensures Wellformed(a) ==> Wellformed(a + PAGE_SIZE)
  {
  }

  lemma NextWellformed(m: Mem, root: nat, a: nat)
    requires MapPage(m, root, a, USER_RW).Some? && a % 0x20_0000 == 0
    ensures Wellformed(a) && Wellformed(a + PAGE_SIZE)
  {
    hide WalkPt, AllocPage, Overwrite, LeafPte;
    NextPage(a);
  }

  lemma NullIsUnmapped(m: Mem, root: nat, va: nat)
    requires Inv(m) && Mappable(m, root, va) && TablesNeeded(m, root, va) == 0
    requires SlotEntry(m.ram, root, va) == NULL_PTE
    ensures Walk(m.ram, root, va) == Unmapped
  {
    hide Inv, Entry;
    TablesFound(m, root, va);
    ServesWalk(m, root, va, Entry(m.ram, Entry(m.ram, root, Vpn2(va)).ppn, Vpn1(va)).ppn);
  }

  /** Pages in a range of `size` bytes. */
  function PageCount(size: nat): nat {
    size / PAGE_SIZE + if size % PAGE_SIZE > 0 then 1 else 0
  }

  /** It is the least number of pages that hold `size` bytes. */
  lemma PageCountIs(size: nat, n: nat)
    ensures PageCount(size) <= n <==> size <= n * 0x1000
  {
  }

  lemma {:induction false} RangePrefix(m: Mem, root: nat, va: nat, k: nat, n: nat, rwxug: Flags)
    requires k <= n
    ensures MapRange(m, root, va, k, rwxug).None? ==> MapRange(m, root, va, n, rwxug).None?
    ensures SetRangeFlags(m, root, va, k, rwxug).None? ==> SetRangeFlags(m, root, va, n, rwxug).None?
  {
    hide MapPage, SetPageFlags;
    if k < n { RangePrefix(m, root, va, k, n - 1, rwxug); }
  }

  ghost predicate RangeOfUserPages(m: Mem, root: nat, va: nat, n: nat) {
    root in m.roots && forall x: nat :: x < n ==> Wellformed(PageVa(va, x)) && IsUser(Walk(m.ram, root, PageVa(va, x)))
  }

  /** Every page of the range has exactly the given flags plus A, D and V, on the page it was on. */
  ghost predicate RangeFlagged(m: Mem, m': Mem, root: nat, va: nat, n: nat, rwxug: Flags) {
    && Inv(m') && Extends(m, m') && NoNewGlobals(m, m') && m'.owner == m.owner && m'.free == m.free
    && (forall x: nat :: x < n ==> Flagged(m, m', root, PageVa(va, x), rwxug))
    && WalksKeptOutside(m, m', root, va, n)
  }

  predicate Flagged(m: Mem, m': Mem, root: nat, va: nat, rwxug: Flags) {
    var w := Walk(m'.ram, root, va);
    IsUser(w) && w.pte.flags == LeafFlags(rwxug) && PageAt(m'.ram, root, va) == PageAt(m.ram, root, va)
  }

  lemma LastPageUser(m: Mem, m1: Mem, root: nat, va: nat, n: nat, rwxug: Flags)
    requires n > 0 && RangeOfUserPages(m, root, va, n) && RangeFlagged(m, m1, root, va, n - 1, rwxug)
    ensures var last := PageVa(va, n - 1);
      && root in m1.roots && Wellformed(last) && Walk(m1.ram, root, last) == Walk(m.ram, root, last)
  {
    hide Inv, Entry, WalkAt, Vpn2, Vpn1, Vpn0, NoNewGlobals, Flagged;
    OwnPageOnly(va, n, n - 1);
    VpnBounds(PageVa(va, n - 1));
  }

  lemma LastPageFlagged(m: Mem, m1: Mem, root: nat, va: nat, n: nat, rwxug: Flags)
    requires n > 0 && Inv(m) && RangeOfUserPages(m, root, va, n) && !rwxug.g
    requires RangeFlagged(m, m1, root, va, n - 1, rwxug)
    ensures var m2 := SetPageFlags(m1, root, PageVa(va, n - 1), rwxug);
      m2.Some? && RangeFlagged(m, m2.value, root, va, n, rwxug)
  {
    hide Inv, Entry, WalkAt, Vpn2, Vpn1, Vpn0, NoNewGlobals, Extends, SetPageFlags, LeafFlags;
    var last := PageVa(va, n - 1);
    LastPageUser(m, m1, root, va, n, rwxug);
    SetPageFlagsKeeps(m1, root, last, rwxug);
    var m2 := SetPageFlags(m1, root, last, rwxug).value;
    ExtendsTrans(m, m1, m2);
    NoNewGlobalsTrans(m, m1, m2);
    assert m1.roots == m.roots by { ExtendsRoots(m, m1); }
    OwnPageOnly(va, n, n - 1);
    VpnBounds(last);
    forall x: nat | x < n ensures Flagged(m, m2, root, PageVa(va, x), rwxug) {
      if x < n - 1 {
        VpnBounds(PageVa(va, x));
        assert Flagged(m, m1, root, PageVa(va, x), rwxug);
        assert !SamePage(last, PageVa(va, x));
      }
    }
  }

  lemma {:induction false} SetRangeFlagsKeeps(m: Mem, root: nat, va: nat, n: nat, rwxug: Flags)
    requires Inv(m) && RangeOfUserPages(m, root, va, n) && !rwxug.g
    ensures SetRangeFlags(m, root, va, n, rwxug).Some?
    ensures RangeFlagged(m, SetRangeFlags(m, root, va, n, rwxug).value, root, va, n, rwxug)
  {
    hide Inv, Entry, WalkAt, Vpn2, Vpn1, Vpn0, NoNewGlobals, Extends, SetPageFlags;
    if n == 0 {
      MapNothing(m);
    } else {
      SetRangeFlagsKeeps(m, root, va, n - 1, rwxug);
      hide RangeFlagged;
      LastPageFlagged(m, SetRangeFlags(m, root, va, n - 1, rwxug).value, root, va, n, rwxug);
    }
  }
}
