/** Which tables of a space exist, and which ones mapping a page adds. */
module TableGrowth {
  import opened Common
  import opened Sv39
  import opened PageTables
  import opened Mapping

  predicate HasMid(m: Mem, root: nat, i: nat) { Entry(m.ram, root, i).flags.v }

  predicate HasLeaf(m: Mem, root: nat, i: nat, j: nat) {
    HasMid(m, root, i) && !Entry(m.ram, root, i).flags.g && Entry(m.ram, Entry(m.ram, root, i).ppn, j).flags.v
  }

  /** An entry of a level-2 or level-1 table keeps its page, or is new and refers to an empty table. */
  ghost predicate Grown(m: Mem, m': Mem, t: nat, i: nat) {
    forall t', x: nat :: t' in m.roots || t' in m.kernel || IsMid(m, t') ==>
      Entry(m'.ram, t', x) == Entry(m.ram, t', x) || (t' == t && x == i && !Entry(m.ram, t, i).flags.v)
  }

  lemma EnsureTableGrows(m: Mem, t: nat, i: nat, role: Role)
    requires Inv(m) && SlotFor(m, t, i, role) && EnsureTable(m, t, i, role).Some?
    requires Entry(m.ram, t, i).flags.v ==> !Entry(m.ram, t, i).flags.g
    ensures var (m', p) := EnsureTable(m, t, i, role).value;
      Grown(m, m', t, i) && Entry(m'.ram, t, i).flags.v && Entry(m'.ram, t, i).ppn == p
  {
    if !Entry(m.ram, t, i).flags.v {
      NewTableFits(m, t, i, role, NO_FLAGS);
      var (m1, p) := AllocPage(m).value;
      NotATable(m, p);
      AllocEntries(m);
      EntriesAfterStore(m1, t, i, TablePte(p, NO_FLAGS));
      TablePteFlags(p, NO_FLAGS);
    }
    hide Inv, Entry, LoadPte, StorePte, TablePte, AllocPage;
  }

  lemma NotATable(m: Mem, p: nat)
    requires Inv(m) && Owns(m, p, Free)
    ensures !IsTable(m, p)
  {
    hide RootTableOk, KernelTableOk, RoleOk, Linked, Distinct;
  }

  lemma AllocEntries(m: Mem)
    requires m.free != []
    ensures var (m1, p) := AllocPage(m).value; forall t, x :: t != p ==> Entry(m1.ram, t, x) == Entry(m.ram, t, x)
  {
    hide LoadPte;
  }

  lemma MidOfRoot(m: Mem, root: nat, x: nat)
    requires Inv(m) && root in m.roots && x < PTE_CNT
    requires HasMid(m, root, x) && !Entry(m.ram, root, x).flags.g
    ensures Owns(m, Entry(m.ram, root, x).ppn, Mid(root, x))
  {
    hide Entry, FreeOk, KernelOk;
    assert RootTableOk(m, root);
    assert UpperOk(m, Entry(m.ram, root, x), Mid(root, x));
  }

  lemma MidIsNoRoot(m: Mem, t: nat)
    requires Inv(m) && IsMid(m, t)
    ensures t !in m.roots && t !in m.kernel
  {
    hide RootTableOk, KernelTableOk, RoleOk, FreeOk;
  }

  /** After walk_pt with create, the tables for va exist, and no others that did not before. */
  lemma WalkPtTables(m: Mem, root: nat, va: nat)
    requires Inv(m) && Mappable(m, root, va) && WalkPt(m, root, va).Some?
    ensures TablesAdded(m, WalkPt(m, root, va).value.0, root, va)
  {
    hide Inv, Entry, EnsureTable, SameWalks, Vpn2, Vpn1, TablesAdded, Grown, EmptyTable;
    var i, j := Vpn2(va), Vpn1(va);
    VpnBounds(va);
    EnsureTableKeeps(m, root, i, Mid(root, i));
    EnsureTableGrows(m, root, i, Mid(root, i));
    var (m1, t) := EnsureTable(m, root, i, Mid(root, i)).value;
    MidNotGlobal(m, m1, root, va, t);
    EnsureTableKeeps(m1, t, j, Leaf(t, j));
    EnsureTableGrows(m1, t, j, Leaf(t, j));
    var m' := EnsureTable(m1, t, j, Leaf(t, j)).value.0;
    TwoTables(m, m1, m', root, va, t);
  }

  lemma MidNotGlobal(m: Mem, m1: Mem, root: nat, va: nat, t: nat)
    requires Mappable(m, root, va) && NoNewGlobals(m, m1) && m1.roots == m.roots
    requires Entry(m1.ram, root, Vpn2(va)).flags.v && Entry(m1.ram, root, Vpn2(va)).ppn == t
    requires IsMid(m1, t)
    requires if HasMid(m, root, Vpn2(va)) then m1 == m else EmptyTable(m1.ram, t)
    ensures !Entry(m1.ram, root, Vpn2(va)).flags.g
    ensures Entry(m1.ram, t, Vpn1(va)).flags.v ==> !Entry(m1.ram, t, Vpn1(va)).flags.g
  {
    VpnBounds(va);
    hide Entry;
  }

  lemma TwoTables(m: Mem, m1: Mem, m': Mem, root: nat, va: nat, t: nat)
    requires Inv(m) && Inv(m1) && Mappable(m, root, va) && Extends(m, m1) && Owns(m1, t, Mid(root, Vpn2(va)))
    requires !Entry(m1.ram, root, Vpn2(va)).flags.g
    requires Grown(m, m1, root, Vpn2(va)) && HasMid(m1, root, Vpn2(va)) && Entry(m1.ram, root, Vpn2(va)).ppn == t
    requires HasMid(m, root, Vpn2(va)) || EmptyTable(m1.ram, t)
    requires Grown(m1, m', t, Vpn1(va)) && Entry(m'.ram, t, Vpn1(va)).flags.v
    ensures TablesAdded(m, m', root, va)
  {
    hide Inv, Entry, Vpn2, Vpn1;
    var i, j := Vpn2(va), Vpn1(va);
    VpnBounds(va);
    MidIsNoRoot(m1, t);
    forall x: nat, y: nat | x < PTE_CNT && y < PTE_CNT
      ensures HasLeaf(m', root, x, y) <==> HasLeaf(m, root, x, y) || (x == i && y == j)
    {
      if HasMid(m, root, x) && !Entry(m.ram, root, x).flags.g {
        MidOfRoot(m, root, x);
        MidIsNoRoot(m, Entry(m.ram, root, x).ppn);
      }
    }
  }

  ghost predicate TablesAdded(m: Mem, m': Mem, root: nat, va: nat) {
    && (forall x: nat :: x < PTE_CNT ==> (HasMid(m', root, x) <==> HasMid(m, root, x) || x == Vpn2(va)))
    && forall x: nat, y: nat :: x < PTE_CNT && y < PTE_CNT ==>
         (HasLeaf(m', root, x, y) <==> HasLeaf(m, root, x, y) || (x == Vpn2(va) && y == Vpn1(va)))
  }

  lemma MapPageTables(m: Mem, root: nat, va: nat, rwxug: Flags)
    requires Inv(m) && Mappable(m, root, va) && MapPage(m, root, va, rwxug).Some?
    ensures TablesAdded(m, MapPage(m, root, va, rwxug).value, root, va)
  {
    hide Inv, Entry, WalkPt, TablesAdded, LeafPte, StorePte, ZeroPage, Overwrite, EmptyTable;
    AllocKeeps(m);
    AllocKeepsMappable(m, root, va);
    var (m1, p) := AllocPage(m).value;
    WalkPtKeeps(m1, root, va);
    WalkPtTables(m1, root, va);
    var (m2, l) := WalkPt(m1, root, va).value;
    VpnBounds(va);
    var role := if rwxug.g then Shared else Data(l, Vpn0(va));
    SameTables(m, m1, m2, root, va, l, LeafPte(p, rwxug), role);
  }

  lemma SameTables(m: Mem, m1: Mem, m2: Mem, root: nat, va: nat, l: nat, e: Pte, role: Role)
    requires Inv(m) && m.free != [] && m1 == AllocPage(m).value.0 && root in m.roots
    requires Inv(m2) && m2.roots == m.roots
    requires TablesAdded(m1, m2, root, va) && IsLeaf(m2, l)
    ensures TablesAdded(m, Overwrite(m2, l, Vpn0(va), e, role), root, va)
  {
    hide Inv, Entry, Vpn2, Vpn1, Vpn0, AllocPage, Overwrite, HasMid, HasLeaf;
    VpnBounds(va);
    AllocSameTables(m, root);
    OverwriteSameTables(m2, root, l, Vpn0(va), e, role);
  }

  lemma AllocSameTables(m: Mem, root: nat)
    requires Inv(m) && m.free != [] && root in m.roots
    ensures var m1 := AllocPage(m).value.0;
      && (forall x: nat :: x < PTE_CNT ==> (HasMid(m1, root, x) <==> HasMid(m, root, x)))
      && forall x: nat, y: nat :: x < PTE_CNT && y < PTE_CNT ==> (HasLeaf(m1, root, x, y) <==> HasLeaf(m, root, x, y))
  {
    hide Inv, Entry, ZeroPage;
    InvFreeOk(m);
    AllocKeepsFree(m);
    NotATable(m, m.free[0]);
    AllocEntries(m);
    forall x: nat | x < PTE_CNT && HasMid(m, root, x) && !Entry(m.ram, root, x).flags.g
      ensures IsMid(m, Entry(m.ram, root, x).ppn)
    {
      MidOfRoot(m, root, x);
    }
  }

  lemma OverwriteSameTables(m2: Mem, root: nat, l: nat, k: nat, e: Pte, role: Role)
    requires Inv(m2) && root in m2.roots && IsLeaf(m2, l) && k < PTE_CNT
    ensures var m' := Overwrite(m2, l, k, e, role);
      && (forall x: nat :: x < PTE_CNT ==> (HasMid(m', root, x) <==> HasMid(m2, root, x)))
      && forall x: nat, y: nat :: x < PTE_CNT && y < PTE_CNT ==> (HasLeaf(m', root, x, y) <==> HasLeaf(m2, root, x, y))
  {
    hide Inv, LoadPte, StorePte, Released;
    TablesInUse(m2, l);
    EntriesAfterStore(m2, l, k, e);
    LeafIsNoRoot(m2, l);
    hide Entry;
    forall x: nat | x < PTE_CNT && HasMid(m2, root, x) && !Entry(m2.ram, root, x).flags.g
      ensures IsMid(m2, Entry(m2.ram, root, x).ppn)
    {
      MidOfRoot(m2, root, x);
    }
  }

  lemma InvFreeOk(m: Mem)
    requires Inv(m)
    ensures FreeOk(m)
  {
  }

  lemma LeafIsNoRoot(m: Mem, l: nat)
    requires Inv(m) && IsLeaf(m, l)
    ensures l !in m.roots
  {
    hide RootTableOk, KernelTableOk, RoleOk, FreeOk;
  }
}
