/** memory_space_clone: the deep copy of an address space, level by level. */
module Clone {
  import opened Common
  import opened Sv39
  import opened PageTables
  import opened Mapping
  import opened UserMemory

  // --- the copy, in the order of the code ---

  /** Is the entry copied deeply? Invalid and global entries are copied as they are. */
  predicate Deep(e: Pte) { e.flags.v && !e.flags.g }

  /** One slot of a table: the old entry is copied, a page is allocated, and the slot is overwritten
      with a reference to that page. */
  function CopySlot(m: Mem, table: nat, i: nat, e: Pte, role: Role): Option<(Mem, nat)> {
    var m1 := StoreEntry(m, table, i, e);
    if m1.free == [] then None
    else
      var (m2, p) := AllocPage(m1).value;
      Some((Attach(m2, table, i, if role.Data? then LeafPte(p, e.flags) else TablePte(p, e.flags), role), p))
  }

  function CopyPage(m: Mem, from: nat, to: nat): Mem {
    if from in m.ram && to in m.ram then
      Mem(m.ram[to := m.ram[from]], m.owner, m.free, m.roots, m.kernel)
    else m
  }

  function CloneLeafSlot(m: Mem, old0: nat, new0: nat, k: nat): Option<Mem> {
    var e := Entry(m.ram, old0, k);
    if !Deep(e) then Some(StoreEntry(m, new0, k, e))
    else
      var slot := CopySlot(m, new0, k, e, Data(new0, k));
      if slot.None? then None else Some(CopyPage(slot.value.0, e.ppn, slot.value.1))
  }

  /** The innermost loop, up to vpn0 = n. */
  function CloneLeaf(m: Mem, old0: nat, new0: nat, n: nat): Option<Mem> {
    if n == 0 then Some(m)
    else
      var prev := CloneLeaf(m, old0, new0, n - 1);
      if prev.None? then None else CloneLeafSlot(prev.value, old0, new0, n - 1)
  }

  function CloneMidSlot(m: Mem, old1: nat, new1: nat, j: nat): Option<Mem> {
    var e := Entry(m.ram, old1, j);
    if !Deep(e) then Some(StoreEntry(m, new1, j, e))
    else
      var slot := CopySlot(m, new1, j, e, Leaf(new1, j));
      if slot.None? then None else CloneLeaf(slot.value.0, e.ppn, slot.value.1, PTE_CNT)
  }

  /** The middle loop, up to vpn1 = n. */
  function CloneMid(m: Mem, old1: nat, new1: nat, n: nat): Option<Mem> {
    if n == 0 then Some(m)
    else
      var prev := CloneMid(m, old1, new1, n - 1);
      if prev.None? then None else CloneMidSlot(prev.value, old1, new1, n - 1)
  }

  function CloneRootSlot(m: Mem, old2: nat, new2: nat, i: nat): Option<Mem> {
    var e := Entry(m.ram, old2, i);
    if !Deep(e) then Some(StoreEntry(m, new2, i, e))
    else
      var slot := CopySlot(m, new2, i, e, Mid(new2, i));
      if slot.None? then None else CloneMid(slot.value.0, e.ppn, slot.value.1, PTE_CNT)
  }

  /** The outermost loop, up to vpn2 = n. */
  function CloneRoot(m: Mem, old2: nat, new2: nat, n: nat): Option<Mem> {
    if n == 0 then Some(m)
    else
      var prev := CloneRoot(m, old2, new2, n - 1);
      if prev.None? then None else CloneRootSlot(prev.value, old2, new2, n - 1)
  }

  /** A freshly allocated page becomes the empty level-2 table of a new space. */
  function AddRoot(m: Mem, p: nat): Mem {
    Mem(m.ram, m.owner[p := Root], m.free, m.roots + {p}, m.kernel)
  }

  function CloneSpace(m: Mem, root: nat): Option<(Mem, nat)> {
    if m.free == [] then None
    else
      var (m1, p) := AllocPage(m).value;
      var copied := CloneRoot(AddRoot(m1, p), root, p, PTE_CNT);
      if copied.None? then None else Some((copied.value, p))
  }

  // --- how many pages it takes ---

  function LeafSlotCost(ram: Ram, l: nat, k: nat): nat {
    if Deep(Entry(ram, l, k)) then 1 else 0
  }

  function LeafCost(ram: Ram, l: nat, n: nat): nat {
    if n == 0 then 0 else LeafCost(ram, l, n - 1) + LeafSlotCost(ram, l, n - 1)
  }

  function MidSlotCost(ram: Ram, t: nat, j: nat): nat {
    var e := Entry(ram, t, j);
    if Deep(e) then 1 + LeafCost(ram, e.ppn, PTE_CNT) else 0
  }

  function MidCost(ram: Ram, t: nat, n: nat): nat {
    if n == 0 then 0 else MidCost(ram, t, n - 1) + MidSlotCost(ram, t, n - 1)
  }

  function RootSlotCost(ram: Ram, r: nat, i: nat): nat {
    var e := Entry(ram, r, i);
    if Deep(e) then 1 + MidCost(ram, e.ppn, PTE_CNT) else 0
  }

  function RootCost(ram: Ram, r: nat, n: nat): nat {
    if n == 0 then 0 else RootCost(ram, r, n - 1) + RootSlotCost(ram, r, n - 1)
  }

  // --- what a copy leaves alone ---

  /** Everything in use in m, except page x, is the same in m'. */
  ghost predicate Grows(m: Mem, m': Mem, x: nat) {
    && m'.ram.Keys == m.ram.Keys && m'.owner.Keys == m.owner.Keys
    && m'.roots == m.roots && m'.kernel == m.kernel
    && (forall q :: q in m.owner && m.owner[q] != Free ==> m'.owner[q] == m.owner[q])
    && (forall q :: q in m.ram && !Owns(m, q, Free) && q != x ==> m'.ram[q] == m.ram[q])
  }

  /** x and y are tables under construction; y may have been free when the copy into x began. */
  lemma GrowsTrans(m: Mem, m1: Mem, m2: Mem, x: nat, y: nat)
    requires Grows(m, m1, x) && Grows(m1, m2, y) && (y == x || Owns(m, y, Free))
    ensures Grows(m, m2, x)
  {
  }

  /** Exactly the first n pages of the free list were taken. */
  predicate Takes(m: Mem, m': Mem, n: nat) { n <= |m.free| && m'.free == m.free[n..] }

  lemma TakesMore(m: Mem, m1: Mem, n: nat)
    requires Takes(m, m1, n)
    ensures n <= |m.free| && |m1.free| == |m.free| - n
    ensures forall m2, k: nat :: Takes(m1, m2, k) ==> Takes(m, m2, n + k)
  {
  }

  // --- one slot ---

  predicate Slot(m: Mem, table: nat, i: nat, role: Role) {
    && i < PTE_CNT && !Entry(m.ram, table, i).flags.v
    && if role.Data? then IsLeaf(m, table) && role == Data(table, i) else SlotFor(m, table, i, role)
  }

  /** Nothing but flags and a page number. */
  predicate NoExtraBits(e: Pte) { e.rsw == 0 && e.attr == 0 }

  predicate DeepEntry(e: Pte, role: Role) {
    Deep(e) && if role.Data? then e.flags.a && e.flags.d else Pointer(e)
  }

  /** The new slot holds the flags of the old entry and a page that was free. */
  ghost predicate SlotCopied(m: Mem, m': Mem, table: nat, i: nat, e: Pte, role: Role, p: nat) {
    var e' := Entry(m'.ram, table, i);
    && e'.flags == e.flags && e'.ppn == p && NoExtraBits(e')
    && Owns(m, p, Free) && Owns(m', p, role)
    && (forall x :: x != i ==> Entry(m'.ram, table, x) == Entry(m.ram, table, x))
  }

  /** The first store of the old entry leaves no trace. */
  lemma CopyThenOverwrite(m: Mem, table: nat, i: nat, e: Pte, role: Role)
    requires table in m.ram && i < PTE_CNT && m.free != [] && m.free[0] != table
    ensures CopySlot(m, table, i, e, role).Some?
    ensures var p := m.free[0];
      var e' := if role.Data? then LeafPte(p, e.flags) else TablePte(p, e.flags);
      CopySlot(m, table, i, e, role).value == (Attach(AllocPage(m).value.0, table, i, e', role), p)
  {
    var p := m.free[0];
    var e' := if role.Data? then LeafPte(p, e.flags) else TablePte(p, e.flags);
    StoreStore(m.ram[table], i, e, e');
    hide StorePte, ZeroPage, LeafPte, TablePte;
    var m' := CopySlot(m, table, i, e, role).value.0;
    var m'' := Attach(AllocPage(m).value.0, table, i, e', role);
    assert m'.ram == m''.ram;
  }

  lemma NewPageFits(m: Mem, table: nat, i: nat, e: Pte, role: Role)
    requires Inv(m) && m.free != [] && Slot(m, table, i, role) && DeepEntry(e, role)
    ensures var (m1, p) := AllocPage(m).value;
      var e' := if role.Data? then LeafPte(p, e.flags) else TablePte(p, e.flags);
      && Inv(m1) && table in m1.ram && table != p && Owns(m, p, Free)
      && !Entry(m1.ram, table, i).flags.v && CanAttach(m1, table, i, e', role)
      && e'.ppn == p && e'.flags == e.flags && NoExtraBits(e') && EmptyTable(m1.ram, p)
  {
    hide Inv, LoadPte, ZeroPage, EmptyTable;
    var (m1, p) := AllocPage(m).value;
    AllocKeeps(m);
    TablesInUse(m, table);
    PpnFits(m1, p);
    if role.Data? {
      LeafFits(m1, table, i, p, e.flags);
    } else {
      NewTableFits(m, table, i, role, e.flags);
    }
  }

  lemma AllocGrows(m: Mem)
    requires Inv(m) && m.free != []
    ensures Grows(m, AllocPage(m).value.0, m.free[0])
  {
    AllocKeepsFree(m);
    hide TreeOk, Linked, Distinct, ZeroPage;
  }

  lemma AttachedGrows(m: Mem, table: nat, i: nat, e': Pte, role: Role)
    requires Inv(m) && m.free != [] && e'.ppn == m.free[0]
    ensures Grows(m, Attach(AllocPage(m).value.0, table, i, e', role), table)
  {
    AllocKeepsFree(m);
    hide TreeOk, Linked, Distinct, ZeroPage, StorePte;
  }

  lemma AttachedSlot(m: Mem, table: nat, i: nat, e': Pte, role: Role)
    requires m.free != [] && e'.ppn == m.free[0] && table in m.ram && table != e'.ppn && i < PTE_CNT
    requires EmptyTable(AllocPage(m).value.0.ram, e'.ppn)
    ensures var m' := Attach(AllocPage(m).value.0, table, i, e', role);
      && Entry(m'.ram, table, i) == e' && Owns(m', e'.ppn, role) && e'.ppn in m'.ram
      && (forall x :: x != i ==> Entry(m'.ram, table, x) == Entry(m.ram, table, x))
      && EmptyTable(m'.ram, e'.ppn)
  {
    hide LoadPte, StorePte, ZeroPage;
    EntriesAfterStore(AllocPage(m).value.0, table, i, e');
  }

  lemma CopySlotKeeps(m: Mem, table: nat, i: nat, e: Pte, role: Role)
    requires Inv(m) && Slot(m, table, i, role) && DeepEntry(e, role)
    ensures CopySlot(m, table, i, e, role).Some? <==> m.free != []
    ensures m.free != [] ==>
      var (m', p) := CopySlot(m, table, i, e, role).value;
      && Inv(m') && Grows(m, m', table) && SlotCopied(m, m', table, i, e, role, p)
      && p == m.free[0] && m'.free == m.free[1..] && p in m'.ram && p != table
      && EmptyTable(m'.ram, p)
  {
    if m.free == [] { return; }
    hide Inv, Entry, Grows, EmptyTable, LeafPte, TablePte, CanAttach, StoreEntry, NoExtraBits, DeepEntry;
    NewPageFits(m, table, i, e, role);
    TablesInUse(m, table);
    CopyThenOverwrite(m, table, i, e, role);
    hide CopySlot;
    var (m1, p) := AllocPage(m).value;
    var e' := if role.Data? then LeafPte(p, e.flags) else TablePte(p, e.flags);
    AttachKeeps(m1, table, i, e', role);
    AttachedGrows(m, table, i, e', role);
    AttachedSlot(m, table, i, e', role);
  }

  // --- level 0 ---

  /** Slot k of the new table b is a faithful copy of slot k of the old table a. */
  ghost predicate LeafCopy(m: Mem, m': Mem, a: nat, b: nat, k: nat) {
    var e := Entry(m.ram, a, k);
    var e' := Entry(m'.ram, b, k);
    if !Deep(e) then e' == e
    else
      && e'.flags == e.flags && NoExtraBits(e') && Owns(m, e'.ppn, Free) && Owns(m', e'.ppn, Data(b, k))
      && e.ppn in m.ram && e'.ppn in m'.ram && m'.ram[e'.ppn] == m.ram[e.ppn]
  }

  predicate SlotsKeptExcept(m: Mem, m': Mem, t: nat, i: nat) {
    forall x | 0 <= x < PTE_CNT && x != i :: Entry(m'.ram, t, x) == Entry(m.ram, t, x)
  }

  lemma ShallowSlot(m: Mem, table: nat, i: nat, e: Pte)
    requires Inv(m) && i < PTE_CNT && !Entry(m.ram, table, i).flags.v && !Deep(e)
    requires table in m.roots || IsMid(m, table) || IsLeaf(m, table)
    requires if IsLeaf(m, table) then LowerOk(m, e, Data(table, i)) else UpperOk(m, e, Free)
    ensures var m' := StoreEntry(m, table, i, e);
      && Inv(m') && Grows(m, m', table) && SlotsKeptExcept(m, m', table, i)
      && Entry(m'.ram, table, i) == e && m'.free == m.free
  {
    hide Inv, LoadPte, StorePte, UpperOk, LowerOk;
    TablesInUse(m, table);
    StoreInertKeeps(m, table, i, e);
    EntriesAfterStore(m, table, i, e);
    hide Entry;
  }

  /** The entries of a level-0 table, and the pages of the deep ones. */
  lemma LeafEntry(m: Mem, l: nat, k: nat)
    requires Inv(m) && IsLeaf(m, l) && k < PTE_CNT
    ensures LowerOk(m, Entry(m.ram, l, k), Data(l, k))
    ensures var e := Entry(m.ram, l, k);
      Deep(e) ==> DeepEntry(e, Data(l, k)) && Owns(m, e.ppn, Data(l, k)) && e.ppn in m.ram
  {
    hide Entry;
    assert RoleOk(m, l);
  }

  lemma CopyPageKeeps(m: Mem, from: nat, to: nat)
    requires Inv(m) && from in m.ram && to in m.owner && m.owner[to].Data?
    ensures var m' := CopyPage(m, from, to);
      && Inv(m') && Grows(m, m', to) && m'.free == m.free && m'.owner == m.owner
      && to in m'.ram && m'.ram[to] == m.ram[from]
      && forall t, x :: t != to ==> Entry(m'.ram, t, x) == Entry(m.ram, t, x)
  {
    assert to in m.ram by { PpnFits(m, to); }
    hide Inv, LoadPte;
    OnlyDataKeeps(m, CopyPage(m, from, to));
  }

  lemma CloneLeafSlotKeeps(m: Mem, old0: nat, new0: nat, k: nat)
    requires Inv(m) && IsLeaf(m, old0) && IsLeaf(m, new0) && old0 != new0
    requires k < PTE_CNT && !Entry(m.ram, new0, k).flags.v
    ensures CloneLeafSlot(m, old0, new0, k).Some? <==> |m.free| >= LeafSlotCost(m.ram, old0, k)
    ensures CloneLeafSlot(m, old0, new0, k).Some? ==>
      var m' := CloneLeafSlot(m, old0, new0, k).value;
      && Inv(m') && Grows(m, m', new0) && LeafCopy(m, m', old0, new0, k) && SlotsKeptExcept(m, m', new0, k)
      && Takes(m, m', LeafSlotCost(m.ram, old0, k))
  {
    hide Inv, Entry, CopySlot, CopyPage, StoreEntry;
    var e := Entry(m.ram, old0, k);
    LeafEntry(m, old0, k);
    if !Deep(e) {
      ShallowSlot(m, new0, k, e);
    } else if m.free != [] {
      CopySlotKeeps(m, new0, k, e, Data(new0, k));
      var (m1, p) := CopySlot(m, new0, k, e, Data(new0, k)).value;
      assert e.ppn in m1.ram && m1.ram[e.ppn] == m.ram[e.ppn];
      CopyPageKeeps(m1, e.ppn, p);
      GrowsTrans(m, m1, CopyPage(m1, e.ppn, p), new0, p);
    } else {
      CopySlotKeeps(m, new0, k, e, Data(new0, k));
    }
  }

  lemma LeafCopyKept(m: Mem, m1: Mem, m2: Mem, a: nat, b: nat, k: nat, x: nat)
    requires LeafCopy(m, m1, a, b, k) && Grows(m1, m2, x) && IsLeaf(m1, b)
    requires !(x in m1.owner && m1.owner[x].Data?)
    requires Entry(m2.ram, b, k) == Entry(m1.ram, b, k)
    ensures LeafCopy(m, m2, a, b, k)
  {
    hide Entry;
  }

  predicate EmptyFrom(ram: Ram, t: nat, n: nat) {
    forall x | n <= x < PTE_CNT :: !Entry(ram, t, x).flags.v
  }

  /** A copy that began in a later state m1 is a copy of what was there in m. */
  lemma LeafCopyRebase(m: Mem, m1: Mem, m2: Mem, a: nat, b: nat, k: nat, x: nat)
    requires Inv(m) && Grows(m, m1, x) && IsLeaf(m, a) && a != x && k < PTE_CNT
    requires !(x in m.owner && m.owner[x].Data?)
    requires LeafCopy(m1, m2, a, b, k)
    ensures Entry(m1.ram, a, k) == Entry(m.ram, a, k)
    ensures LeafCopy(m, m2, a, b, k)
  {
    hide Inv, LoadPte;
    LeafEntry(m, a, k);
    TablesInUse(m, a);
  }

  /** What the copy of the first n slots of a level-0 table achieves. */
  ghost predicate LeafCloned(m: Mem, m': Mem, old0: nat, new0: nat, n: nat) {
    && Inv(m') && Grows(m, m', new0) && EmptyFrom(m'.ram, new0, n)
    && (forall k: nat :: k < n ==> LeafCopy(m, m', old0, new0, k))
    && Takes(m, m', LeafCost(m.ram, old0, n))
  }

  lemma CloneLeafStep(m: Mem, m1: Mem, old0: nat, new0: nat, n: nat)
    requires Inv(m) && IsLeaf(m, old0) && IsLeaf(m, new0) && old0 != new0 && 0 < n <= PTE_CNT
    requires LeafCloned(m, m1, old0, new0, n - 1)
    ensures CloneLeafSlot(m1, old0, new0, n - 1).Some? <==> |m.free| >= LeafCost(m.ram, old0, n)
    ensures CloneLeafSlot(m1, old0, new0, n - 1).Some? ==>
      LeafCloned(m, CloneLeafSlot(m1, old0, new0, n - 1).value, old0, new0, n)
  {
    hide Inv, Entry, CloneLeafSlot, LeafCopy, LeafSlotCost, Grows;
    var k := n - 1;
    TablesInUse(m, old0);
    EntriesKept(m, m1, new0, old0);
    assert LeafSlotCost(m1.ram, old0, k) == LeafSlotCost(m.ram, old0, k) by { SameSlotCost(m.ram, m1.ram, old0, k); }
    LeavesStay(m, m1, new0, old0);
    LeavesStay(m, m1, new0, new0);
    CloneLeafSlotKeeps(m1, old0, new0, k);
    var next := CloneLeafSlot(m1, old0, new0, k);
    if next.None? { return; }
    var m2 := next.value;
    GrowsTrans(m, m1, m2, new0, new0);
    LeafCopyRebase(m, m1, m2, old0, new0, k, new0);
    forall x: nat | x < k ensures LeafCopy(m, m2, old0, new0, x) {
      LeafCopyKept(m, m1, m2, old0, new0, x, new0);
    }
  }

  lemma SameSlotCost(ram: Ram, ram': Ram, l: nat, k: nat)
    requires Entry(ram', l, k) == Entry(ram, l, k)
    ensures LeafSlotCost(ram', l, k) == LeafSlotCost(ram, l, k)
  {
    hide Entry;
  }

  lemma LeavesStay(m: Mem, m': Mem, x: nat, l: nat)
    requires Grows(m, m', x) && IsLeaf(m, l)
    ensures IsLeaf(m', l)
  {
  }

  lemma EntriesKept(m: Mem, m': Mem, x: nat, t: nat)
    requires Grows(m, m', x) && t in m.ram && !Owns(m, t, Free) && t != x
    ensures forall i :: Entry(m'.ram, t, i) == Entry(m.ram, t, i)
  {
    hide LoadPte;
  }

  lemma {:induction false} CloneLeafKeeps(m: Mem, old0: nat, new0: nat, n: nat)
    requires Inv(m) && IsLeaf(m, old0) && IsLeaf(m, new0) && old0 != new0 && n <= PTE_CNT
    requires EmptyTable(m.ram, new0)
    ensures CloneLeaf(m, old0, new0, n).Some? <==> |m.free| >= LeafCost(m.ram, old0, n)
    ensures CloneLeaf(m, old0, new0, n).Some? ==>
      LeafCloned(m, CloneLeaf(m, old0, new0, n).value, old0, new0, n)
  {
    hide Inv, Entry, CloneLeafSlot, LeafCopy, Grows;
    if n == 0 {
      GrowsRefl(m, new0);
    } else {
      CloneLeafKeeps(m, old0, new0, n - 1);
      hide LeafCloned;
      var prev := CloneLeaf(m, old0, new0, n - 1);
      if prev.Some? {
        CloneLeafStep(m, prev.value, old0, new0, n);
      }
    }
  }

  lemma GrowsRefl(m: Mem, x: nat)
    ensures Grows(m, m, x)
  {
  }

  // --- level 1 ---

  ghost predicate MidCopy(m: Mem, m': Mem, a: nat, b: nat, j: nat) {
    var e := Entry(m.ram, a, j);
    var e' := Entry(m'.ram, b, j);
    if !Deep(e) then e' == e
    else
      && e'.flags == e.flags && NoExtraBits(e') && Owns(m, e'.ppn, Free) && Owns(m', e'.ppn, Leaf(b, j))
      && LeafTableCopy(m, m', e.ppn, e'.ppn)
  }

  ghost predicate LeafTableCopy(m: Mem, m': Mem, a: nat, b: nat) {
    forall k: nat :: k < PTE_CNT ==> LeafCopy(m, m', a, b, k)
  }

  lemma MidEntry(m: Mem, t: nat, j: nat)
    requires Inv(m) && IsMid(m, t) && j < PTE_CNT
    ensures UpperOk(m, Entry(m.ram, t, j), Leaf(t, j))
    ensures var e := Entry(m.ram, t, j);
      Deep(e) ==> DeepEntry(e, Leaf(t, j)) && Owns(m, e.ppn, Leaf(t, j))
  {
    hide Entry;
    assert RoleOk(m, t);
  }

  lemma {:induction false} SameLeafCost(ram: Ram, ram': Ram, l: nat, n: nat)
    requires forall i :: Entry(ram', l, i) == Entry(ram, l, i)
    ensures LeafCost(ram', l, n) == LeafCost(ram, l, n)
  {
    hide Entry;
    if n > 0 { SameLeafCost(ram, ram', l, n - 1); }
  }

  lemma LeafCostFrame(m: Mem, m': Mem, x: nat, l: nat, n: nat)
    requires Inv(m) && Grows(m, m', x) && IsLeaf(m, l) && l != x
    ensures LeafCost(m'.ram, l, n) == LeafCost(m.ram, l, n)
  {
    TablesInUse(m, l);
    EntriesKept(m, m', x, l);
    SameLeafCost(m.ram, m'.ram, l, n);
  }

  lemma MidSlotCostFrame(m: Mem, m': Mem, x: nat, t: nat, j: nat)
    requires Inv(m) && Grows(m, m', x) && IsMid(m, t) && t != x && !IsLeaf(m, x) && j < PTE_CNT
    ensures MidSlotCost(m'.ram, t, j) == MidSlotCost(m.ram, t, j)
  {
    hide Inv, Entry, LeafCost, Grows;
    TablesInUse(m, t);
    EntriesKept(m, m', x, t);
    MidEntry(m, t, j);
    var e := Entry(m.ram, t, j);
    if Deep(e) { LeafCostFrame(m, m', x, e.ppn, PTE_CNT); }
  }

  lemma CloneMidSlotDeep(m: Mem, old1: nat, new1: nat, j: nat)
    requires Inv(m) && IsMid(m, old1) && IsMid(m, new1) && old1 != new1
    requires j < PTE_CNT && !Entry(m.ram, new1, j).flags.v
    requires Deep(Entry(m.ram, old1, j))
    ensures var e := Entry(m.ram, old1, j); var next := CloneMidSlot(m, old1, new1, j);
      && (next.Some? <==> |m.free| >= 1 + LeafCost(m.ram, e.ppn, PTE_CNT))
      && (next.Some? ==>
            && Inv(next.value) && Grows(m, next.value, new1) && MidCopy(m, next.value, old1, new1, j)
            && SlotsKeptExcept(m, next.value, new1, j)
            && Takes(m, next.value, 1 + LeafCost(m.ram, e.ppn, PTE_CNT)))
  {
    hide Inv, Entry, CopySlot, CloneLeaf, LeafCopy;
    var e := Entry(m.ram, old1, j);
    MidEntry(m, old1, j);
    CopySlotKeeps(m, new1, j, e, Leaf(new1, j));
    if m.free == [] { return; }
    var (m1, p) := CopySlot(m, new1, j, e, Leaf(new1, j)).value;
    LeafCostFrame(m, m1, new1, e.ppn, PTE_CNT);
    CloneLeafKeeps(m1, e.ppn, p, PTE_CNT);
    var next := CloneLeaf(m1, e.ppn, p, PTE_CNT);
    if next.None? { return; }
    var m2 := next.value;
    GrowsTrans(m, m1, m2, new1, p);
    TablesInUse(m1, new1);
    EntriesKept(m1, m2, p, new1);
    forall k: nat | k < PTE_CNT ensures LeafCopy(m, m2, e.ppn, p, k) {
      LeafCopyRebase(m, m1, m2, e.ppn, p, k, new1);
    }
  }

  lemma CloneMidSlotKeeps(m: Mem, old1: nat, new1: nat, j: nat)
    requires Inv(m) && IsMid(m, old1) && IsMid(m, new1) && old1 != new1
    requires j < PTE_CNT && !Entry(m.ram, new1, j).flags.v
    ensures var next := CloneMidSlot(m, old1, new1, j);
      && (next.Some? <==> |m.free| >= MidSlotCost(m.ram, old1, j))
      && (next.Some? ==>
            && Inv(next.value) && Grows(m, next.value, new1) && MidCopy(m, next.value, old1, new1, j)
            && SlotsKeptExcept(m, next.value, new1, j) && Takes(m, next.value, MidSlotCost(m.ram, old1, j)))
  {
    hide Inv, Entry, Grows, StoreEntry, CopySlot, CloneLeaf, LeafCost, LeafTableCopy, SlotsKeptExcept;
    var e := Entry(m.ram, old1, j);
    if Deep(e) {
      CloneMidSlotDeep(m, old1, new1, j);
    } else {
      MidEntry(m, old1, j);
      ShallowSlot(m, new1, j, e);
    }
  }

  lemma MidCopyKept(m: Mem, m1: Mem, m2: Mem, a: nat, b: nat, j: nat, x: nat)
    requires Inv(m1) && MidCopy(m, m1, a, b, j) && Grows(m1, m2, x)
    requires !(x in m1.owner && (m1.owner[x].Data? || m1.owner[x].Leaf?))
    requires Entry(m2.ram, b, j) == Entry(m1.ram, b, j)
    ensures MidCopy(m, m2, a, b, j)
  {
    hide Entry, LeafCopy, Inv;
    var e, e' := Entry(m.ram, a, j), Entry(m1.ram, b, j);
    if Deep(e) {
      TablesInUse(m1, e'.ppn);
      EntriesKept(m1, m2, x, e'.ppn);
      forall k: nat | k < PTE_CNT ensures LeafCopy(m, m2, e.ppn, e'.ppn, k) {
        LeafCopyKept(m, m1, m2, e.ppn, e'.ppn, k, x);
      }
    }
  }

  lemma MidCopyRebase(m: Mem, m1: Mem, m2: Mem, a: nat, b: nat, j: nat, x: nat)
    requires Inv(m) && Grows(m, m1, x) && IsMid(m, a) && a != x && j < PTE_CNT
    requires !(x in m.owner && (m.owner[x].Data? || m.owner[x].Leaf?))
    requires MidCopy(m1, m2, a, b, j)
    ensures Entry(m1.ram, a, j) == Entry(m.ram, a, j)
    ensures MidCopy(m, m2, a, b, j)
  {
    hide Inv, Entry, LeafCopy;
    TablesInUse(m, a);
    EntriesKept(m, m1, x, a);
    MidEntry(m, a, j);
    var e, e' := Entry(m.ram, a, j), Entry(m2.ram, b, j);
    if Deep(e) {
      forall k: nat | k < PTE_CNT ensures LeafCopy(m, m2, e.ppn, e'.ppn, k) {
        LeafCopyRebase(m, m1, m2, e.ppn, e'.ppn, k, x);
      }
    }
  }

  ghost predicate MidCloned(m: Mem, m': Mem, old1: nat, new1: nat, n: nat) {
    && Inv(m') && Grows(m, m', new1) && EmptyFrom(m'.ram, new1, n)
    && (forall j: nat :: j < n ==> MidCopy(m, m', old1, new1, j))
    && Takes(m, m', MidCost(m.ram, old1, n))
  }

  lemma GrowsMid(m: Mem, m': Mem, x: nat, t: nat)
    requires Grows(m, m', x) && IsMid(m, t)
    ensures IsMid(m', t)
  {
  }

  lemma CloneMidStep(m: Mem, m1: Mem, old1: nat, new1: nat, n: nat)
    requires Inv(m) && IsMid(m, old1) && IsMid(m, new1) && old1 != new1 && 0 < n <= PTE_CNT
    requires MidCloned(m, m1, old1, new1, n - 1)
    ensures CloneMidSlot(m1, old1, new1, n - 1).Some? <==> |m.free| >= MidCost(m.ram, old1, n)
    ensures CloneMidSlot(m1, old1, new1, n - 1).Some? ==>
      MidCloned(m, CloneMidSlot(m1, old1, new1, n - 1).value, old1, new1, n)
  {
    hide Inv, Entry, CloneMidSlot, MidCopy, MidSlotCost, Grows, Takes;
    TakesMore(m, m1, MidCost(m.ram, old1, n - 1));
    var j := n - 1;
    GrowsMid(m, m1, new1, old1);
    GrowsMid(m, m1, new1, new1);
    MidSlotCostFrame(m, m1, new1, old1, j);
    CloneMidSlotKeeps(m1, old1, new1, j);
    var next := CloneMidSlot(m1, old1, new1, j);
    if next.None? { return; }
    var m2 := next.value;
    GrowsTrans(m, m1, m2, new1, new1);
    MidCopyRebase(m, m1, m2, old1, new1, j, new1);
    forall x: nat | x < j ensures MidCopy(m, m2, old1, new1, x) {
      MidCopyKept(m, m1, m2, old1, new1, x, new1);
    }
  }

  lemma {:induction false} CloneMidKeeps(m: Mem, old1: nat, new1: nat, n: nat)
    requires Inv(m) && IsMid(m, old1) && IsMid(m, new1) && old1 != new1 && n <= PTE_CNT
    requires EmptyTable(m.ram, new1)
    ensures CloneMid(m, old1, new1, n).Some? <==> |m.free| >= MidCost(m.ram, old1, n)
    ensures CloneMid(m, old1, new1, n).Some? ==>
      MidCloned(m, CloneMid(m, old1, new1, n).value, old1, new1, n)
  {
    hide Inv, Entry, CloneMidSlot, MidCopy, Grows, MidSlotCost;
    if n == 0 {
      GrowsRefl(m, new1);
    } else {
      CloneMidKeeps(m, old1, new1, n - 1);
      hide MidCloned;
      var prev := CloneMid(m, old1, new1, n - 1);
      if prev.Some? {
        CloneMidStep(m, prev.value, old1, new1, n);
      }
    }
  }

  // --- level 2 ---

  ghost predicate RootCopy(m: Mem, m': Mem, a: nat, b: nat, i: nat) {
    var e := Entry(m.ram, a, i);
    var e' := Entry(m'.ram, b, i);
    if !Deep(e) then e' == e
    else
      && e'.flags == e.flags && NoExtraBits(e') && Owns(m, e'.ppn, Free) && Owns(m', e'.ppn, Mid(b, i))
      && MidTableCopy(m, m', e.ppn, e'.ppn)
  }

  ghost predicate MidTableCopy(m: Mem, m': Mem, a: nat, b: nat) {
    forall j: nat :: j < PTE_CNT ==> MidCopy(m, m', a, b, j)
  }

  lemma RootEntry(m: Mem, r: nat, i: nat)
    requires Inv(m) && r in m.roots && i < PTE_CNT
    ensures UpperOk(m, Entry(m.ram, r, i), Mid(r, i)) && !IsMid(m, r) && !IsLeaf(m, r)
    ensures r in m.owner ==> m.owner[r] == Root
    ensures var e := Entry(m.ram, r, i);
      Deep(e) ==> DeepEntry(e, Mid(r, i)) && Owns(m, e.ppn, Mid(r, i))
  {
    hide Entry;
    assert RootTableOk(m, r);
    RootRole(m, r);
  }

  lemma {:induction false} MidCostFrame(m: Mem, m': Mem, x: nat, t: nat, n: nat)
    requires Inv(m) && Grows(m, m', x) && IsMid(m, t) && t != x && !IsLeaf(m, x) && n <= PTE_CNT
    ensures MidCost(m'.ram, t, n) == MidCost(m.ram, t, n)
  {
    hide Inv, Grows, MidSlotCost;
    if n > 0 {
      MidCostFrame(m, m', x, t, n - 1);
      MidSlotCostFrame(m, m', x, t, n - 1);
    }
  }

  lemma RootSlotCostFrame(m: Mem, m': Mem, x: nat, r: nat, i: nat)
    requires Inv(m) && Grows(m, m', x) && r in m.roots && r != x && !IsLeaf(m, x) && !IsMid(m, x) && i < PTE_CNT
    ensures RootSlotCost(m'.ram, r, i) == RootSlotCost(m.ram, r, i)
  {
    hide Inv, Entry, MidCost, Grows;
    TablesInUse(m, r);
    EntriesKept(m, m', x, r);
    RootEntry(m, r, i);
    var e := Entry(m.ram, r, i);
    if Deep(e) { MidCostFrame(m, m', x, e.ppn, PTE_CNT); }
  }

  lemma {:induction false} RootCostFrame(m: Mem, m': Mem, x: nat, r: nat, n: nat)
    requires Inv(m) && Grows(m, m', x) && r in m.roots && r != x && !IsLeaf(m, x) && !IsMid(m, x) && n <= PTE_CNT
    ensures RootCost(m'.ram, r, n) == RootCost(m.ram, r, n)
  {
    hide Inv, Grows, RootSlotCost;
    if n > 0 {
      RootCostFrame(m, m', x, r, n - 1);
      RootSlotCostFrame(m, m', x, r, n - 1);
    }
  }

  lemma CloneRootSlotDeep(m: Mem, old2: nat, new2: nat, i: nat)
    requires Inv(m) && old2 in m.roots && new2 in m.roots && old2 != new2
    requires i < PTE_CNT && !Entry(m.ram, new2, i).flags.v
    requires Deep(Entry(m.ram, old2, i))
    ensures var e := Entry(m.ram, old2, i); var next := CloneRootSlot(m, old2, new2, i);
      && (next.Some? <==> |m.free| >= 1 + MidCost(m.ram, e.ppn, PTE_CNT))
      && (next.Some? ==>
            && Inv(next.value) && Grows(m, next.value, new2) && RootCopy(m, next.value, old2, new2, i)
            && SlotsKeptExcept(m, next.value, new2, i)
            && Takes(m, next.value, 1 + MidCost(m.ram, e.ppn, PTE_CNT)))
  {
    hide Inv, Entry, CopySlot, CloneMid, MidCopy;
    var e := Entry(m.ram, old2, i);
    RootEntry(m, old2, i);
    RootEntry(m, new2, i);
    CopySlotKeeps(m, new2, i, e, Mid(new2, i));
    if m.free == [] { return; }
    var (m1, p) := CopySlot(m, new2, i, e, Mid(new2, i)).value;
    MidCostFrame(m, m1, new2, e.ppn, PTE_CNT);
    CloneMidKeeps(m1, e.ppn, p, PTE_CNT);
    var next := CloneMid(m1, e.ppn, p, PTE_CNT);
    if next.None? { return; }
    var m2 := next.value;
    GrowsTrans(m, m1, m2, new2, p);
    TablesInUse(m1, new2);
    EntriesKept(m1, m2, p, new2);
    forall j: nat | j < PTE_CNT ensures MidCopy(m, m2, e.ppn, p, j) {
      MidCopyRebase(m, m1, m2, e.ppn, p, j, new2);
    }
  }

  lemma CloneRootSlotKeeps(m: Mem, old2: nat, new2: nat, i: nat)
    requires Inv(m) && old2 in m.roots && new2 in m.roots && old2 != new2
    requires i < PTE_CNT && !Entry(m.ram, new2, i).flags.v
    ensures var next := CloneRootSlot(m, old2, new2, i);
      && (next.Some? <==> |m.free| >= RootSlotCost(m.ram, old2, i))
      && (next.Some? ==>
            && Inv(next.value) && Grows(m, next.value, new2) && RootCopy(m, next.value, old2, new2, i)
            && SlotsKeptExcept(m, next.value, new2, i) && Takes(m, next.value, RootSlotCost(m.ram, old2, i)))
  {
    hide Inv, Entry, Grows, StoreEntry, CopySlot, CloneMid, MidCost, MidTableCopy, SlotsKeptExcept;
    var e := Entry(m.ram, old2, i);
    if Deep(e) {
      CloneRootSlotDeep(m, old2, new2, i);
    } else {
      RootEntry(m, old2, i);
      RootEntry(m, new2, i);
      ShallowSlot(m, new2, i, e);
    }
  }

  lemma RootCopyKept(m: Mem, m1: Mem, m2: Mem, a: nat, b: nat, i: nat, x: nat)
    requires Inv(m1) && RootCopy(m, m1, a, b, i) && Grows(m1, m2, x) && x in m1.roots
    requires Entry(m2.ram, b, i) == Entry(m1.ram, b, i)
    ensures RootCopy(m, m2, a, b, i)
  {
    hide Entry, MidCopy, Inv;
    var e, e' := Entry(m.ram, a, i), Entry(m1.ram, b, i);
    RootEntry(m1, x, 0);
    if Deep(e) {
      TablesInUse(m1, e'.ppn);
      EntriesKept(m1, m2, x, e'.ppn);
      forall j: nat | j < PTE_CNT ensures MidCopy(m, m2, e.ppn, e'.ppn, j) {
        MidCopyKept(m, m1, m2, e.ppn, e'.ppn, j, x);
      }
    }
  }

  lemma RootCopyRebase(m: Mem, m1: Mem, m2: Mem, a: nat, b: nat, i: nat, x: nat)
    requires Inv(m) && Grows(m, m1, x) && a in m.roots && x in m.roots && a != x && i < PTE_CNT
    requires RootCopy(m1, m2, a, b, i)
    ensures RootCopy(m, m2, a, b, i)
  {
    hide Inv, Entry, MidCopy;
    TablesInUse(m, a);
    EntriesKept(m, m1, x, a);
    RootEntry(m, a, i);
    RootEntry(m, x, i);
    var e, e' := Entry(m.ram, a, i), Entry(m2.ram, b, i);
    if Deep(e) {
      forall j: nat | j < PTE_CNT ensures MidCopy(m, m2, e.ppn, e'.ppn, j) {
        MidCopyRebase(m, m1, m2, e.ppn, e'.ppn, j, x);
      }
    }
  }

  ghost predicate RootCloned(m: Mem, m': Mem, old2: nat, new2: nat, n: nat) {
    && Inv(m') && Grows(m, m', new2) && EmptyFrom(m'.ram, new2, n)
    && (forall i: nat :: i < n ==> RootCopy(m, m', old2, new2, i))
    && Takes(m, m', RootCost(m.ram, old2, n))
  }

  lemma GrowsRoots(m: Mem, m': Mem, x: nat)
    requires Grows(m, m', x)
    ensures m'.roots == m.roots
  {
  }

  lemma CloneRootStep(m: Mem, m1: Mem, old2: nat, new2: nat, n: nat)
    requires Inv(m) && old2 in m.roots && new2 in m.roots && old2 != new2 && 0 < n <= PTE_CNT
    requires RootCloned(m, m1, old2, new2, n - 1)
    ensures CloneRootSlot(m1, old2, new2, n - 1).Some? <==> |m.free| >= RootCost(m.ram, old2, n)
    ensures CloneRootSlot(m1, old2, new2, n - 1).Some? ==>
      RootCloned(m, CloneRootSlot(m1, old2, new2, n - 1).value, old2, new2, n)
  {
    hide Inv, Entry, CloneRootSlot, RootCopy, RootSlotCost, Grows, Takes;
    TakesMore(m, m1, RootCost(m.ram, old2, n - 1));
    var i := n - 1;
    GrowsRoots(m, m1, new2);
    RootEntry(m, new2, i);
    RootSlotCostFrame(m, m1, new2, old2, i);
    CloneRootSlotKeeps(m1, old2, new2, i);
    var next := CloneRootSlot(m1, old2, new2, i);
    if next.None? { return; }
    var m2 := next.value;
    GrowsTrans(m, m1, m2, new2, new2);
    RootCopyRebase(m, m1, m2, old2, new2, i, new2);
    forall x: nat | x < i ensures RootCopy(m, m2, old2, new2, x) {
      RootCopyKept(m, m1, m2, old2, new2, x, new2);
    }
  }

  lemma {:induction false} CloneRootKeeps(m: Mem, old2: nat, new2: nat, n: nat)
    requires Inv(m) && old2 in m.roots && new2 in m.roots && old2 != new2 && n <= PTE_CNT
    requires EmptyTable(m.ram, new2)
    ensures CloneRoot(m, old2, new2, n).Some? <==> |m.free| >= RootCost(m.ram, old2, n)
    ensures CloneRoot(m, old2, new2, n).Some? ==>
      RootCloned(m, CloneRoot(m, old2, new2, n).value, old2, new2, n)
  {
    hide Inv, Entry, CloneRootSlot, RootCopy, Grows, RootSlotCost;
    if n == 0 {
      GrowsRefl(m, new2);
    } else {
      CloneRootKeeps(m, old2, new2, n - 1);
      hide RootCloned;
      var prev := CloneRoot(m, old2, new2, n - 1);
      if prev.Some? {
        CloneRootStep(m, prev.value, old2, new2, n);
      }
    }
  }
}
