/** The state that memory.c manages: physical pages, the free list threaded through the free pages,
    and the three-level page tables of every address space. `owner` is a ghost ledger that gives
    each managed page its one role; a table or data page records the table entry that refers to it,
    so that no page can be referred to twice. */
module PageTables {
  import opened Common
  import opened Bytes
  import opened Sv39

  type Ram = map<nat, Page>

  datatype Role =
    | Free                              // on the free list
    | Held                              // handed out by memory_alloc_page
    | Root                              // level-2 table of an address space
    | Mid(parent: nat, idx: nat)        // level-1 table
    | Leaf(parent: nat, idx: nat)       // level-0 table
    | Data(parent: nat, idx: nat)       // mapped by one non-global level-0 entry
    | Shared                            // mapped by global level-0 entries

  datatype Mem = Mem(
    ram: Ram,
    owner: map<nat, Role>,              // the managed pages
    free: seq<nat>,                     // the free list, head first
    roots: set<nat>,                    // level-2 tables in use
    kernel: set<nat>)                   // statically allocated tables of the global mapping

  // --- reading tables ---

  function Entry(ram: Ram, t: nat, i: nat): Pte {
    if t in ram && i < PTE_CNT then LoadPte(ram[t], i) else NULL_PTE
  }

  predicate Owns(m: Mem, p: nat, role: Role) { p in m.owner && m.owner[p] == role }

  predicate IsMid(m: Mem, t: nat) { t in m.owner && m.owner[t].Mid? }

  predicate IsLeaf(m: Mem, t: nat) { t in m.owner && m.owner[t].Leaf? }

  predicate RefersTo(m: Mem, t: nat, i: nat, p: nat) {
    i < PTE_CNT &&
    var e := Entry(m.ram, t, i);
    e.flags.v && !e.flags.g && e.ppn == p
  }

  // --- invariants ---

  /** A level-2 or level-1 entry: invalid, global, or a pointer to the one table with role `role`. */
  predicate UpperOk(m: Mem, e: Pte, role: Role) {
    e.flags.v ==>
      if e.flags.g then Pointer(e) ==> e.ppn in m.kernel
      else Pointer(e) && Owns(m, e.ppn, role)
  }

  /** A level-0 entry: invalid, global, or the one reference to a data page. */
  predicate LowerOk(m: Mem, e: Pte, role: Role) {
    e.flags.v ==>
      && e.flags.a && e.flags.d
      && if e.flags.g then e.ppn in m.owner ==> m.owner[e.ppn] == Shared
         else Owns(m, e.ppn, role)
  }

  predicate RootTableOk(m: Mem, r: nat) {
    forall i | 0 <= i < PTE_CNT :: UpperOk(m, Entry(m.ram, r, i), Mid(r, i))
  }

  predicate MidTableOk(m: Mem, t: nat) {
    forall j | 0 <= j < PTE_CNT :: UpperOk(m, Entry(m.ram, t, j), Leaf(t, j))
  }

  predicate LeafTableOk(m: Mem, l: nat) {
    forall k | 0 <= k < PTE_CNT :: LowerOk(m, Entry(m.ram, l, k), Data(l, k))
  }

  predicate KernelTableOk(m: Mem, t: nat) {
    forall j | 0 <= j < PTE_CNT :: StaysInKernel(m, Entry(m.ram, t, j))
  }

  predicate StaysInKernel(m: Mem, e: Pte) { e.flags.v && Pointer(e) ==> e.ppn in m.kernel }

  predicate RoleOk(m: Mem, p: nat)
    requires p in m.owner
  {
    var role := m.owner[p];
    if role.Root? then p in m.roots
    else if role.Mid? then
      && role.parent in m.roots && RefersTo(m, role.parent, role.idx, p) && MidTableOk(m, p)
    else if role.Leaf? then
      && IsMid(m, role.parent) && RefersTo(m, role.parent, role.idx, p) && LeafTableOk(m, p)
    else if role.Data? then
      && IsLeaf(m, role.parent) && RefersTo(m, role.parent, role.idx, p)
    else true
  }

  ghost predicate RootsOk(m: Mem) {
    forall r :: r in m.roots ==>
      && r in m.ram && r !in m.kernel && (r in m.owner ==> m.owner[r] == Root)
      && RootTableOk(m, r)
  }

  ghost predicate KernelOk(m: Mem) {
    forall t :: t in m.kernel ==> t in m.ram && t !in m.owner && KernelTableOk(m, t)
  }

  ghost predicate TreeOk(m: Mem) {
    && RootsOk(m)
    && KernelOk(m)
    && forall p :: p in m.owner ==> RoleOk(m, p)
  }

  /** The address in the `next` word of a free page, and of the list head; 0 is NULL. */
  function Link(page: Page): nat { FromLe(page[..8]) }

  function ListAddr(free: seq<nat>, x: nat): nat {
    if x < |free| then free[x] * PAGE_SIZE else 0
  }

  predicate Distinct(free: seq<nat>) {
    forall x, y :: 0 <= x < y < |free| ==> free[x] != free[y]
  }

  predicate Linked(ram: Ram, free: seq<nat>) {
    forall x :: 0 <= x < |free| ==>
      free[x] in ram && Link(ram[free[x]]) == ListAddr(free, x + 1)
  }

  ghost predicate FreeOk(m: Mem) {
    && (forall p :: p in m.owner ==> p in m.ram && 0 < p < PPN_LIMIT)
    && (forall p :: Owns(m, p, Free) <==> p in m.free)
    && Distinct(m.free)
    && Linked(m.ram, m.free)
  }

  ghost predicate Inv(m: Mem) { FreeOk(m) && TreeOk(m) }

  // --- the steps every operation is made of ---

  /** memory_alloc_page; none when the free list is empty, where the kernel panics. */
  function AllocPage(m: Mem): Option<(Mem, nat)> {
    if m.free == [] then None
    else
      var p := m.free[0];
      Some((Mem(m.ram[p := ZeroPage()], m.owner[p := Held], m.free[1..], m.roots, m.kernel), p))
  }

  function StoreLink(page: Page, addr: nat): Page { ToLe(addr, 8) + page[8..] }

  function FreePage(m: Mem, p: nat): Mem
    requires p in m.ram
  {
    Mem(m.ram[p := StoreLink(m.ram[p], ListAddr(m.free, 0))],
        m.owner[p := Free], [p] + m.free, m.roots, m.kernel)
  }

  function StoreEntry(m: Mem, t: nat, i: nat, e: Pte): Mem {
    if t in m.ram && i < PTE_CNT then
      Mem(m.ram[t := StorePte(m.ram[t], i, e)], m.owner, m.free, m.roots, m.kernel)
    else m
  }

  /** Store an entry that refers to page `p`, which thereby takes on `role`. */
  function Attach(m: Mem, t: nat, i: nat, e: Pte, role: Role): Mem {
    Mem(StoreEntry(m, t, i, e).ram, m.owner[e.ppn := role], m.free, m.roots, m.kernel)
  }

  /** In memory: each page on the free list begins with the address of the next one, the last with 0. */
  lemma FreeListWords(m: Mem, x: nat)
    requires Inv(m) && x < |m.free|
    ensures m.free[x] in m.ram
    ensures FromLe(m.ram[m.free[x]][0..8]) == if x + 1 < |m.free| then m.free[x + 1] * 0x1000 else 0
  {
    hide TreeOk, Distinct, FromLe;
    assert m.ram[m.free[x]][0..8] == m.ram[m.free[x]][..8];
  }

  lemma EntryAfterStore(m: Mem, t: nat, i: nat, e: Pte, t': nat, j: nat)
    requires t in m.ram && i < PTE_CNT
    ensures Entry(StoreEntry(m, t, i, e).ram, t', j) ==
            if t' == t && j == i then e else Entry(m.ram, t', j)
  {
    if j < PTE_CNT { LoadStore(m.ram[t], i, e, j); }
    hide LoadPte, StorePte;
  }

  lemma EntriesAfterStore(m: Mem, t: nat, i: nat, e: Pte)
    requires t in m.ram && i < PTE_CNT
    ensures forall t', j :: Entry(StoreEntry(m, t, i, e).ram, t', j) ==
                            (if t' == t && j == i then e else Entry(m.ram, t', j))
  {
    forall t', j
      ensures Entry(StoreEntry(m, t, i, e).ram, t', j) ==
              if t' == t && j == i then e else Entry(m.ram, t', j)
    {
      EntryAfterStore(m, t, i, e, t', j);
    }
  }

  predicate EmptyTable(ram: Ram, t: nat) {
    forall i | 0 <= i < PTE_CNT :: !Entry(ram, t, i).flags.v
  }

  lemma ZeroIsEmpty(ram: Ram, t: nat)
    requires t in ram && ram[t] == ZeroPage()
    ensures EmptyTable(ram, t)
  {
    forall i | 0 <= i < PTE_CNT ensures !Entry(ram, t, i).flags.v {
      LoadZero(i);
    }
  }

  // --- what each step keeps ---

  /** Moving a page that no table refers to between the free list and its holder. */
  lemma LoosePageKeeps(m: Mem, m': Mem, p: nat)
    requires TreeOk(m) && p in m.owner && m.owner[p] in {Free, Held}
    requires m'.ram.Keys == m.ram.Keys && m'.roots == m.roots && m'.kernel == m.kernel
    requires m'.owner.Keys == m.owner.Keys && m'.owner[p] in {Free, Held}
    requires forall q :: q in m.owner && q != p ==> m'.owner[q] == m.owner[q]
    requires forall t, i :: t != p ==> Entry(m'.ram, t, i) == Entry(m.ram, t, i)
    ensures TreeOk(m')
  {
    hide Entry;
    forall r | r in m'.roots ensures RootTableOk(m', r) {
      assert RootTableOk(m, r);
    }
    forall t | t in m'.kernel ensures KernelTableOk(m', t) {
      assert KernelTableOk(m, t);
    }
    forall q | q in m'.owner ensures RoleOk(m', q) {
      assert RoleOk(m, q);
    }
  }

  lemma LinkedTail(ram: Ram, free: seq<nat>, page: Page)
    requires free != [] && Distinct(free) && Linked(ram, free)
    ensures Distinct(free[1..]) && free[0] !in free[1..]
    ensures Linked(ram[free[0] := page], free[1..])
  {
    hide Link;
    var tail := free[1..];
    assert forall x :: 0 <= x < |tail| ==> tail[x] == free[x + 1] != free[0];
    forall x | 0 <= x < |tail| ensures Link(ram[tail[x]]) == ListAddr(tail, x + 1) {
      assert Link(ram[free[x + 1]]) == ListAddr(free, x + 2);
    }
  }

  lemma LinkedCons(ram: Ram, p: nat, free: seq<nat>, page: Page)
    requires Distinct(free) && Linked(ram, free) && p !in free
    requires Link(page) == ListAddr(free, 0)
    ensures Distinct([p] + free) && Linked(ram[p := page], [p] + free)
  {
    hide Link;
    var list := [p] + free;
    assert forall x :: 0 < x < |list| ==> list[x] == free[x - 1] != p;
    forall x | 0 <= x < |list|
      ensures list[x] in ram[p := page] && Link(ram[p := page][list[x]]) == ListAddr(list, x + 1)
    {
      if x > 0 { assert Link(ram[free[x - 1]]) == ListAddr(free, x); }
    }
  }

  lemma AllocKeepsFree(m: Mem)
    requires FreeOk(m) && m.free != []
    ensures FreeOk(AllocPage(m).value.0) && Owns(m, m.free[0], Free)
  {
    var p, m' := m.free[0], AllocPage(m).value.0;
    LinkedTail(m.ram, m.free, ZeroPage());
    hide Linked, Distinct, ZeroPage;
    assert p in m.free;
    forall q ensures Owns(m', q, Free) <==> q in m'.free {
      assert Owns(m, q, Free) <==> q in m.free;
      assert m.free == [p] + m'.free;
    }
  }

  lemma AllocKeeps(m: Mem)
    requires Inv(m) && m.free != []
    ensures var (m', p) := AllocPage(m).value;
      && Inv(m') && Owns(m, p, Free) && Owns(m', p, Held) && EmptyTable(m'.ram, p)
  {
    hide LoadPte, StorePte, FromLe, TreeOk;
    var (m', p) := AllocPage(m).value;
    AllocKeepsFree(m);
    ZeroIsEmpty(m'.ram, p);
    LoosePageKeeps(m, m', p);
  }

  lemma LinkAfterStore(page: Page, addr: nat)
    requires addr < TWO_64
    ensures Link(StoreLink(page, addr)) == addr
  {
    Pow256At8();
    FromToLe(addr, 8);
    assert StoreLink(page, addr)[..8] == ToLe(addr, 8);
  }

  lemma FreeKeepsFree(m: Mem, p: nat)
    requires FreeOk(m) && Owns(m, p, Held)
    ensures FreeOk(FreePage(m, p))
  {
    var m' := FreePage(m, p);
    if m.free != [] { assert Owns(m, m.free[0], Free); }
    LinkAfterStore(m.ram[p], ListAddr(m.free, 0));
    assert !Owns(m, p, Free);
    LinkedCons(m.ram, p, m.free, m'.ram[p]);
    hide Linked, Distinct, StoreLink;
    forall q ensures Owns(m', q, Free) <==> q in m'.free {
      assert Owns(m, q, Free) <==> q in m.free;
    }
  }

  lemma FreeKeeps(m: Mem, p: nat)
    requires Inv(m) && Owns(m, p, Held)
    ensures Inv(FreePage(m, p))
  {
    FreeKeepsFree(m, p);
    hide LoadPte, StoreLink, TreeOk;
    LoosePageKeeps(m, FreePage(m, p), p);
  }

  lemma LinkedFrame(ram: Ram, ram': Ram, free: seq<nat>)
    requires Linked(ram, free)
    requires forall p :: p in free ==> p in ram' && (p in ram ==> ram'[p] == ram[p])
    ensures Linked(ram', free)
  {
    hide Link;
  }

  /** Writing a page that is not free, or giving a held page another role. */
  lemma FreeFrame(m: Mem, m': Mem, t: nat)
    requires FreeOk(m) && !Owns(m, t, Free) && m'.free == m.free
    requires m'.ram.Keys == m.ram.Keys && forall p :: p in m.ram && p != t ==> m'.ram[p] == m.ram[p]
    requires m'.owner.Keys == m.owner.Keys
    requires forall p :: p in m.owner ==> m'.owner[p] == m.owner[p] || (m.owner[p] != Free && m'.owner[p] != Free)
    ensures FreeOk(m')
  {
    assert forall p :: p in m.free ==> Owns(m, p, Free);
    LinkedFrame(m.ram, m'.ram, m.free);
    hide Linked, Distinct;
    forall q ensures Owns(m', q, Free) <==> q in m'.free {
      assert Owns(m, q, Free) <==> q in m.free;
    }
  }

  /** Storing an invalid or global entry in an empty slot of a table of the space. */
  lemma StoreInertKeeps(m: Mem, t: nat, i: nat, e: Pte)
    requires Inv(m) && i < PTE_CNT && !Entry(m.ram, t, i).flags.v
    requires t in m.roots || IsMid(m, t) || IsLeaf(m, t)
    requires e.flags.v ==> e.flags.g
    requires if IsLeaf(m, t) then LowerOk(m, e, Data(t, i)) else UpperOk(m, e, Free)
    ensures t in m.ram && Inv(StoreEntry(m, t, i, e))
  {
    hide LoadPte, StorePte;
    var m' := StoreEntry(m, t, i, e);
    EntriesAfterStore(m, t, i, e);
    FreeFrame(m, m', t);
    hide FreeOk, Entry;
    forall r | r in m'.roots ensures RootTableOk(m', r) {
      assert RootTableOk(m, r);
    }
    forall k | k in m'.kernel ensures KernelTableOk(m', k) {
      assert KernelTableOk(m, k);
    }
    forall q | q in m'.owner ensures RoleOk(m', q) {
      assert RoleOk(m, q);
    }
  }

  predicate CanAttach(m: Mem, t: nat, i: nat, e: Pte, role: Role) {
    && e.flags.v && Owns(m, e.ppn, Held)
    && if IsLeaf(m, t) then
         e.flags.a && e.flags.d && role == if e.flags.g then Shared else Data(t, i)
       else
         && !e.flags.g && Pointer(e) && EmptyTable(m.ram, e.ppn)
         && ((t in m.roots && role == Mid(t, i)) || (IsMid(m, t) && role == Leaf(t, i)))
  }

  lemma AttachKeepsTables(m: Mem, t: nat, i: nat, e: Pte, role: Role)
    requires Inv(m) && i < PTE_CNT && !Entry(m.ram, t, i).flags.v
    requires CanAttach(m, t, i, e, role) && t in m.ram
    ensures RootsOk(Attach(m, t, i, e, role)) && KernelOk(Attach(m, t, i, e, role))
  {
    hide LoadPte, StorePte, FreeOk;
    var m' := Attach(m, t, i, e, role);
    EntriesAfterStore(m, t, i, e);
    hide Entry;
    forall r | r in m'.roots ensures RootTableOk(m', r) {
      assert RootTableOk(m, r);
    }
    forall k | k in m'.kernel ensures KernelTableOk(m', k) {
      assert KernelTableOk(m, k);
    }
  }

  lemma AttachKeepsRole(m: Mem, t: nat, i: nat, e: Pte, role: Role, q: nat)
    requires Inv(m) && i < PTE_CNT && !Entry(m.ram, t, i).flags.v
    requires CanAttach(m, t, i, e, role) && t in m.ram && q in m.owner
    ensures RoleOk(Attach(m, t, i, e, role), q)
  {
    hide LoadPte, StorePte, FreeOk, KernelOk;
    var m' := Attach(m, t, i, e, role);
    EntriesAfterStore(m, t, i, e);
    hide Entry;
    assert RoleOk(m, q);
  }

  /** Attaching a held page to an empty slot, one level below. */
  lemma AttachKeeps(m: Mem, t: nat, i: nat, e: Pte, role: Role)
    requires Inv(m) && i < PTE_CNT && !Entry(m.ram, t, i).flags.v
    requires CanAttach(m, t, i, e, role)
    ensures t in m.ram && Inv(Attach(m, t, i, e, role))
  {
    hide LoadPte, StorePte;
    var m' := Attach(m, t, i, e, role);
    FreeFrame(m, m', t);
    AttachKeepsTables(m, t, i, e, role);
    forall q | q in m'.owner ensures RoleOk(m', q) {
      AttachKeepsRole(m, t, i, e, role, q);
    }
  }
}
