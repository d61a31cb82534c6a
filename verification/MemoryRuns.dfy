/** Page ownership over whole runs: from memory_init on, through any sequence of allocations,
    frees, mappings, flag changes, user stores and clones. */
module MemoryRuns {
  import opened Common
  import opened Bytes
  import opened Sv39
  import opened PageTables
  import opened Mapping
  import opened Ranges
  import opened UserMemory
  import opened Clone
  import opened CloneTheorems

  // --- memory_init ---

  function Upto(lo: nat, hi: nat): (s: seq<nat>)
    requires lo <= hi
    ensures |s| == hi - lo && forall x :: 0 <= x < |s| ==> s[x] == lo + x
  {
    seq(hi - lo, x requires 0 <= x => lo + x)
  }

  /** The `next` word of page p of the initial list. */
  function InitLink(p: nat, hi: nat): nat { if p + 1 < hi then (p + 1) * PAGE_SIZE else 0 }

  /** Memory when the links of pages lo to n - 1 have been written. */
  function LinkedUpto(ram: Ram, lo: nat, n: nat, hi: nat): Ram {
    map p | p in ram :: if lo <= p < n then StoreLink(ram[p], InitLink(p, hi)) else ram[p]
  }

  lemma LinkOneMore(ram: Ram, lo: nat, n: nat, hi: nat)
    requires lo <= n && n in ram
    ensures LinkedUpto(ram, lo, n + 1, hi) ==
            LinkedUpto(ram, lo, n, hi)[n := StoreLink(ram[n], InitLink(n, hi))]
    ensures LinkedUpto(ram, lo, n, hi)[n] == ram[n] && LinkedUpto(ram, lo, lo, hi) == ram
  {
    hide StoreLink;
  }

  /** Pages lo to hi - 1 are linked in order; the rest of memory is as the boot code left it. */
  function InitState(ram: Ram, lo: nat, hi: nat, mainRoot: nat, kernel: set<nat>): Mem
    requires lo <= hi && forall p :: lo <= p < hi ==> p in ram
  {
    Mem(LinkedUpto(ram, lo, hi, hi), map p | p in ram && lo <= p < hi :: Free,
        Upto(lo, hi), {mainRoot}, kernel)
  }

  /** The statically allocated tables: the main level-2 table and the kernel's own tables refer to
      kernel tables and to leaves only, and lie outside the managed pages. */
  ghost predicate BootTables(ram: Ram, lo: nat, hi: nat, mainRoot: nat, kernel: set<nat>) {
    && 0 < lo < hi < PPN_LIMIT && (forall p :: lo <= p < hi ==> p in ram)
    && mainRoot in ram && mainRoot !in kernel && !(lo <= mainRoot < hi)
    && KernelTable(ram, mainRoot, kernel)
    && (forall i: nat :: i < PTE_CNT && Entry(ram, mainRoot, i).flags.v ==> Entry(ram, mainRoot, i).flags.g)
    && (forall t :: t in kernel ==> t in ram && !(lo <= t < hi) && KernelTable(ram, t, kernel))
  }

  predicate KernelTable(ram: Ram, t: nat, kernel: set<nat>) {
    forall i | 0 <= i < PTE_CNT :: KernelEntry(Entry(ram, t, i), kernel)
  }

  predicate KernelEntry(e: Pte, kernel: set<nat>) { e.flags.v && Pointer(e) ==> e.ppn in kernel }

  lemma InitFree(ram: Ram, lo: nat, hi: nat, mainRoot: nat, kernel: set<nat>)
    requires BootTables(ram, lo, hi, mainRoot, kernel)
    ensures FreeOk(InitState(ram, lo, hi, mainRoot, kernel))
  {
    hide StoreLink, Link;
    var m := InitState(ram, lo, hi, mainRoot, kernel);
    forall p: nat ensures Owns(m, p, Free) <==> p in m.free {
      if lo <= p < hi { assert m.free[p - lo] == p; }
    }
    forall x | 0 <= x < |m.free| ensures Link(m.ram[m.free[x]]) == ListAddr(m.free, x + 1) {
      assert m.free[x] == lo + x;
      LinkAfterStore(ram[lo + x], InitLink(lo + x, hi));
    }
  }

  lemma InitKeeps(ram: Ram, lo: nat, hi: nat, mainRoot: nat, kernel: set<nat>)
    requires BootTables(ram, lo, hi, mainRoot, kernel)
    ensures Inv(InitState(ram, lo, hi, mainRoot, kernel))
  {
    InitFree(ram, lo, hi, mainRoot, kernel);
    hide LoadPte, StoreLink, FreeOk, Upto;
    var m := InitState(ram, lo, hi, mainRoot, kernel);
    assert forall t: nat, i: nat :: !(lo <= t < hi) ==> Entry(m.ram, t, i) == Entry(ram, t, i);
    hide Entry;
    forall t | t in m.kernel ensures KernelTableOk(m, t) {
      forall j | 0 <= j < PTE_CNT ensures StaysInKernel(m, Entry(m.ram, t, j)) {
        assert KernelEntry(Entry(ram, t, j), kernel);
      }
    }
    forall i | 0 <= i < PTE_CNT ensures UpperOk(m, Entry(m.ram, mainRoot, i), Mid(mainRoot, i)) {
      assert KernelEntry(Entry(ram, mainRoot, i), kernel);
    }
  }

  // --- runs ---

  datatype Event =
    | AllocEvent
    | FreeEvent(p: nat)
    | MapEvent(root: nat, va: nat, flags: Flags)
    | FlagsEvent(root: nat, va: nat, flags: Flags)
    | StoreEvent(root: nat, va: nat, bytes: seq<Byte>)
    | CloneEvent(root: nat)

  /** What the caller owes: a page given back is one it holds, no global entry is on the way to
      an address where a page is mapped (another page may be mapped there already), and flags are
      changed and bytes stored at mapped user pages. */
  ghost predicate Allowed(m: Mem, ev: Event) {
    if ev.FreeEvent? then Owns(m, ev.p, Held)
    else if ev.MapEvent? then Wellformed(ev.va) && Mappable(m, ev.root, ev.va)
    else if ev.FlagsEvent? then UserByte(m, ev.root, ev.va) && !ev.flags.g
    else if ev.StoreEvent? then UserRange(m, ev.root, ev.va, ev.va + |ev.bytes|)
    else if ev.CloneEvent? then ev.root in m.roots
    else true
  }

  /** One event; none where the kernel panics for want of pages. */
  function Apply(m: Mem, ev: Event): Option<Mem> {
    match ev
    case AllocEvent => if m.free == [] then None else Some(AllocPage(m).value.0)
    case FreeEvent(p) => if p in m.ram then Some(FreePage(m, p)) else Some(m)
    case MapEvent(root, va, flags) => MapPage(m, root, va, flags)
    case FlagsEvent(root, va, flags) => SetPageFlags(m, root, va, flags)
    case StoreEvent(root, va, bs) => Some(StoreBytes(m, root, va, bs))
    case CloneEvent(root) => var c := CloneSpace(m, root); if c.None? then None else Some(c.value.0)
  }

  /** m' is reached from m by the events, each of them allowed when it happens. */
  ghost predicate Run(m: Mem, evs: seq<Event>, m': Mem)
    decreases |evs|
  {
    if evs == [] then m' == m
    else
      && Allowed(m, evs[0]) && Apply(m, evs[0]).Some?
      && Run(Apply(m, evs[0]).value, evs[1..], m')
  }

  lemma ApplyKeeps(m: Mem, ev: Event)
    requires Inv(m) && Allowed(m, ev) && Apply(m, ev).Some?
    ensures Inv(Apply(m, ev).value) && Apply(m, ev).value.owner.Keys == m.owner.Keys
  {
    hide Inv, WalkAt, Mappable, UserByte, UserRange, MapPage, SetPageFlags, StoreBytes, CloneSpace;
    match ev
    case AllocEvent => AllocKeeps(m);
    case FreeEvent(p) => FreeKeeps(m, p);
    case MapEvent(root, va, flags) => RemapKeeps(m, root, va, flags);
    case FlagsEvent(root, va, flags) =>
      assert root in m.roots && Wellformed(va) && IsUser(Walk(m.ram, root, va)) by { UserByteMeans(m, root, va); }
      SetPageFlagsKeeps(m, root, va, flags);
    case StoreEvent(root, va, bs) => StoreBytesKeeps(m, root, va, bs);
    case CloneEvent(root) =>
      CloneIsFaithful(m, root);
  }

  lemma UserByteMeans(m: Mem, root: nat, va: nat)
    requires UserByte(m, root, va)
    ensures root in m.roots && Wellformed(va) && IsUser(Walk(m.ram, root, va))
  {
  }

  /** The pages that are not on the free list. */
  function InUse(m: Mem): set<nat> { set p | p in m.owner && m.owner[p] != Free }

  function SetOf(s: seq<nat>): set<nat> { set p | p in s }

  lemma FreeSet(m: Mem)
    requires Inv(m)
    ensures m.owner.Keys == InUse(m) + SetOf(m.free) && InUse(m) !! SetOf(m.free)
  {
    hide TreeOk, Linked, Distinct;
    forall p ensures p in m.owner.Keys <==> p in InUse(m) || p in m.free {
      assert Owns(m, p, Free) <==> p in m.free;
    }
    forall p | p in InUse(m) ensures p !in m.free {
      assert Owns(m, p, Free) <==> p in m.free;
    }
  }

  lemma {:induction false} DistinctCount(s: seq<nat>)
    requires Distinct(s)
    ensures |SetOf(s)| == |s|
  {
    if s != [] {
      var n := |s| - 1;
      var front := s[..n];
      assert s == front + [s[n]];
      assert Distinct(front) && s[n] !in front;
      DistinctCount(front);
      assert SetOf(s) == SetOf(front) + {s[n]};
    }
  }

  /** After any run, the managed pages are the same ones and each has one role: those on the free
      list, which has no duplicates, and those in use make up the whole. */
  lemma {:induction false} RunConservesPages(m: Mem, evs: seq<Event>, m': Mem)
    requires Inv(m) && Run(m, evs, m')
    ensures Inv(m') && m'.owner.Keys == m.owner.Keys
    ensures |m'.free| + |InUse(m')| == |m'.owner.Keys| && forall p :: p in m'.free ==> p !in InUse(m')
    decreases |evs|
  {
    hide Allowed, Apply, Inv;
    if evs == [] {
      FreeSet(m);
      assert Distinct(m.free) by { FreeDistinct(m); }
      DistinctCount(m.free);
    } else {
      ApplyKeeps(m, evs[0]);
      RunConservesPages(Apply(m, evs[0]).value, evs[1..], m');
    }
  }

  lemma FreeDistinct(m: Mem)
    requires Inv(m)
    ensures Distinct(m.free)
  {
  }
}
