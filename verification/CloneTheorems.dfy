/** What memory_space_clone gives: a faithful, isolated copy of the whole address space. */
module CloneTheorems {
  import opened Bytes
  import opened Sv39
  import opened PageTables
  import opened Mapping
  import opened UserMemory
  import opened PteWords
  import opened Clone

  /** The walk w' of the clone against the walk w of the original: unmapped and global pages are
      the same, any other page is a page that was free, with the same flags and contents. */
  ghost predicate WalkCopied(m: Mem, m': Mem, w: WalkResult, w': WalkResult) {
    if w.Unmapped? || w.global then w' == w
    else
      && IsUser(w) && IsUser(w') && w'.pte.flags == w.pte.flags && NoExtraBits(w'.pte)
      && Owns(m, w'.pte.ppn, Free) && w.pte.ppn in m.ram && w'.pte.ppn in m'.ram
      && m'.ram[w'.pte.ppn] == m.ram[w.pte.ppn]
  }

  lemma KernelLeafSame(m: Mem, m': Mem, x: nat, l: nat, k: nat)
    requires Inv(m) && Grows(m, m', x) && x !in m.kernel && l in m.kernel
    ensures WalkLeaf(m'.ram, l, true, k) == WalkLeaf(m.ram, l, true, k)
  {
    KernelTable(m, l);
    EntriesKept(m, m', x, l);
    hide Inv, Entry;
  }

  lemma KernelTable(m: Mem, l: nat)
    requires Inv(m) && l in m.kernel
    ensures l in m.ram && l !in m.owner && KernelTableOk(m, l)
  {
    hide KernelTableOk, RoleOk, RootTableOk, FreeOk;
  }

  lemma KernelMidSame(m: Mem, m': Mem, x: nat, t: nat, j: nat, k: nat)
    requires Inv(m) && Grows(m, m', x) && x !in m.kernel && t in m.kernel && j < PTE_CNT
    ensures WalkMid(m'.ram, t, true, j, k) == WalkMid(m.ram, t, true, j, k)
  {
    KernelTable(m, t);
    EntriesKept(m, m', x, t);
    hide Inv, Entry, WalkLeaf, Grows;
    var e := Entry(m.ram, t, j);
    assert StaysInKernel(m, e);
    if e.flags.v && Pointer(e) { KernelLeafSame(m, m', x, e.ppn, k); }
  }

  lemma LeafWalkCopied(m: Mem, m': Mem, l: nat, l': nat, k: nat)
    requires Inv(m) && IsLeaf(m, l) && k < PTE_CNT && LeafCopy(m, m', l, l', k)
    ensures WalkCopied(m, m', WalkLeaf(m.ram, l, false, k), WalkLeaf(m'.ram, l', false, k))
  {
    LeafEntry(m, l, k);
    hide Inv, Entry;
  }

  lemma MidWalkCopied(m: Mem, m': Mem, x: nat, t: nat, t': nat, j: nat, k: nat)
    requires Inv(m) && Grows(m, m', x) && x !in m.kernel
    requires IsMid(m, t) && j < PTE_CNT && k < PTE_CNT && MidCopy(m, m', t, t', j)
    ensures WalkCopied(m, m', WalkMid(m.ram, t, false, j, k), WalkMid(m'.ram, t', false, j, k))
  {
    MidEntry(m, t, j);
    hide Inv, Entry, LeafCopy, WalkLeaf, Grows;
    var e, e' := Entry(m.ram, t, j), Entry(m'.ram, t', j);
    if Deep(e) {
      LeafWalkCopied(m, m', e.ppn, e'.ppn, k);
    } else if e.flags.v && Pointer(e) {
      KernelLeafSame(m, m', x, e.ppn, k);
      GlobalLeaf(m.ram, e.ppn, k);
    }
  }

  lemma GlobalLeaf(ram: Ram, l: nat, k: nat)
    ensures var w := WalkLeaf(ram, l, true, k); w.Found? ==> w.global
  {
    hide Entry;
  }

  lemma GlobalMid(ram: Ram, t: nat, j: nat, k: nat)
    ensures var w := WalkMid(ram, t, true, j, k); w.Found? ==> w.global
  {
    hide Entry;
  }

  lemma RootWalkCopied(m: Mem, m': Mem, old2: nat, new2: nat, i: nat, j: nat, k: nat)
    requires Inv(m) && Grows(m, m', new2) && old2 in m.roots && new2 in m.roots
    requires i < PTE_CNT && j < PTE_CNT && k < PTE_CNT && RootCopy(m, m', old2, new2, i)
    ensures WalkCopied(m, m', WalkAt(m.ram, old2, i, j, k), WalkAt(m'.ram, new2, i, j, k))
  {
    RootEntry(m, old2, i);
    TablesInUse(m, new2);
    hide Inv, Entry, MidCopy, WalkMid, Grows, WalkCopied;
    var e, e' := Entry(m.ram, old2, i), Entry(m'.ram, new2, i);
    if Deep(e) {
      MidWalkCopied(m, m', new2, e.ppn, e'.ppn, j, k);
    } else if e.flags.v && Pointer(e) {
      KernelMidSame(m, m', new2, e.ppn, j, k);
      GlobalMid(m.ram, e.ppn, j, k);
      CopiedAsIs(m, m', WalkMid(m.ram, e.ppn, true, j, k));
    } else {
      CopiedAsIs(m, m', WalkAt(m.ram, old2, i, j, k));
    }
  }

  lemma CopiedAsIs(m: Mem, m': Mem, w: WalkResult)
    requires w.Unmapped? || w.global
    ensures WalkCopied(m, m', w, w)
  {
  }

  lemma AddRootRole(m: Mem, p: nat, q: nat)
    requires Inv(m) && Owns(m, p, Held) && q in m.owner
    ensures RoleOk(AddRoot(m, p), q)
  {
    hide FreeOk, Entry, RootsOk, KernelOk;
    assert RoleOk(m, q);
  }

  lemma AddRootTable(m: Mem, p: nat, r: nat)
    requires Inv(m) && Owns(m, p, Held) && EmptyTable(m.ram, p) && (r in m.roots || r == p)
    ensures RootTableOk(AddRoot(m, p), r)
  {
    hide FreeOk, Entry, KernelOk, RoleOk;
    if r != p { assert RootTableOk(m, r); }
  }

  /** A new, empty level-2 table is an address space. */
  lemma AddRootKeeps(m: Mem, p: nat)
    requires Inv(m) && Owns(m, p, Held) && EmptyTable(m.ram, p)
    ensures Inv(AddRoot(m, p)) && p !in m.roots
  {
    hide FreeOk, Entry, RoleOk, RootTableOk, EmptyTable;
    var m' := AddRoot(m, p);
    KernelPages(m, p);
    FreeFrame(m, m', p);
    forall q | q in m'.owner ensures RoleOk(m', q) {
      AddRootRole(m, p, q);
    }
    forall r | r in m'.roots ensures RootTableOk(m', r) {
      AddRootTable(m, p, r);
    }
    forall t | t in m'.kernel ensures KernelTableOk(m', t) {
      assert KernelTableOk(m, t);
    }
  }

  lemma KernelPages(m: Mem, p: nat)
    requires Inv(m) && p in m.owner
    ensures p !in m.kernel && p in m.ram
  {
    hide KernelTableOk, RoleOk, RootTableOk, Linked, Distinct;
  }

  /** Every page in use, and its role, is as it was. */
  ghost predicate Untouched(m: Mem, m': Mem) {
    forall q :: q in m.ram && !Owns(m, q, Free) ==>
      q in m'.ram && m'.ram[q] == m.ram[q] && (q in m.owner ==> Owns(m', q, m.owner[q]))
  }

  /** The space whose level-2 table has just been allocated. */
  lemma NewSpace(m: Mem, root: nat)
    requires Inv(m) && m.free != [] && root in m.roots
    ensures var (m1, p) := AllocPage(m).value; var ma := AddRoot(m1, p);
      && p == m.free[0] && Inv(ma) && Owns(m, p, Free) && p !in m.roots && EmptyTable(ma.ram, p)
      && root in ma.roots && ma.roots == m.roots + {p} && ma.free == m.free[1..]
      && SameWalks(m, ma) && Untouched(m, ma)
      && ma.owner.Keys == m.owner.Keys && ma.ram.Keys == m.ram.Keys
      && RootCost(ma.ram, root, PTE_CNT) == RootCost(m.ram, root, PTE_CNT)
  {
    AllocKeeps(m);
    AllocSameWalks(m);
    AllocKeepsFree(m);
    AllocGrows(m);
    var (m1, p) := AllocPage(m).value;
    AddRootKeeps(m1, p);
    hide Inv, Entry, ZeroPage, WalkAt, EmptyTable;
    RootCostFrame(m, m1, p, root, PTE_CNT);
  }

  lemma UntouchedTrans(m: Mem, ma: Mem, m': Mem, p: nat)
    requires Untouched(m, ma) && Grows(ma, m', p) && Owns(m, p, Free)
    requires ma.owner.Keys == m.owner.Keys && ma.ram.Keys == m.ram.Keys
    ensures Untouched(m, m')
    ensures forall q :: Owns(ma, q, Free) && q in m.owner && q in m.ram ==> Owns(m, q, Free)
  {
  }

  /** The clone of `root` in m is the space `copy` of m'. */
  ghost predicate Cloned(m: Mem, m': Mem, root: nat, copy: nat) {
    && Inv(m') && Untouched(m, m')
    && m'.owner.Keys == m.owner.Keys && m'.ram.Keys == m.ram.Keys
    && copy !in m.roots && m'.roots == m.roots + {copy} && Owns(m, copy, Free)
    && (forall i: nat, j: nat, k: nat :: i < PTE_CNT && j < PTE_CNT && k < PTE_CNT ==>
          WalkCopied(m, m', WalkAt(m.ram, root, i, j, k), WalkAt(m'.ram, copy, i, j, k)))
    && SameWalks(m, m')
  }

  /** memory_space_clone succeeds exactly when the free list holds one root and one page for each
      table and user page to copy. */
  lemma CloneSucceeds(m: Mem, root: nat)
    requires Inv(m) && root in m.roots
    ensures CloneSpace(m, root).Some? <==> |m.free| >= 1 + RootCost(m.ram, root, PTE_CNT)
  {
    hide Inv, Entry, WalkAt, CloneRoot, AddRoot, RootCost, RootCloned, ZeroPage, SameWalks, Untouched;
    if m.free == [] { return; }
    NewSpace(m, root);
    var (m1, p) := AllocPage(m).value;
    CloneRootKeeps(AddRoot(m1, p), root, p, PTE_CNT);
  }

  /** It takes exactly those pages; the result is a faithful copy, and the original, with all its
      pages, is as before. */
  lemma CloneIsFaithful(m: Mem, root: nat)
    requires Inv(m) && root in m.roots && CloneSpace(m, root).Some?
    ensures var (m', copy) := CloneSpace(m, root).value;
      Takes(m, m', 1 + RootCost(m.ram, root, PTE_CNT)) && Cloned(m, m', root, copy)
  {
    hide Inv, Entry, WalkAt, CloneRoot, AddRoot, RootCost, ZeroPage, Takes;
    hide Cloned, RootCloned, SameWalks, Untouched;
    NewSpace(m, root);
    var (m1, p) := AllocPage(m).value;
    var ma := AddRoot(m1, p);
    CloneRootKeeps(ma, root, p, PTE_CNT);
    var m' := CloneRoot(ma, root, p, PTE_CNT).value;
    TakesAfter(m, ma, m', root, p);
    ClonedFromNewSpace(m, ma, m', root, p);
  }

  lemma TakesAfter(m: Mem, ma: Mem, m': Mem, root: nat, p: nat)
    requires m.free != [] && ma.free == m.free[1..] && RootCloned(ma, m', root, p, PTE_CNT)
    ensures Takes(m, m', 1 + RootCost(ma.ram, root, PTE_CNT))
  {
    hide Inv, RootCost, RootCopy, Grows;
    var n := RootCost(ma.ram, root, PTE_CNT);
    assert m.free[1..][n..] == m.free[1 + n..];
  }

  lemma WalkCopiedSince(m: Mem, ma: Mem, m': Mem, root: nat, i: nat, j: nat, k: nat, w': WalkResult)
    requires Inv(m) && root in m.roots && Untouched(m, ma) && i < PTE_CNT && j < PTE_CNT && k < PTE_CNT
    requires m.owner.Keys == ma.owner.Keys && m.ram.Keys == ma.ram.Keys
    requires WalkCopied(ma, m', WalkAt(m.ram, root, i, j, k), w')
    ensures WalkCopied(m, m', WalkAt(m.ram, root, i, j, k), w')
  {
    hide Inv, WalkAt, Entry;
    var w := WalkAt(m.ram, root, i, j, k);
    if IsUser(w) {
      var t, l := UserPath(m, root, i, j, k);
      PpnFits(m, w.pte.ppn);
      if w'.Found? && w'.pte.ppn in m.owner { PpnFits(m, w'.pte.ppn); }
    }
  }

  lemma OtherWalksKept(m: Mem, m': Mem, p: nat, r: nat, i: nat, j: nat, k: nat)
    requires Inv(m) && Grows(m, m', p) && p in m.roots && r in m.roots && r != p
    requires i < PTE_CNT && j < PTE_CNT && k < PTE_CNT
    ensures WalkAt(m'.ram, r, i, j, k) == WalkAt(m.ram, r, i, j, k)
  {
    hide Inv, WalkAt, Entry, Grows;
    RootEntry(m, p, 0);
    TablesInUse(m, p);
    forall t, x | IsTable(m, t) && (t in m.roots ==> t == r)
      ensures Entry(m'.ram, t, x) == Entry(m.ram, t, x)
    {
      if t in m.kernel { KernelTable(m, t); } else { TablesInUse(m, t); }
      EntriesKept(m, m', p, t);
    }
    assert TreeOk(m) by { InvTree(m); }
    WalkFrame(m, m'.ram, r, i, j, k);
  }

  lemma InvTree(m: Mem)
    requires Inv(m)
    ensures TreeOk(m)
  {
  }

  lemma ClonedFromNewSpace(m: Mem, ma: Mem, m': Mem, root: nat, p: nat)
    requires Inv(m) && Inv(ma) && root in m.roots && p !in m.roots && ma.roots == m.roots + {p}
    requires m.owner.Keys == ma.owner.Keys && m.ram.Keys == ma.ram.Keys
    requires SameWalks(m, ma) && Untouched(m, ma) && Owns(m, p, Free)
    requires RootCloned(ma, m', root, p, PTE_CNT)
    ensures Cloned(m, m', root, p)
  {
    hide Inv, Entry, WalkAt, Grows, RootCopy, WalkCopied, Untouched;
    SameRoots(ma, m', p);
    assert Untouched(m, m') by { UntouchedTrans(m, ma, m', p); }
    forall i: nat, j: nat, k: nat | i < PTE_CNT && j < PTE_CNT && k < PTE_CNT
      ensures WalkCopied(m, m', WalkAt(m.ram, root, i, j, k), WalkAt(m'.ram, p, i, j, k))
    {
      RootWalkCopied(ma, m', root, p, i, j, k);
      WalkCopiedSince(m, ma, m', root, i, j, k, WalkAt(m'.ram, p, i, j, k));
    }
    forall r, i: nat, j: nat, k: nat | r in m.roots && i < PTE_CNT && j < PTE_CNT && k < PTE_CNT
      ensures WalkAt(m'.ram, r, i, j, k) == WalkAt(m.ram, r, i, j, k)
    {
      OtherWalksKept(ma, m', p, r, i, j, k);
    }
  }

  lemma SameRoots(m: Mem, m': Mem, x: nat)
    requires Grows(m, m', x)
    ensures m'.roots == m.roots && m'.owner.Keys == m.owner.Keys && m'.ram.Keys == m.ram.Keys
  {
  }

  // --- in terms of virtual addresses ---

  /** Every address translates in the clone exactly when it did in the original, with the same
      flags: global addresses to the same page, others to a page that was free and holds a copy. */
  lemma CloneTranslates(m: Mem, m': Mem, root: nat, copy: nat, va: nat)
    requires Cloned(m, m', root, copy)
    ensures var t, t' := Translate(m.ram, root, va), Translate(m'.ram, copy, va);
      if t.Fault? || t.global then t' == t
      else
        && t'.Mapped? && t'.flags == t.flags && !t'.global && Owns(m, t'.page, Free)
        && t.page in m.ram && t'.page in m'.ram && m'.ram[t'.page] == m.ram[t.page]
  {
    hide Inv, WalkAt, Vpn2, Vpn1, Vpn0, Untouched, SameWalks;
    VpnBounds(va);
    assert WalkCopied(m, m', Walk(m.ram, root, va), Walk(m'.ram, copy, va));
  }

  /** The word in the clone's slot for a user page has the new page number and the old low byte. */
  lemma ClonedWord(m: Mem, m': Mem, root: nat, copy: nat, va: nat)
    requires root in m.roots && Cloned(m, m', root, copy) && UserByte(m, root, va)
    ensures IsUser(Walk(m'.ram, copy, va))
    ensures SlotWord(m'.ram, copy, va) ==
            0x400 * Walk(m'.ram, copy, va).pte.ppn + SlotWord(m.ram, root, va) % 0x100
  {
    hide Inv, WalkAt, Vpn2, Vpn1, Vpn0, Untouched, SameWalks, PteBits, SlotWord;
    VpnBounds(va);
    assert WalkCopied(m, m', Walk(m.ram, root, va), Walk(m'.ram, copy, va));
    WalkedWord(m.ram, root, va);
    WalkedWord(m'.ram, copy, va);
    LowByte(Walk(m.ram, root, va).pte, Walk(m'.ram, copy, va).pte);
  }

  lemma LowByte(e: Pte, e': Pte)
    requires e'.flags == e.flags && NoExtraBits(e')
    ensures PteBits(e') == 0x400 * e'.ppn + PteBits(e) % 0x100
  {
    hide FlagBits;
    DivMod(FlagBits(e.flags), e.rsw + 4 * (e.ppn + PPN_LIMIT * e.attr), 0x100);
  }

  /** The clone and the original read the same user bytes as before, and from then on a store
      through either is invisible through the other. */
  lemma CloneIsIsolated(m: Mem, m': Mem, root: nat, copy: nat, va: nat, bs: seq<Byte>, va': nat)
    requires Inv(m) && Cloned(m, m', root, copy) && UserByte(m, root, va')
    ensures UserByte(m', root, va') && UserByte(m', copy, va')
    ensures ByteAt(m'.ram, copy, va') == ByteAt(m'.ram, root, va') == ByteAt(m.ram, root, va')
    ensures UserRange(m', root, va, va + |bs|) ==>
      ByteAt(StoreBytes(m', root, va, bs).ram, copy, va') == ByteAt(m.ram, root, va')
    ensures UserRange(m', copy, va, va + |bs|) ==>
      ByteAt(StoreBytes(m', copy, va, bs).ram, root, va') == ByteAt(m.ram, root, va')
  {
    hide Inv, WalkAt, Vpn2, Vpn1, Vpn0, StoreBytes, UserRange;
    VpnBounds(va');
    var w, w' := Walk(m.ram, root, va'), Walk(m'.ram, copy, va');
    assert WalkCopied(m, m', w, w');
    assert Walk(m'.ram, root, va') == w;
    var t, l := UserPath(m, root, Vpn2(va'), Vpn1(va'), Vpn0(va'));
    if UserRange(m', root, va, va + |bs|) { StoresAreIsolated(m', root, va, bs, copy, va'); }
    if UserRange(m', copy, va, va + |bs|) { StoresAreIsolated(m', copy, va, bs, root, va'); }
  }
}
