/** The bytes at virtual addresses: loads and stores through the page tables at user pages. */
module UserMemory {
  import opened Common
  import opened Bytes
  import opened Sv39
  import opened PageTables
  import opened Mapping
  import opened Ranges

  function Offset(va: nat): nat { va % PAGE_SIZE }

  /** The byte that the walk of `va` leads to. The leaf's flags do not matter here: whether a program
      may load it, or the kernel store it, is up to them. */
  function ByteAt(ram: Ram, root: nat, va: nat): Option<Byte> {
    var w := Walk(ram, root, va);
    if w.Found? && w.level == 0 && w.pte.ppn in ram then Some(ram[w.pte.ppn][Offset(va)]) else None
  }

  predicate UserByte(m: Mem, root: nat, va: nat) {
    root in m.roots && Wellformed(va) && IsUser(Walk(m.ram, root, va))
  }

  ghost predicate UserRange(m: Mem, root: nat, lo: nat, hi: nat) {
    forall va: nat :: lo <= va < hi ==> UserByte(m, root, va)
  }

  /** The bytes at va onwards are bs. */
  ghost predicate HoldsBytes(m: Mem, root: nat, va: nat, bs: seq<Byte>) {
    forall a: nat :: va <= a < va + |bs| ==> ByteAt(m.ram, root, a) == Some(bs[a - va])
  }

  /** Only the contents of pages with the role Data differ. */
  ghost predicate OnlyData(m: Mem, m': Mem) {
    && m'.owner == m.owner && m'.free == m.free && m'.roots == m.roots && m'.kernel == m.kernel
    && m'.ram.Keys == m.ram.Keys
    && forall p :: p in m.ram && !(p in m.owner && m.owner[p].Data?) ==> m'.ram[p] == m.ram[p]
  }

  lemma OnlyDataTables(m: Mem, m': Mem)
    requires Inv(m) && OnlyData(m, m')
    ensures forall t, x :: IsTable(m, t) ==> Entry(m'.ram, t, x) == Entry(m.ram, t, x)
  {
    hide RootTableOk, RoleOk, KernelTableOk, FreeOk, LoadPte;
  }

  lemma OnlyDataKeeps(m: Mem, m': Mem)
    requires Inv(m) && OnlyData(m, m')
    ensures Inv(m') && SameWalks(m, m')
  {
    OnlyDataTables(m, m');
    assert FreeOk(m') by {
      hide TreeOk;
      assert forall p :: p in m.free ==> Owns(m, p, Free);
      LinkedFrame(m.ram, m'.ram, m.free);
      hide Linked, Distinct;
      forall q ensures Owns(m', q, Free) <==> q in m'.free {
        assert Owns(m, q, Free) <==> q in m.free;
      }
    }
    OnlyDataTree(m, m');
    hide Entry, FreeOk, WalkAt, OnlyData;
    forall r, i: nat, j: nat, k: nat | r in m.roots && i < PTE_CNT && j < PTE_CNT && k < PTE_CNT
      ensures WalkAt(m'.ram, r, i, j, k) == WalkAt(m.ram, r, i, j, k)
    {
      WalkFrame(m, m'.ram, r, i, j, k);
    }
  }

  lemma OnlyDataRole(m: Mem, m': Mem, q: nat)
    requires Inv(m) && OnlyData(m, m') && q in m.owner
    ensures RoleOk(m', q)
  {
    hide Entry, FreeOk, RootsOk, KernelOk;
    OnlyDataTables(m, m');
    assert RoleOk(m, q);
  }

  lemma OnlyDataTree(m: Mem, m': Mem)
    requires Inv(m) && OnlyData(m, m')
    ensures TreeOk(m')
  {
    OnlyDataTables(m, m');
    forall q | q in m'.owner ensures RoleOk(m', q) {
      OnlyDataRole(m, m', q);
    }
    hide Entry, FreeOk, RoleOk;
    forall r | r in m'.roots ensures RootTableOk(m', r) {
      assert RootTableOk(m, r);
    }
    forall t | t in m'.kernel ensures KernelTableOk(m', t) {
      assert KernelTableOk(m, t);
    }
  }

  /** A store instruction; a fault leaves memory as it is. */
  function StoreByte(m: Mem, root: nat, va: nat, b: Byte): Mem {
    var w := Walk(m.ram, root, va);
    if w.Found? && w.level == 0 && w.pte.ppn in m.ram then
      var p := w.pte.ppn;
      Mem(m.ram[p := m.ram[p][Offset(va) := b]], m.owner, m.free, m.roots, m.kernel)
    else m
  }

  /** memcpy or memset to user pages. */
  function StoreBytes(m: Mem, root: nat, va: nat, bs: seq<Byte>): Mem {
    if bs == [] then m
    else
      var n := |bs| - 1;
      StoreByte(StoreBytes(m, root, va, bs[..n]), root, va + n, bs[n])
  }

  /** Outside [lo, hi) of the space of `root`, every user byte of every space is as before. */
  ghost predicate BytesKeptOutside(m: Mem, m': Mem, root: nat, lo: nat, hi: nat) {
    forall r, va: nat :: UserByte(m, r, va) && !(r == root && lo <= va < hi) ==>
      ByteAt(m'.ram, r, va) == ByteAt(m.ram, r, va)
  }

  lemma StoreByteKeeps(m: Mem, root: nat, va: nat, b: Byte)
    requires Inv(m) && UserByte(m, root, va)
    ensures var m' := StoreByte(m, root, va, b);
      && Inv(m') && OnlyData(m, m') && SameWalks(m, m')
      && ByteAt(m'.ram, root, va) == Some(b)
      && BytesKeptOutside(m, m', root, va, va + 1)
  {
    hide Inv, Entry, WalkAt, Vpn2, Vpn1, Vpn0;
    VpnBounds(va);
    var t, l := UserPath(m, root, Vpn2(va), Vpn1(va), Vpn0(va));
    var p := PageAt(m.ram, root, va);
    assert p in m.ram by { PpnFits(m, p); }
    var m' := StoreByte(m, root, va, b);
    OnlyDataKeeps(m, m');
    forall r, va': nat | UserByte(m, r, va') && !(r == root && va' == va)
      ensures ByteAt(m'.ram, r, va') == ByteAt(m.ram, r, va')
    {
      VpnBounds(va');
      if PageAt(m.ram, r, va') == p {
        UserPagesDistinct(m, root, Vpn2(va), Vpn1(va), Vpn0(va), r, Vpn2(va'), Vpn1(va'), Vpn0(va'));
        PageOf(va, va');
      }
    }
  }

  /** In physical memory: a user byte is on the page that its address translates to, at the offset of
      its lowest twelve bits. */
  lemma ByteIsAt(m: Mem, root: nat, va: nat)
    requires Inv(m) && UserByte(m, root, va)
    ensures var p := PageAt(m.ram, root, va);
      p in m.ram && ByteAt(m.ram, root, va) == Some(m.ram[p][va % 0x1000])
    ensures Translate(m.ram, root, va).Mapped? ==> Translate(m.ram, root, va).page == PageAt(m.ram, root, va)
  {
    hide Inv, Entry, WalkAt, Vpn2, Vpn1, Vpn0;
    VpnBounds(va);
    var _, _ := UserPath(m, root, Vpn2(va), Vpn1(va), Vpn0(va));
    PpnFits(m, PageAt(m.ram, root, va));
  }

  /** What m' is after the bytes bs were stored at va in m. */
  ghost predicate Stored(m: Mem, m': Mem, root: nat, va: nat, bs: seq<Byte>) {
    && Inv(m') && OnlyData(m, m') && SameWalks(m, m')
    && HoldsBytes(m', root, va, bs)
    && BytesKeptOutside(m, m', root, va, va + |bs|)
  }

  lemma {:induction false} StoreBytesKeeps(m: Mem, root: nat, va: nat, bs: seq<Byte>)
    requires Inv(m) && UserRange(m, root, va, va + |bs|)
    ensures Stored(m, StoreBytes(m, root, va, bs), root, va, bs)
  {
    if bs == [] {
      StoreNothing(m, root, va);
    } else {
      var n := |bs| - 1;
      assert UserRange(m, root, va, va + n);
      StoreBytesKeeps(m, root, va, bs[..n]);
      hide Inv, Stored, UserRange, StoreByte;
      StoreOneMore(m, StoreBytes(m, root, va, bs[..n]), root, va, bs);
    }
  }

  lemma StoreNothing(m: Mem, root: nat, va: nat)
    requires Inv(m)
    ensures Stored(m, m, root, va, [])
  {
    hide Inv, WalkAt, ByteAt;
  }

  lemma StoreOneMore(m: Mem, m1: Mem, root: nat, va: nat, bs: seq<Byte>)
    requires Inv(m) && bs != [] && UserRange(m, root, va, va + |bs|)
    requires Stored(m, m1, root, va, bs[..|bs| - 1])
    ensures Stored(m, StoreByte(m1, root, va + |bs| - 1, bs[|bs| - 1]), root, va, bs)
  {
    hide Inv, StoreByte, OnlyData, ByteAt, UserByte, SameWalks, HoldsBytes, BytesKeptOutside;
    var n := |bs| - 1;
    OnlyDataTrans(m, m1, m1);
    SameUserBytes(m, m1);
    assert UserByte(m1, root, va + n);
    StoreByteKeeps(m1, root, va + n, bs[n]);
    var m' := StoreByte(m1, root, va + n, bs[n]);
    OnlyDataTrans(m, m1, m');
    SameWalksTrans(m, m1, m');
    ByteAppended(m, m1, m', root, va, bs);
  }

  lemma ByteAppended(m: Mem, m1: Mem, m2: Mem, root: nat, va: nat, bs: seq<Byte>)
    requires bs != [] && UserRange(m, root, va, va + |bs|)
    requires forall r, a: nat :: UserByte(m, r, a) <==> UserByte(m1, r, a)
    requires HoldsBytes(m1, root, va, bs[..|bs| - 1]) && BytesKeptOutside(m, m1, root, va, va + |bs| - 1)
    requires ByteAt(m2.ram, root, va + |bs| - 1) == Some(bs[|bs| - 1])
    requires BytesKeptOutside(m1, m2, root, va + |bs| - 1, va + |bs|)
    ensures HoldsBytes(m2, root, va, bs) && BytesKeptOutside(m, m2, root, va, va + |bs|)
  {
    hide ByteAt, UserByte;
    forall a: nat | va <= a < va + |bs| ensures ByteAt(m2.ram, root, a) == Some(bs[a - va]) {
      assert UserByte(m, root, a);
    }
  }

  lemma OnlyDataTrans(m: Mem, m1: Mem, m2: Mem)
    requires OnlyData(m, m1) && (OnlyData(m1, m2) || m1 == m2)
    ensures OnlyData(m, m2) && m1.roots == m.roots
  {
  }

  lemma SameWalksTrans(m: Mem, m1: Mem, m2: Mem)
    requires SameWalks(m, m1) && SameWalks(m1, m2) && m1.roots == m.roots
    ensures SameWalks(m, m2)
  {
    hide WalkAt;
  }

  lemma SameUserBytes(m: Mem, m': Mem)
    requires SameWalks(m, m') && m'.roots == m.roots
    ensures forall r, va: nat :: UserByte(m, r, va) <==> UserByte(m', r, va)
  {
    hide WalkAt, Wellformed, Vpn2, Vpn1, Vpn0;
    forall r, va: nat ensures UserByte(m, r, va) <==> UserByte(m', r, va) {
      VpnBounds(va);
    }
  }

  // --- isolation ---

  /** A store through one address space leaves every user byte of every other one alone. */
  lemma StoresAreIsolated(m: Mem, root: nat, va: nat, bs: seq<Byte>, other: nat, va': nat)
    requires Inv(m) && UserRange(m, root, va, va + |bs|)
    requires other != root && UserByte(m, other, va')
    ensures var m' := StoreBytes(m, root, va, bs);
      Walk(m'.ram, other, va') == Walk(m.ram, other, va') && ByteAt(m'.ram, other, va') == ByteAt(m.ram, other, va')
  {
    hide Inv, WalkAt, Vpn2, Vpn1, Vpn0, Wellformed;
    StoreBytesKeeps(m, root, va, bs);
    VpnBounds(va');
  }
}
