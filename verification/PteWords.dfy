/** The 64-bit words that the page-table operations leave in memory. */
module PteWords {
  import opened Common
  import opened Bytes
  import opened Sv39
  import opened PageTables
  import opened Mapping
  import opened Ranges

  /** The level-0 table that the entries on the way to `va` lead to. */
  function SlotTable(ram: Ram, root: nat, va: nat): nat {
    Entry(ram, Entry(ram, root, Vpn2(va)).ppn, Vpn1(va)).ppn
  }

  /** The word of the level-0 entry for `va`: the eight bytes at its place in the table. */
  function SlotWord(ram: Ram, root: nat, va: nat): nat {
    VpnBounds(va);
    if SlotTable(ram, root, va) in ram then PageWord(ram[SlotTable(ram, root, va)], Vpn0(va)) else 0
  }

  lemma SlotWordIs(ram: Ram, root: nat, va: nat)
    requires SlotTable(ram, root, va) in ram
    ensures SlotWord(ram, root, va) == PteBits(SlotEntry(ram, root, va))
  {
    hide Vpn2, Vpn1, Vpn0, LoadPte, PteBits, PageWord;
    VpnBounds(va);
    PageWordIs(ram[SlotTable(ram, root, va)], Vpn0(va));
  }

  /** The leaf that a walk finds is the word in its slot. */
  lemma WalkedWord(ram: Ram, root: nat, va: nat)
    requires Walk(ram, root, va).Found? && Walk(ram, root, va).level == 0
    ensures SlotWord(ram, root, va) == PteBits(Walk(ram, root, va).pte)
  {
    hide Vpn2, Vpn1, Vpn0, LoadPte, PteBits, SlotWord;
    SlotWordIs(ram, root, va);
  }

  /** A new table is referred to by its page number and V alone. */
  lemma NewTableWord(m: Mem, t: nat, i: nat, role: Role)
    requires Inv(m) && m.free != [] && SlotFor(m, t, i, role) && !Entry(m.ram, t, i).flags.v
    ensures var ram := CreateTable(m, t, i, role).0.ram;
      t in ram && PageWord(ram[t], i) == 0x400 * m.free[0] + 1
  {
    hide Inv, LoadPte, StorePte, PteBits, PageWord, TablePte;
    NewTableFits(m, t, i, role, NO_FLAGS);
    var (m1, p) := AllocPage(m).value;
    EntriesAfterStore(m1, t, i, TablePte(p, NO_FLAGS));
    PageWordIs(CreateTable(m, t, i, role).0.ram[t], i);
    TableBits(m, p);
  }

  lemma TableBits(m: Mem, p: nat)
    requires Inv(m) && p in m.owner
    ensures PteBits(TablePte(p, NO_FLAGS)) == 0x400 * p + 1
  {
    hide Inv;
    PpnFits(m, p);
  }

  /** Mapping a page leaves in its slot the page number from bit 10 on and the flags below. */
  lemma MapPageWord(m: Mem, root: nat, va: nat, rwxug: Flags)
    requires Inv(m) && Mappable(m, root, va) && MapPage(m, root, va, rwxug).Some?
    ensures m.free != []
    ensures SlotWord(MapPage(m, root, va, rwxug).value.ram, root, va) == 0x400 * m.free[0] + LeafByte(rwxug)
  {
    hide Inv, WalkAt, LeafFlags, PteBits, SlotWord, Entry, Vpn2, Vpn1, Vpn0, LeafByte, AllocPage, WalkPt, Overwrite;
    RemapKeeps(m, root, va, rwxug);
    VpnBounds(va);
    WalkedWord(MapPage(m, root, va, rwxug).value.ram, root, va);
    LeafBits(LeafPte(m.free[0], rwxug), rwxug);
  }

  lemma MapRangeWords(m: Mem, root: nat, va: nat, n: nat, rwxug: Flags, x: nat)
    requires Inv(m) && RangeMappable(m, root, va, n) && MapRange(m, root, va, n, rwxug).Some? && x < n
    ensures var ram := MapRange(m, root, va, n, rwxug).value.ram; var a := PageVa(va, x);
      SlotWord(ram, root, a) == 0x400 * PageAt(ram, root, a) + LeafByte(rwxug)
  {
    hide Inv, WalkAt, LeafFlags, PteBits, SlotWord, Mappable, LeafByte, MapRange, RangeTables, PageVa;
    hide RolesButRange, GivenUp, WalksKeptOutside, NoNewGlobals;
    RemapRangeKeeps(m, root, va, n, rwxug);
    var m' := MapRange(m, root, va, n, rwxug).value;
    assert FreshlyMapped(m, m', root, PageVa(va, x), rwxug);
    WalkedWord(m'.ram, root, PageVa(va, x));
    LeafBits(Walk(m'.ram, root, PageVa(va, x)).pte, rwxug);
  }

  /** Setting flags replaces the low byte of the word and keeps the rest. */
  lemma SetPageFlagsWord(m: Mem, root: nat, va: nat, rwxug: Flags)
    requires Inv(m) && Mappable(m, root, va) && Wellformed(va) && TablesNeeded(m, root, va) == 0
    ensures SetPageFlags(m, root, va, rwxug).Some?
    ensures var ram := SetPageFlags(m, root, va, rwxug).value.ram;
      SlotWord(ram, root, va) == SlotWord(m.ram, root, va) - SlotWord(m.ram, root, va) % 0x100 + LeafByte(rwxug)
  {
    hide Inv, Entry, StorePte, PteBits, SlotWord, LeafByte;
    VpnBounds(va);
    TablesFound(m, root, va);
    var t := Entry(m.ram, root, Vpn2(va)).ppn;
    var l, k := Entry(m.ram, t, Vpn1(va)).ppn, Vpn0(va);
    var e0 := Entry(m.ram, l, k);
    var e: Pte := RawPte.Pte(LeafFlags(rwxug), e0.rsw, e0.ppn, e0.attr);
    StoreLeafWalk(m, l, k, e, root, Vpn2(va), t, Vpn1(va), root, Vpn2(va), Vpn1(va), k);
    WalkedWord(SetPageFlags(m, root, va, rwxug).value.ram, root, va);
    SlotWordIs(m.ram, root, va);
    LowByteReplaced(e0, e, rwxug);
  }

  lemma LowByteReplaced(e0: Pte, e: Pte, rwxug: Flags)
    requires e == RawPte.Pte(LeafFlags(rwxug), e0.rsw, e0.ppn, e0.attr)
    ensures PteBits(e) == PteBits(e0) - PteBits(e0) % 0x100 + LeafByte(rwxug)
  {
    hide FlagBits, LeafFlags, LeafByte;
    LeafBits(e, rwxug);
    DivMod(FlagBits(e0.flags), e0.rsw + 4 * (e0.ppn + PPN_LIMIT * e0.attr), 0x100);
  }
}
