/** Sv39 page-table entries and pages: the structures of memory.c and memory.h, and address
    translation as the RISC-V Privileged Architecture manual defines it (sections 4.3.2 and 4.4). */
module Sv39 {
  import opened Bytes

  const PAGE_SIZE: nat := 4096
  const PTE_CNT: nat := 512
  const PPN_LIMIT: nat := 0x1000_0000_0000 // 2^44

  type Page = bytes: seq<Byte> | |bytes| == PAGE_SIZE witness seq(PAGE_SIZE, _ => 0)

  function ZeroPage(): Page { seq(PAGE_SIZE, _ => 0) }

  // --- page-table entries ---

  datatype Flags = Flags(v: bool, r: bool, w: bool, x: bool, u: bool, g: bool, a: bool, d: bool)

  const NO_FLAGS := Flags(false, false, false, false, false, false, false, false)

  /** Bit `b` in front of the bits of `rest`. */
  function Push(b: bool, rest: nat): nat { (if b then 1 else 0) + 2 * rest }

  function FlagBits(f: Flags): Byte {
    Push(f.v, Push(f.r, Push(f.w, Push(f.x, Push(f.u, Push(f.g, Push(f.a, Push(f.d, 0))))))))
  }

  function BitFlags(b: nat): Flags {
    var b1 := b / 2; var b2 := b1 / 2; var b3 := b2 / 2; var b4 := b3 / 2;
    var b5 := b4 / 2; var b6 := b5 / 2; var b7 := b6 / 2;
    Flags(b % 2 == 1, b1 % 2 == 1, b2 % 2 == 1, b3 % 2 == 1,
          b4 % 2 == 1, b5 % 2 == 1, b6 % 2 == 1, b7 % 2 == 1)
  }

  /** struct pte; `attr` holds the reserved, pbmt and n bit-fields. */
  datatype RawPte = Pte(flags: Flags, rsw: nat, ppn: nat, attr: nat)

  type Pte = e: RawPte | e.rsw < 4 && e.ppn < PPN_LIMIT && e.attr < 1024 witness NULL_PTE

  const NULL_PTE: RawPte := RawPte.Pte(NO_FLAGS, 0, 0, 0)

  function PteBits(e: Pte): (n: nat)
    ensures n < TWO_64
  {
    FlagBits(e.flags) + 0x100 * e.rsw + 0x400 * e.ppn + 0x40_0000_0000_0000 * e.attr
  }

  function BitsPte(n: nat): Pte
    requires n < TWO_64
  {
    RawPte.Pte(BitFlags(n % 256), n / 0x100 % 4, n / 0x400 % PPN_LIMIT, n / 0x40_0000_0000_0000)
  }

  lemma Pop(b: bool, rest: nat)
    ensures Push(b, rest) / 2 == rest && (Push(b, rest) % 2 == 1 <==> b)
  {
  }

  lemma FlagsRoundTrip(f: Flags)
    ensures BitFlags(FlagBits(f)) == f
  {
    hide Push;
    var b7 := Push(f.d, 0);
    var b6 := Push(f.a, b7);
    var b5 := Push(f.g, b6);
    var b4 := Push(f.u, b5);
    var b3 := Push(f.x, b4);
    var b2 := Push(f.w, b3);
    var b1 := Push(f.r, b2);
    Pop(f.d, 0);
    Pop(f.a, b7);
    Pop(f.g, b6);
    Pop(f.u, b5);
    Pop(f.x, b4);
    Pop(f.w, b3);
    Pop(f.r, b2);
    Pop(f.v, b1);
  }

  lemma PteRoundTrip(e: Pte)
    ensures BitsPte(PteBits(e)) == e
  {
    FlagsRoundTrip(e.flags);
    hide FlagBits, BitFlags;
    var afterFlags := e.rsw + 4 * (e.ppn + PPN_LIMIT * e.attr);
    DivMod(FlagBits(e.flags), afterFlags, 0x100);
    DivMod(e.rsw, e.ppn + PPN_LIMIT * e.attr, 4);
    DivMod(FlagBits(e.flags) + 0x100 * e.rsw, e.ppn + PPN_LIMIT * e.attr, 0x400);
    DivMod(e.ppn, e.attr, PPN_LIMIT);
    DivMod(FlagBits(e.flags) + 0x100 * e.rsw + 0x400 * e.ppn, e.attr, 0x40_0000_0000_0000);
  }

  // --- the layout of struct pte ---

  /** The flags in the low byte of the word, V in bit 0 to D in bit 7. */
  predicate HasFlags(n: nat, f: Flags) {
    && (n % 2 == 1 <==> f.v) && (n / 2 % 2 == 1 <==> f.r) && (n / 4 % 2 == 1 <==> f.w) && (n / 8 % 2 == 1 <==> f.x)
    && (n / 16 % 2 == 1 <==> f.u) && (n / 32 % 2 == 1 <==> f.g) && (n / 64 % 2 == 1 <==> f.a)
    && (n / 128 % 2 == 1 <==> f.d)
  }

  /** The 64-bit word n has the fields of e: the flags, rsw from bit 8 on, ppn from bit 10 on, and
      the others from bit 54 on. */
  predicate HasFields(n: nat, e: Pte) {
    && HasFlags(n, e.flags)
    && n / 0x100 % 4 == e.rsw && n / 0x400 % PPN_LIMIT == e.ppn && n / 0x40_0000_0000_0000 == e.attr
  }

  lemma LowBit(n: nat, b: nat, h: nat)
    requires n == 2 * h + b
    ensures n % 2 == b % 2
  {
    assert b == 2 * (b / 2) + b % 2;
    assert n == 2 * (h + b / 2) + b % 2;
  }

  lemma Shifted(n: nat, b: nat, h: nat)
    requires n == 4 * h + b
    ensures n / 2 == 2 * h + b / 2 && n % 2 == b % 2
  {
    assert b == 2 * (b / 2) + b % 2;
    assert n == 2 * (2 * h + b / 2) + b % 2;
  }

  lemma Halves(n: nat)
    ensures n / 4 == n / 2 / 2 && n / 8 == n / 4 / 2 && n / 16 == n / 8 / 2 && n / 32 == n / 16 / 2
    ensures n / 64 == n / 32 / 2 && n / 128 == n / 64 / 2
  {
  }

  lemma LowNibble(n: nat, b: nat, h: nat)
    requires n == 16 * h + b
    ensures n % 2 == b % 2 && n / 2 % 2 == b / 2 % 2 && n / 4 % 2 == b / 4 % 2 && n / 8 % 2 == b / 8 % 2
    ensures n / 16 == h + b / 16
  {
    Halves(n);
    Halves(b);
    Shifted(n, b, 4 * h);
    Shifted(n / 2, b / 2, 2 * h);
    Shifted(n / 4, b / 4, h);
    LowBit(n / 8, b / 8, h);
  }

  lemma HighNibble(n: nat)
    ensures n / 32 == n / 16 / 2 && n / 64 == n / 16 / 4 && n / 128 == n / 16 / 8
  {
  }

  lemma BitFlagsLayout(n: nat)
    ensures HasFlags(n, BitFlags(n % 256))
  {
    var b, h := n % 256, n / 256;
    LowNibble(n, b, 16 * h);
    LowNibble(n / 16, b / 16, h);
    HighNibble(n);
    HighNibble(b);
    Halves(b);
  }

  lemma SameFlags(n: nat, f: Flags, g: Flags)
    requires HasFlags(n, f) && HasFlags(n, g)
    ensures f == g
  {
  }

  lemma Unpop(n: nat)
    ensures Push(n % 2 == 1, n / 2) == n
  {
  }

  lemma BitsRoundTrip(b: Byte)
    ensures FlagBits(BitFlags(b)) == b
  {
    hide Push;
    var b1 := b / 2; var b2 := b1 / 2; var b3 := b2 / 2; var b4 := b3 / 2;
    var b5 := b4 / 2; var b6 := b5 / 2; var b7 := b6 / 2;
    Unpop(b); Unpop(b1); Unpop(b2); Unpop(b3); Unpop(b4); Unpop(b5); Unpop(b6); Unpop(b7);
  }

  lemma WordSplit(n: nat)
    ensures n == n % 256 + 0x100 * (n / 0x100 % 4) + 0x400 * (n / 0x400 % PPN_LIMIT)
                 + 0x40_0000_0000_0000 * (n / 0x40_0000_0000_0000)
  {
    assert n / 0x400 == n / 0x100 / 4;
    assert n / 0x40_0000_0000_0000 == n / 0x400 / PPN_LIMIT;
  }

  lemma WordRoundTrip(n: nat)
    requires n < TWO_64
    ensures PteBits(BitsPte(n)) == n
  {
    hide FlagBits, BitFlags;
    BitsRoundTrip(n % 256);
    WordSplit(n);
  }

  /** Decoding and encoding put every field where the layout has it: a word stands for an entry if
      and only if it has its fields there. */
  lemma PteLayout(n: nat, e: Pte)
    requires n < TWO_64
    ensures HasFields(n, e) <==> BitsPte(n) == e
    ensures HasFields(n, e) <==> PteBits(e) == n
  {
    hide HasFlags, BitFlags, FlagBits;
    BitFlagsLayout(n);
    if HasFields(n, e) { SameFlags(n, e.flags, BitFlags(n % 256)); }
    PteRoundTrip(e);
    if BitsPte(n) == e { WordRoundTrip(n); }
  }

  /** leaf_pte: the caller's R, W, X, U and G flags plus A, D and V. */
  function LeafFlags(rwxug: Flags): Flags { rwxug.(v := true, a := true, d := true) }

  function LeafPte(ppn: nat, rwxug: Flags): Pte {
    RawPte.Pte(LeafFlags(rwxug), 0, ppn % PPN_LIMIT, 0)
  }

  /** ptab_pte: a pointer to a table of the next level. */
  function TablePte(ppn: nat, flags: Flags): Pte {
    RawPte.Pte(flags.(v := true), 0, ppn % PPN_LIMIT, 0)
  }

  /** The low byte of a leaf's word: V, A and D, and of the flags asked for R in bit 1 to G in bit 5. */
  function LeafByte(rwxug: Flags): Byte {
    0xC1 + (if rwxug.r then 0x02 else 0) + (if rwxug.w then 0x04 else 0) + (if rwxug.x then 0x08 else 0)
         + (if rwxug.u then 0x10 else 0) + (if rwxug.g then 0x20 else 0)
  }

  lemma LeafBits(e: Pte, rwxug: Flags)
    requires e.flags == LeafFlags(rwxug)
    ensures PteBits(e) % 0x100 == LeafByte(rwxug)
    ensures PteBits(e) == LeafByte(rwxug) + 0x100 * e.rsw + 0x400 * e.ppn + 0x40_0000_0000_0000 * e.attr
  {
  }

  predicate Pointer(e: Pte) { !e.flags.r && !e.flags.w && !e.flags.x }

  // --- entries and words inside pages ---

  function LoadPte(page: Page, i: nat): Pte
    requires i < PTE_CNT
  {
    Pow256At8();
    BitsPte(FromLe(page[8 * i..8 * i + 8]))
  }

  function StorePte(page: Page, i: nat, e: Pte): Page
    requires i < PTE_CNT
  {
    page[..8 * i] + ToLe(PteBits(e), 8) + page[8 * i + 8..]
  }

  lemma LoadStore(page: Page, i: nat, e: Pte, j: nat)
    requires i < PTE_CNT && j < PTE_CNT
    ensures LoadPte(StorePte(page, i, e), j) == if j == i then e else LoadPte(page, j)
  {
    var stored := StorePte(page, i, e);
    Pow256At8();
    if j == i {
      assert stored[8 * i..8 * i + 8] == ToLe(PteBits(e), 8);
      FromToLe(PteBits(e), 8);
      PteRoundTrip(e);
    } else {
      assert stored[8 * j..8 * j + 8] == page[8 * j..8 * j + 8] by { hide PteBits, ToLe; }
    }
  }

  /** The 64-bit word at entry i of a page. */
  function PageWord(page: Page, i: nat): (n: nat)
    requires i < PTE_CNT
    ensures n < TWO_64
  {
    Pow256At8();
    FromLe(page[8 * i..8 * i + 8])
  }

  lemma PageWordIs(page: Page, i: nat)
    requires i < PTE_CNT
    ensures PageWord(page, i) == PteBits(LoadPte(page, i))
  {
    hide BitsPte, PteBits, FromLe;
    WordRoundTrip(PageWord(page, i));
  }

  lemma StoreStore(page: Page, i: nat, e: Pte, f: Pte)
    requires i < PTE_CNT
    ensures StorePte(StorePte(page, i, e), i, f) == StorePte(page, i, f)
  {
    hide PteBits, ToLe;
  }

  lemma LoadZero(i: nat)
    requires i < PTE_CNT
    ensures LoadPte(ZeroPage(), i) == NULL_PTE
  {
    hide FromLe, BitsPte;
    FromLeZeros(ZeroPage()[8 * i..8 * i + 8]);
    ZeroPte();
  }

  lemma ZeroPte()
    ensures BitsPte(0) == NULL_PTE
  {
  }

  lemma {:induction false} FromLeZeros(z: seq<Byte>)
    requires forall i :: 0 <= i < |z| ==> z[i] == 0
    ensures FromLe(z) == 0
  {
    if z != [] { FromLeZeros(z[1..]); }
  }
}
