/** mkfs.c: the image of a list of files, built in memory and written from front to back. */
module Mkfs {
  import opened Bytes
  import opened IoLit
  import opened KfsFormat
  import opened MkfsImage

  // --- stores into packed structures ---

  /** A store of bytes at an offset. */
  method Store(mem: array<Byte>, off: nat, bytes: seq<Byte>)
    requires off + |bytes| <= mem.Length
    modifies mem
    ensures mem[..] == Written(old(mem[..]), off, bytes)
  {
    forall i | 0 <= i < |bytes| { mem[off + i] := bytes[i]; }
    assert mem[..] == Written(old(mem[..]), off, bytes);
  }

  /** A uint32_t member. */
  method Store32(mem: array<Byte>, off: nat, n: nat)
    requires off + 4 <= mem.Length && n < 0x1_0000_0000
    modifies mem
    ensures mem[..] == Written(old(mem[..]), off, ToLe(n, 4))
    ensures Le32(mem[..], off) == n
  {
    Store(mem, off, ToLe(n, 4));
    Stored32(old(mem[..]), off, n);
  }

  lemma Stored32(mem: seq<Byte>, off: nat, n: nat)
    requires off + 4 <= |mem| && n < 0x1_0000_0000
    ensures Le32(Written(mem, off, ToLe(n, 4)), off) == n
  {
    Pow256At4();
    FromToLe(n, 4);
    WriteThenRead(mem, off, ToLe(n, 4), 0);
  }

  /** Fields that a store does not touch. */
  lemma Untouched32(mem: seq<Byte>, off: nat, bytes: seq<Byte>, at: nat)
    requires off + |bytes| <= |mem| && at + 4 <= |mem| && (at + 4 <= off || off + |bytes| <= at)
    ensures Le32(Written(mem, off, bytes), at) == Le32(mem, at)
  {
    var w := Written(mem, off, bytes);
    assert w[at..at + 4] == mem[at..at + 4];
  }

  lemma UntouchedDentry(boot: seq<Byte>, off: nat, bytes: seq<Byte>, x: nat, name: CString)
    requires |boot| == BLKSZ && x < DENTRIES && DentryOk(boot, x, name) && off + |bytes| <= BLKSZ
    requires off + |bytes| <= DentryAt(x) || DentryAt(x + 1) <= off
    ensures DentryOk(Written(boot, off, bytes), x, name)
  {
    Untouched32(boot, off, bytes, DentryAt(x) + NAMELEN);
    var w := Written(boot, off, bytes);
    assert w[DentryAt(x)..DentryAt(x) + NAMELEN] == boot[DentryAt(x)..DentryAt(x) + NAMELEN];
  }

  // --- the boot block ---

  /** The entries of the first k files. */
  predicate EntriesOk(boot: seq<Byte>, files: seq<InFile>, k: nat)
    requires |boot| == BLKSZ && k <= |files| <= DENTRIES
  {
    && (forall x :: 0 <= x < k ==> DentryOk(boot, x, files[x].name))
    && (forall x :: k <= x < DENTRIES ==> boot[DentryAt(x)] == 0)
  }

  lemma NewEntry(boot: seq<Byte>, k: nat, name: CString, b1: seq<Byte>, b2: seq<Byte>)
    requires |boot| == BLKSZ && k < DENTRIES
    requires b1 == Written(boot, DentryAt(k), NameField(name))
    requires b2 == Written(b1, DentryAt(k) + NAMELEN, ToLe(k, 4))
    ensures DentryOk(b2, k, name)
  {
    hide Le32, NameField;
    Stored32(b1, DentryAt(k) + NAMELEN, k);
    WriteThenRead(boot, DentryAt(k), NameField(name), 0);
    assert b2[DentryAt(k)..DentryAt(k) + NAMELEN] == b1[DentryAt(k)..DentryAt(k) + NAMELEN];
  }

  /** The two stores of one entry leave the others alone. */
  lemma OtherEntry(boot: seq<Byte>, k: nat, field: seq<Byte>, b1: seq<Byte>, b2: seq<Byte>, x: nat, name: CString)
    requires |boot| == BLKSZ && k < DENTRIES && x < DENTRIES && x != k && |field| == NAMELEN
    requires b1 == Written(boot, DentryAt(k), field)
    requires b2 == Written(b1, DentryAt(k) + NAMELEN, ToLe(k, 4))
    ensures x < k && DentryOk(boot, x, name) ==> DentryOk(b2, x, name)
    ensures x > k ==> b2[DentryAt(x)] == boot[DentryAt(x)]
  {
    hide DentryOk, Written;
    if x > k {
      UntouchedByte(boot, DentryAt(k), field, DentryAt(x));
      UntouchedByte(b1, DentryAt(k) + NAMELEN, ToLe(k, 4), DentryAt(x));
    } else if DentryOk(boot, x, name) {
      UntouchedDentry(boot, DentryAt(k), field, x, name);
      UntouchedDentry(b1, DentryAt(k) + NAMELEN, ToLe(k, 4), x, name);
    }
  }

  lemma EntryAdded(boot: seq<Byte>, files: seq<InFile>, k: nat, b1: seq<Byte>, b2: seq<Byte>)
    requires |boot| == BLKSZ && k < |files| <= DENTRIES && EntriesOk(boot, files, k)
    requires b1 == Written(boot, DentryAt(k), NameField(files[k].name))
    requires b2 == Written(b1, DentryAt(k) + NAMELEN, ToLe(k, 4))
    ensures EntriesOk(b2, files, k + 1)
  {
    hide DentryOk, NameField, Written, DentryAt;
    var field := NameField(files[k].name);
    NewEntry(boot, k, files[k].name, b1, b2);
    forall x | 0 <= x < k ensures DentryOk(b2, x, files[x].name) {
      OtherEntry(boot, k, field, b1, b2, x, files[x].name);
    }
    forall x | k + 1 <= x < DENTRIES ensures DentryAt(x) < BLKSZ && b2[DentryAt(x)] == 0 {
      EntryInside(x);
      assert boot[DentryAt(x)] == 0;
      OtherEntry(boot, k, field, b1, b2, x, []);
    }
  }

  lemma EntryInside(x: nat)
    requires x < DENTRIES
    ensures DentryAt(x) + 64 <= BLKSZ
  {
  }

  lemma UntouchedByte(mem: seq<Byte>, off: nat, bytes: seq<Byte>, at: nat)
    requires off + |bytes| <= at < |mem|
    ensures Written(mem, off, bytes)[at] == mem[at]
  {
  }

  /** The first loop: one entry for each file, in order. */
  method FillEntries(boot: array<Byte>, files: seq<InFile>)
    requires boot.Length == BLKSZ && |files| <= DENTRIES && EntriesOk(boot[..], files, 0)
    modifies boot
    ensures EntriesOk(boot[..], files, |files|)
  {
    hide EntriesOk, DentryOk, NameField, Le32;
    var k := 0;
    while k < |files|
      invariant 0 <= k <= |files| && EntriesOk(boot[..], files, k)
    {
      ghost var b0 := boot[..];
      Store(boot, DentryAt(k), NameField(files[k].name));
      ghost var b1 := boot[..];
      Store32(boot, DentryAt(k) + NAMELEN, k);
      EntryAdded(b0, files, k, b1, boot[..]);
      k := k + 1;
    }
  }

  // --- the inodes ---

  /** The first k inodes. */
  predicate FirstInodes(mem: seq<Byte>, lens: seq<nat>, k: nat)
    requires k <= |lens|
  {
    |mem| == BLKSZ * |lens| && forall i :: 0 <= i < k ==> InodeOk(mem, BLKSZ * i, lens[i], Listed(lens, i))
  }

  /** The first j block numbers of an inode. */
  predicate FirstNumbers(mem: seq<Byte>, at: nat, first: nat, j: nat) {
    at + 4 + 4 * j <= |mem| && forall l :: 0 <= l < j ==> Le32(mem, at + 4 + 4 * l) == first + l
  }

  lemma NumberAdded(mem: seq<Byte>, at: nat, first: nat, j: nat)
    requires FirstNumbers(mem, at, first, j) && at + 8 + 4 * j <= |mem| && first + j < 0x1_0000_0000
    ensures FirstNumbers(Written(mem, at + 4 + 4 * j, ToLe(first + j, 4)), at, first, j + 1)
  {
    hide Le32;
    var w := Written(mem, at + 4 + 4 * j, ToLe(first + j, 4));
    forall l | 0 <= l < j + 1 ensures Le32(w, at + 4 + 4 * l) == first + l {
      if l < j { Untouched32(mem, at + 4 + 4 * j, ToLe(first + j, 4), at + 4 + 4 * l); }
      else { Stored32(mem, at + 4 + 4 * j, first + j); }
    }
  }

  /** The loop over the blocks of one file; next is the number after the last one. */
  method FillNumbers(mem: array<Byte>, at: nat, first: nat, len: nat) returns (next: nat)
    requires at + BLKSZ <= mem.Length && ListedFor(len) <= BLOCKS && first + BLOCKS < 0x1_0000_0000
    modifies mem
    ensures next == first + ListedFor(len)
    ensures FirstNumbers(mem[..], at, first, ListedFor(len))
    ensures mem[..at] == old(mem[..at])
  {
    hide Le32, FirstNumbers;
    var blocks := len / BLKSZ + 1;
    next := first;
    var j := 0;
    assert FirstNumbers(mem[..], at, first, 0) by { NoNumbers(mem[..], at, first); }
    while j < blocks
      invariant 0 <= j <= blocks && next == first + j
      invariant FirstNumbers(mem[..], at, first, j) && mem[..at] == old(mem[..at])
    {
      NumberAdded(mem[..], at, first, j);
      Store32(mem, at + 4 + 4 * j, next);
      next := next + 1;
      j := j + 1;
    }
  }

  lemma NoNumbers(mem: seq<Byte>, at: nat, first: nat)
    requires at + 4 <= |mem|
    ensures FirstNumbers(mem, at, first, 0)
  {
  }

  /** Inodes below `at` depend on the bytes below `at` only. */
  lemma LowerInodes(mem: seq<Byte>, mem': seq<Byte>, lens: seq<nat>, k: nat)
    requires k < |lens| && FirstInodes(mem, lens, k) && |mem'| == |mem| && mem'[..BLKSZ * k] == mem[..BLKSZ * k]
    ensures FirstInodes(mem', lens, k)
  {
    hide Le32, Listed;
    forall i | 0 <= i < k ensures InodeOk(mem', BLKSZ * i, lens[i], Listed(lens, i)) {
      assert InodeOk(mem, BLKSZ * i, lens[i], Listed(lens, i));
      SamePrefix(mem, mem', BLKSZ * k, BLKSZ * i);
      forall j | 0 <= j < ListedFor(lens[i])
        ensures Le32(mem', BLKSZ * i + 4 + 4 * j) == Listed(lens, i) + j
      {
        SamePrefix(mem, mem', BLKSZ * k, BLKSZ * i + 4 + 4 * j);
      }
    }
  }

  lemma InodeDone(mem: seq<Byte>, at: nat, len: nat, first: nat)
    requires at + BLKSZ <= |mem| && ListedFor(len) <= BLOCKS && FirstNumbers(mem, at, first, ListedFor(len))
    ensures InodeOk(Written(mem, at, ToLe(len, 4)), at, len, first)
  {
    hide Le32;
    LenFits(len);
    Stored32(mem, at, len);
    forall j | 0 <= j < ListedFor(len) ensures Le32(Written(mem, at, ToLe(len, 4)), at + 4 + 4 * j) == first + j {
      Untouched32(mem, at, ToLe(len, 4), at + 4 + 4 * j);
    }
  }

  lemma LenFits(len: nat)
    requires ListedFor(len) <= BLOCKS
    ensures len < 0x1_0000_0000
  {
  }

  predicate SizesOk(lens: seq<nat>) {
    |lens| <= DENTRIES && forall i :: 0 <= i < |lens| ==> ListedFor(lens[i]) <= BLOCKS
  }

  lemma {:induction false} ListedBound(lens: seq<nat>, k: nat)
    requires SizesOk(lens) && k <= |lens|
    ensures Listed(lens, k) <= BLOCKS * k
  {
    if k > 0 { ListedBound(lens, k - 1); }
  }

  /** The second loop; the memory of the inodes is not initialised. */
  method FillInodes(mem: array<Byte>, lens: seq<nat>) returns (next: nat)
    requires mem.Length == BLKSZ * |lens| && SizesOk(lens)
    modifies mem
    ensures next == Listed(lens, |lens|) && FirstInodes(mem[..], lens, |lens|)
  {
    hide Le32, FirstInodes, FirstNumbers, Listed, SizesOk;
    next := 0;
    var i := 0;
    assert Listed(lens, 0) == 0 && FirstInodes(mem[..], lens, 0) by { NoInodes(mem[..], lens); }
    while i < |lens|
      invariant 0 <= i <= |lens| && next == Listed(lens, i) && FirstInodes(mem[..], lens, i)
    {
      next := FillInode(mem, lens, i, next);
      i := i + 1;
    }
  }

  lemma NoInodes(mem: seq<Byte>, lens: seq<nat>)
    requires |mem| == BLKSZ * |lens|
    ensures Listed(lens, 0) == 0 && FirstInodes(mem, lens, 0)
  {
  }

  method FillInode(mem: array<Byte>, lens: seq<nat>, i: nat, first: nat) returns (next: nat)
    requires i < |lens| && mem.Length == BLKSZ * |lens| && SizesOk(lens)
    requires first == Listed(lens, i) && FirstInodes(mem[..], lens, i)
    modifies mem
    ensures next == Listed(lens, i + 1) && FirstInodes(mem[..], lens, i + 1)
  {
    hide Le32, FirstNumbers, Written, FirstInodes, InodeOk, Listed;
    ghost var m0 := mem[..];
    var at := BLKSZ * i;
    ListedBound(lens, i);
    next := FillNumbers(mem, at, first, lens[i]);
    ghost var m1 := mem[..];
    assert m1[..at] == m0[..at];
    LowerInodes(m0, m1, lens, i);
    LenFits(lens[i]);
    InodeDone(m1, at, lens[i], first);
    Store32(mem, at, lens[i]);
    WrittenPrefix(m1, at, ToLe(lens[i], 4));
    LowerInodes(m1, mem[..], lens, i);
    InodeAdded(mem[..], lens, i);
  }

  lemma InodeAdded(mem: seq<Byte>, lens: seq<nat>, i: nat)
    requires i < |lens| && FirstInodes(mem, lens, i) && InodeOk(mem, BLKSZ * i, lens[i], Listed(lens, i))
    ensures FirstInodes(mem, lens, i + 1) && Listed(lens, i + 1) == Listed(lens, i) + ListedFor(lens[i])
  {
  }

  lemma WrittenPrefix(mem: seq<Byte>, off: nat, bytes: seq<Byte>)
    requires off + |bytes| <= |mem|
    ensures Written(mem, off, bytes)[..off] == mem[..off]
  {
  }

  // --- the data ---

  /** The blocks of one file: full buffers, of which the last may hold older bytes at its end. */
  method FileBlocks(bytes: seq<Byte>) returns (out: seq<Byte>)
    ensures |out| == BLKSZ * WrittenFor(|bytes|) && |bytes| <= |out| && out[..|bytes|] == bytes
  {
    hide Written, WrittenFor;
    var buf := new Byte[BLKSZ](_ => 0);
    assert WrittenFor(0) == 0 by { CeilStep(0, 1); }
    out := [];
    var rp := 0;
    while rp < |bytes|
      invariant 0 <= rp <= |bytes| && rp <= |out| && out[..rp] == bytes[..rp]
      invariant |out| == BLKSZ * WrittenFor(rp) && (rp < |bytes| ==> rp % BLKSZ == 0 && rp == |out|)
    {
      var k := if |bytes| - rp < BLKSZ then |bytes| - rp else BLKSZ;
      CeilStep(rp, k);
      ghost var before := buf[..];
      Store(buf, 0, bytes[rp..rp + k]);
      BufferAdded(out, bytes, rp, k, before, buf[..]);
      out := out + buf[..];
      rp := rp + k;
    }
    assert bytes[..rp] == bytes;
  }

  lemma BufferAdded(out: seq<Byte>, bytes: seq<Byte>, rp: nat, k: nat, before: seq<Byte>, buf: seq<Byte>)
    requires rp + k <= |bytes| && |out| == rp && out[..rp] == bytes[..rp] && k <= |before|
    requires buf == Written(before, 0, bytes[rp..rp + k])
    ensures (out + buf)[..rp + k] == bytes[..rp + k]
  {
    hide Written;
    assert out == bytes[..rp];
    WriteThenRead(before, 0, bytes[rp..rp + k], 0);
    PrefixOf(out, buf, k);
    assert bytes[..rp + k] == bytes[..rp] + bytes[rp..rp + k];
  }

  lemma PrefixOf(a: seq<Byte>, b: seq<Byte>, k: nat)
    requires k <= |b|
    ensures (a + b)[..|a| + k] == a + b[..k]
  {
  }

  lemma CeilStep(rp: nat, k: nat)
    requires rp % BLKSZ == 0 && 0 < k <= BLKSZ
    ensures WrittenFor(rp + k) == WrittenFor(rp) + 1
    ensures k == BLKSZ ==> (rp + k) % BLKSZ == 0 && BLKSZ * WrittenFor(rp + k) == rp + k
    ensures BLKSZ * WrittenFor(rp) == rp
  {
  }

  predicate FirstData(data: seq<Byte>, files: seq<InFile>, k: nat)
    requires k <= |files|
  {
    var lens := Lens(files);
    && |data| == BLKSZ * Used(lens, k)
    && forall i :: 0 <= i < k ==> FileDataOk(data, BLKSZ * Used(lens, i), files[i].bytes)
  }

  lemma DataAdded(data: seq<Byte>, files: seq<InFile>, k: nat, more: seq<Byte>)
    requires k < |files| && FirstData(data, files, k)
    requires |more| == BLKSZ * WrittenFor(|files[k].bytes|) && |files[k].bytes| <= |more|
    requires more[..|files[k].bytes|] == files[k].bytes
    ensures FirstData(data + more, files, k + 1)
  {
    hide Used, FileDataOk, WrittenFor;
    var lens := Lens(files);
    UsedNext(lens, k);
    forall i | 0 <= i < k + 1 ensures FileDataOk(data + more, BLKSZ * Used(lens, i), files[i].bytes) {
      if i < k { KeptData(data, more, BLKSZ * Used(lens, i), files[i].bytes); } else { NewData(data, more, files[i].bytes); }
    }
  }

  lemma UsedNext(lens: seq<nat>, k: nat)
    requires k < |lens|
    ensures Used(lens, k + 1) == Used(lens, k) + WrittenFor(lens[k])
  {
  }

  lemma KeptData(data: seq<Byte>, more: seq<Byte>, at: nat, bytes: seq<Byte>)
    requires FileDataOk(data, at, bytes)
    ensures FileDataOk(data + more, at, bytes)
  {
    assert (data + more)[at..at + |bytes|] == data[at..at + |bytes|];
  }

  lemma NewData(data: seq<Byte>, more: seq<Byte>, bytes: seq<Byte>)
    requires |bytes| <= |more| && more[..|bytes|] == bytes
    ensures FileDataOk(data + more, |data|, bytes)
  {
    assert (data + more)[|data|..|data| + |bytes|] == more[..|bytes|];
  }

  /** The third loop. */
  method WriteData(files: seq<InFile>) returns (data: seq<Byte>)
    ensures FirstData(data, files, |files|)
  {
    hide FirstData;
    data := [];
    var k := 0;
    assert FirstData(data, files, 0) by { NoData(files); }
    while k < |files|
      invariant 0 <= k <= |files| && FirstData(data, files, k)
    {
      var blocks := FileBlocks(files[k].bytes);
      DataAdded(data, files, k, blocks);
      data := data + blocks;
      k := k + 1;
    }
  }

  lemma NoData(files: seq<InFile>)
    ensures FirstData([], files, 0)
  {
  }

  // --- main ---

  /** The image of the files. The C code has room for 63 files of at most 1023 listed blocks. */
  method MakeImage(files: seq<InFile>) returns (image: seq<Byte>)
    requires SizesOk(Lens(files))
    ensures IsImage(image, files)
  {
    hide EntriesOk, FirstInodes, FirstData, BootOk, Listed;
    var n, lens := |files|, Lens(files);
    var boot := new Byte[BLKSZ](_ => 0);
    var mem := new Byte[BLKSZ * n];
    EmptyBoot(boot[..], files);
    FillEntries(boot, files);
    var next := FillInodes(mem, lens);
    ListedBound(lens, n);
    FillCounts(boot, files, next);
    var data := WriteData(files);
    image := boot[..] + mem[..] + data;
    PartsMakeImage(boot[..], mem[..], data, files);
  }

  lemma PartsMakeImage(boot: seq<Byte>, mem: seq<Byte>, data: seq<Byte>, files: seq<InFile>)
    requires BootOk(boot, files) && FirstInodes(mem, Lens(files), |files|) && FirstData(data, files, |files|)
    ensures IsImage(boot + mem + data, files)
  {
    hide BootOk, InodeOk, FileDataOk, Used, Listed;
    var image, n := boot + mem + data, |files|;
    assert image[..BLKSZ] == boot by { BootSize(boot, files); }
    assert image[BLKSZ..BLKSZ + BLKSZ * n] == mem by { BootSize(boot, files); }
    assert image[BLKSZ + BLKSZ * n..] == data by { BootSize(boot, files); }
    BootSize(boot, files);
  }

  lemma BootSize(boot: seq<Byte>, files: seq<InFile>)
    requires BootOk(boot, files)
    ensures |boot| == BLKSZ
  {
  }

  lemma EmptyBoot(boot: seq<Byte>, files: seq<InFile>)
    requires |boot| == BLKSZ && |files| <= DENTRIES && forall i :: 0 <= i < BLKSZ ==> boot[i] == 0
    ensures EntriesOk(boot, files, 0)
  {
  }

  /** num_dentry, num_inodes and num_data. */
  method FillCounts(boot: array<Byte>, files: seq<InFile>, next: nat)
    requires boot.Length == BLKSZ && |files| <= DENTRIES && EntriesOk(boot[..], files, |files|)
    requires next == Listed(Lens(files), |files|) < 0x1_0000_0000
    modifies boot
    ensures BootOk(boot[..], files)
  {
    hide Le32, DentryOk, Listed;
    var n := |files|;
    ghost var b0 := boot[..];
    Store32(boot, 0, n);
    ghost var b1 := boot[..];
    Store32(boot, 4, n);
    ghost var b2 := boot[..];
    Store32(boot, 8, next);
    Untouched32(b1, 4, ToLe(n, 4), 0);
    Untouched32(b2, 8, ToLe(next, 4), 0);
    Untouched32(b2, 8, ToLe(next, 4), 4);
    forall x | 0 <= x < n ensures DentryOk(boot[..], x, files[x].name) {
      UntouchedDentry(b0, 0, ToLe(n, 4), x, files[x].name);
      UntouchedDentry(b1, 4, ToLe(n, 4), x, files[x].name);
      UntouchedDentry(b2, 8, ToLe(next, 4), x, files[x].name);
    }
  }
}
