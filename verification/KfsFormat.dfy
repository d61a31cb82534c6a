/** The disk format of kfs.c and mkfs.c: a boot block, one block per inode, and the data blocks; and
    what the bytes of a disk say about its files. */
module KfsFormat {
  import opened Common
  import opened Bytes
  import opened IoLit

  const BLKSZ: nat := 4096          // FS_BLKSZ
  const NAMELEN: nat := 32          // FS_NAMELEN
  const DENTRIES: nat := 63
  const BLOCKS: nat := 1023         // block numbers in an inode
  const INODES: nat := 0x7_FFFF     // beyond this, fs_open's int arithmetic overflows

  /** A C string, without its final zero. */
  type CString = s: seq<Byte> | 0 !in s

  function Le32(disk: seq<Byte>, off: nat): (n: nat)
    requires off + 4 <= |disk|
    ensures n < 0x1_0000_0000
  {
    Pow256At4();
    FromLe(disk[off..off + 4])
  }

  function DentryAt(x: nat): nat { 64 + 64 * x }

  function InodeAt(i: nat): nat { BLKSZ + i * BLKSZ }

  /** The C string at `at` in mem is name. */
  predicate IsString(name: CString, mem: seq<Byte>, at: nat) {
    at + |name| < |mem| && mem[at..at + |name|] == name && mem[at + |name|] == 0
  }

  /** The inode number of the first entry from x on whose name is `name`. */
  function Lookup(boot: seq<Byte>, name: CString, x: nat): Option<nat>
    requires |boot| == BLKSZ && x <= DENTRIES
    decreases DENTRIES - x
  {
    if x == DENTRIES then None
    else if IsString(name, boot, DentryAt(x)) then Some(Le32(boot, DentryAt(x) + NAMELEN))
    else Lookup(boot, name, x + 1)
  }

  function NumInodes(disk: seq<Byte>): nat
    requires 8 <= |disk|
  {
    Le32(disk, 4)
  }

  /** Where the data blocks begin. */
  function DataAt(disk: seq<Byte>): nat
    requires 8 <= |disk|
  {
    BLKSZ + BLKSZ * NumInodes(disk)
  }

  predicate MetaOk(disk: seq<Byte>) {
    8 <= |disk| && NumInodes(disk) < INODES && DataAt(disk) <= |disk|
  }

  predicate IsInode(disk: seq<Byte>, i: nat) { MetaOk(disk) && i < NumInodes(disk) }

  lemma InodeInside(disk: seq<Byte>, i: nat)
    requires IsInode(disk, i)
    ensures InodeAt(i) + BLKSZ <= DataAt(disk) <= |disk|
  {
  }

  function Length(disk: seq<Byte>, i: nat): nat
    requires IsInode(disk, i)
  {
    InodeInside(disk, i);
    Le32(disk, InodeAt(i))
  }

  /** The k-th block number of inode i. */
  function BlockNo(disk: seq<Byte>, i: nat, k: nat): nat
    requires IsInode(disk, i) && k < BLOCKS
  {
    InodeInside(disk, i);
    Le32(disk, InodeAt(i) + 4 + 4 * k)
  }

  /** The first address of data block b. */
  function BlockAt(disk: seq<Byte>, b: nat): nat
    requires 8 <= |disk|
  {
    DataAt(disk) + BLKSZ * b
  }

  predicate UsesBlock(disk: seq<Byte>, i: nat, k: nat) {
    IsInode(disk, i) && k < BLOCKS && BLKSZ * k < Length(disk, i)
  }

  /** The blocks of file i exist. */
  ghost predicate FileOk(disk: seq<Byte>, i: nat) {
    && IsInode(disk, i) && Length(disk, i) <= BLKSZ * BLOCKS
    && forall k :: 0 <= k && UsesBlock(disk, i, k) ==> BlockAt(disk, BlockNo(disk, i, k)) + BLKSZ <= |disk|
  }

  /** No two files, and no two parts of a file, share a block. */
  ghost predicate BlocksApart(disk: seq<Byte>) {
    forall i: nat, k: nat, j: nat, l: nat ::
      UsesBlock(disk, i, k) && UsesBlock(disk, j, l) && (i != j || k != l) ==>
        BlockNo(disk, i, k) != BlockNo(disk, j, l)
  }

  ghost predicate FsOk(disk: seq<Byte>) {
    && MetaOk(disk)
    && (forall i: nat :: IsInode(disk, i) ==> FileOk(disk, i))
    && BlocksApart(disk)
  }

  lemma UsedBlock(disk: seq<Byte>, i: nat, p: nat)
    requires FileOk(disk, i) && p < Length(disk, i)
    ensures UsesBlock(disk, i, p / BLKSZ) && BlockAt(disk, BlockNo(disk, i, p / BLKSZ)) + BLKSZ <= |disk|
  {
  }

  /** The address of byte p of file i. */
  function Addr(disk: seq<Byte>, i: nat, p: nat): (a: nat)
    requires FileOk(disk, i) && p < Length(disk, i)
    ensures DataAt(disk) <= a < |disk|
  {
    UsedBlock(disk, i, p);
    BlockAt(disk, BlockNo(disk, i, p / BLKSZ)) + p % BLKSZ
  }

  /** The file i. */
  function Contents(disk: seq<Byte>, i: nat): (s: seq<Byte>)
    requires FileOk(disk, i)
    ensures |s| == Length(disk, i)
  {
    seq(Length(disk, i), p requires 0 <= p < Length(disk, i) => disk[Addr(disk, i, p)])
  }

  lemma AddrInBlock(disk: seq<Byte>, i: nat, p: nat, d: nat)
    requires FileOk(disk, i) && p + d < Length(disk, i) && p % BLKSZ + d < BLKSZ
    ensures Addr(disk, i, p + d) == Addr(disk, i, p) + d
  {
    hide FileOk, Length, BlockNo, DataAt;
    SameBlock(p, d);
  }

  /** Byte by byte on the disk: the number of inodes is in bytes 4 to 7; an inode has the length in its
      first four bytes and the block numbers behind it, and the data blocks follow the inodes. */
  lemma ContentsLayout(disk: seq<Byte>, i: nat, p: nat)
    requires FileOk(disk, i) && p < |Contents(disk, i)|
    ensures var inode, n := 0x1000 + 0x1000 * i, FromLe(disk[4..8]);
      && i < n && inode + 0x1000 <= 0x1000 + 0x1000 * n <= |disk|
      && |Contents(disk, i)| == FromLe(disk[inode..inode + 4])
      && var at := inode + 4 + 4 * (p / 0x1000);
         && at + 4 <= inode + 0x1000
         && var a := 0x1000 + 0x1000 * n + 0x1000 * FromLe(disk[at..at + 4]) + p % 0x1000;
            a < |disk| && Contents(disk, i)[p] == disk[a]
  {
    hide FromLe;
    UsedBlock(disk, i, p);
  }

  /** The directory: entry x is at byte 64 + 64x of the boot block, its name first and the inode number
      32 bytes behind; the first entry of the name is found. */
  lemma {:induction false} LookupIs(boot: seq<Byte>, name: CString, x: nat)
    requires |boot| == 0x1000 && x <= 63
    ensures Lookup(boot, name, x).None? ==> forall y :: x <= y < 63 ==> !IsString(name, boot, 64 + 64 * y)
    ensures Lookup(boot, name, x).Some? ==> exists y :: FirstNamed(boot, name, x, y, Lookup(boot, name, x).value)
    decreases 63 - x
  {
    hide FromLe, IsString;
    if x < 63 {
      LookupIs(boot, name, x + 1);
      if IsString(name, boot, 64 + 64 * x) {
        assert FirstNamed(boot, name, x, x, Lookup(boot, name, x).value);
      } else if Lookup(boot, name, x).Some? {
        var y :| FirstNamed(boot, name, x + 1, y, Lookup(boot, name, x + 1).value);
        assert FirstNamed(boot, name, x, y, Lookup(boot, name, x).value);
      }
    }
  }

  /** Entry y is the first from x on that has the name, and its inode number is n. */
  predicate FirstNamed(boot: seq<Byte>, name: CString, x: nat, y: nat, n: nat) {
    && x <= y < 63 && |boot| == 0x1000 && IsString(name, boot, 64 + 64 * y)
    && FromLe(boot[64 + 64 * y + 32..64 + 64 * y + 36]) == n
    && forall z :: x <= z < y ==> !IsString(name, boot, 64 + 64 * z)
  }

  /** Within a block the bytes of a file are together. */
  lemma BlockSlice(disk: seq<Byte>, i: nat, p: nat, n: nat)
    requires FileOk(disk, i) && n > 0 && p + n <= Length(disk, i) && p % BLKSZ + n <= BLKSZ
    ensures Addr(disk, i, p) + n <= |disk|
    ensures disk[Addr(disk, i, p)..Addr(disk, i, p) + n] == Contents(disk, i)[p..p + n]
  {
    hide FileOk, Addr, Length, DataAt;
    var a := Addr(disk, i, p);
    forall q | p <= q < p + n ensures Addr(disk, i, q) == a + (q - p) {
      AddrInBlock(disk, i, p, q - p);
    }
    var last := p + n - 1;
    assert Addr(disk, i, last) == a + (last - p);
    var whole := Contents(disk, i);
    assert forall q :: p <= q < p + n ==> whole[q] == disk[Addr(disk, i, q)];
  }

  lemma SameBlock(p: nat, d: nat)
    requires p % BLKSZ + d < BLKSZ
    ensures (p + d) / BLKSZ == p / BLKSZ && (p + d) % BLKSZ == p % BLKSZ + d
  {
  }

  // --- what a write to data blocks leaves alone ---

  /** The boot block and the inodes are the same. */
  predicate SameMeta(disk: seq<Byte>, disk': seq<Byte>) {
    MetaOk(disk) && |disk'| == |disk| && disk'[..DataAt(disk)] == disk[..DataAt(disk)]
  }

  lemma SamePrefix(a: seq<Byte>, b: seq<Byte>, n: nat, off: nat)
    requires n <= |a| == |b| && a[..n] == b[..n] && off + 4 <= n
    ensures Le32(a, off) == Le32(b, off)
  {
    assert a[off..off + 4] == a[..n][off..off + 4];
    assert b[off..off + 4] == b[..n][off..off + 4];
  }

  lemma SameHeader(disk: seq<Byte>, disk': seq<Byte>)
    requires SameMeta(disk, disk')
    ensures MetaOk(disk') && NumInodes(disk') == NumInodes(disk) && DataAt(disk') == DataAt(disk)
    ensures forall i: nat :: IsInode(disk', i) <==> IsInode(disk, i)
  {
    hide Le32;
    SamePrefix(disk, disk', DataAt(disk), 4);
  }

  lemma SameInode(disk: seq<Byte>, disk': seq<Byte>, i: nat)
    requires SameMeta(disk, disk') && IsInode(disk, i)
    ensures IsInode(disk', i) && Length(disk', i) == Length(disk, i)
    ensures forall k: nat :: k < BLOCKS ==> BlockNo(disk', i, k) == BlockNo(disk, i, k)
    ensures forall k: nat :: UsesBlock(disk', i, k) <==> UsesBlock(disk, i, k)
  {
    hide Le32;
    SameHeader(disk, disk');
    InodeInside(disk, i);
    SamePrefix(disk, disk', DataAt(disk), InodeAt(i));
    forall k: nat | k < BLOCKS ensures BlockNo(disk', i, k) == BlockNo(disk, i, k) {
      SamePrefix(disk, disk', DataAt(disk), InodeAt(i) + 4 + 4 * k);
    }
  }

  lemma SameBlockInside(disk: seq<Byte>, disk': seq<Byte>, i: nat, k: nat)
    requires SameMeta(disk, disk') && FileOk(disk, i) && UsesBlock(disk', i, k)
    ensures UsesBlock(disk, i, k) && BlockNo(disk', i, k) == BlockNo(disk, i, k)
    ensures BlockAt(disk', BlockNo(disk', i, k)) == BlockAt(disk, BlockNo(disk, i, k))
    ensures BlockAt(disk', BlockNo(disk', i, k)) + BLKSZ <= |disk'|
  {
    SameHeader(disk, disk');
    SameInode(disk, disk', i);
    hide Length, BlockNo;
  }

  lemma SameFile(disk: seq<Byte>, disk': seq<Byte>, i: nat)
    requires SameMeta(disk, disk') && FileOk(disk, i)
    ensures FileOk(disk', i) && Length(disk', i) == Length(disk, i)
    ensures forall p: nat :: p < Length(disk, i) ==> Addr(disk', i, p) == Addr(disk, i, p)
  {
    hide Length, BlockNo, SameMeta, NumInodes;
    SameInode(disk, disk', i);
    assert FileOk(disk', i) by {
      forall k: nat | UsesBlock(disk', i, k) ensures BlockAt(disk', BlockNo(disk', i, k)) + BLKSZ <= |disk'| {
        SameBlockInside(disk, disk', i, k);
      }
    }
    forall p: nat | p < Length(disk, i) ensures Addr(disk', i, p) == Addr(disk, i, p) {
      UsedBlock(disk, i, p);
      UsedBlock(disk', i, p);
      SameBlockInside(disk, disk', i, p / BLKSZ);
    }
  }

  lemma SameFs(disk: seq<Byte>, disk': seq<Byte>)
    requires SameMeta(disk, disk') && FsOk(disk)
    ensures FsOk(disk')
  {
    hide Length, BlockNo, SameMeta, MetaOk, FileOk, IsInode, UsesBlock;
    SameHeader(disk, disk');
    forall i: nat | IsInode(disk', i) ensures FileOk(disk', i) {
      SameFile(disk, disk', i);
    }
    assert BlocksApart(disk') by { SameApart(disk, disk'); }
  }

  lemma SameApart(disk: seq<Byte>, disk': seq<Byte>)
    requires SameMeta(disk, disk') && BlocksApart(disk)
    ensures BlocksApart(disk')
  {
    hide Length, BlockNo, SameMeta, MetaOk;
    SameHeader(disk, disk');
    forall i: nat, k: nat, j: nat, l: nat | UsesBlock(disk', i, k) && UsesBlock(disk', j, l) && (i != j || k != l)
      ensures BlockNo(disk', i, k) != BlockNo(disk', j, l)
    {
      SameInode(disk, disk', i);
      SameInode(disk, disk', j);
    }
  }

  // --- a write within one block of a file ---

  /** The bytes of a file that a write at address a touches are those at file position p on. */
  lemma AddrApart(disk: seq<Byte>, i: nat, p: nat, n: nat, j: nat, q: nat)
    requires FsOk(disk) && IsInode(disk, i) && n > 0 && p + n <= Length(disk, i) && p % BLKSZ + n <= BLKSZ
    requires IsInode(disk, j) && q < Length(disk, j)
    ensures FileOk(disk, i) && FileOk(disk, j)
    ensures Addr(disk, i, p) <= Addr(disk, j, q) < Addr(disk, i, p) + n <==> i == j && p <= q < p + n
  {
    hide Length, BlockNo, MetaOk, DataAt, IsInode, Le32, InodeAt;
    UsedBlock(disk, i, p);
    UsedBlock(disk, j, q);
    var b, c := BlockNo(disk, i, p / BLKSZ), BlockNo(disk, j, q / BLKSZ);
    if i == j && p / BLKSZ == q / BLKSZ {
      InBlock(p, q, n);
    } else {
      assert b != c;
      ApartBlocks(b, p % BLKSZ, n, c, q % BLKSZ);
      if i == j { OtherBlock(p, q, n); }
    }
  }

  lemma InBlock(p: nat, q: nat, n: nat)
    requires p / BLKSZ == q / BLKSZ && p % BLKSZ + n <= BLKSZ
    ensures p % BLKSZ <= q % BLKSZ < p % BLKSZ + n <==> p <= q < p + n
  {
  }

  lemma OtherBlock(p: nat, q: nat, n: nat)
    requires p / BLKSZ != q / BLKSZ && p % BLKSZ + n <= BLKSZ
    ensures !(p <= q < p + n)
  {
  }

  lemma ApartBlocks(b: nat, x: nat, n: nat, c: nat, y: nat)
    requires b != c && x + n <= BLKSZ && y < BLKSZ
    ensures !(BLKSZ * b + x <= BLKSZ * c + y < BLKSZ * b + x + n)
  {
  }

  /** Such a write changes these bytes of this file and nothing else of any file, and neither the
      inodes nor the boot block. */
  lemma BlockWrite(disk: seq<Byte>, i: nat, p: nat, data: seq<Byte>, disk': seq<Byte>)
    requires FsOk(disk) && IsInode(disk, i) && data != [] && p + |data| <= Length(disk, i)
    requires FileOk(disk, i) && p % BLKSZ + |data| <= BLKSZ && Addr(disk, i, p) + |data| <= |disk|
    requires disk' == Written(disk, Addr(disk, i, p), data)
    ensures SameMeta(disk, disk') && FsOk(disk') && IsInode(disk', i)
    ensures Contents(disk', i) == Written(Contents(disk, i), p, data)
    ensures forall j: nat :: IsInode(disk, j) && j != i ==> IsInode(disk', j) && Contents(disk', j) == Contents(disk, j)
  {
    hide Length, BlockNo, MetaOk, DataAt, IsInode, FileOk, Addr, BlocksApart;
    var at := Addr(disk, i, p);
    DataWriteMeta(disk, at, data);
    SameFs(disk, disk');
    SameHeader(disk, disk');
    forall j: nat, q: nat | IsInode(disk, j) && q < Length(disk, j)
      ensures FileOk(disk', j) && Length(disk', j) == Length(disk, j)
      ensures Contents(disk', j)[q] == if j == i && p <= q < p + |data| then data[q - p] else Contents(disk, j)[q]
    {
      FileByteWrite(disk, i, p, data, disk', j, q);
    }
    forall j: nat | IsInode(disk, j) ensures Length(disk', j) == Length(disk, j) { SameFile(disk, disk', j); }
  }

  lemma DataWriteMeta(disk: seq<Byte>, at: nat, data: seq<Byte>)
    requires MetaOk(disk) && DataAt(disk) <= at && at + |data| <= |disk|
    ensures SameMeta(disk, Written(disk, at, data))
  {
    var n := DataAt(disk);
    assert Written(disk, at, data)[..n] == disk[..n];
  }

  lemma FileByteWrite(disk: seq<Byte>, i: nat, p: nat, data: seq<Byte>, disk': seq<Byte>, j: nat, q: nat)
    requires FsOk(disk) && IsInode(disk, i) && data != [] && p + |data| <= Length(disk, i)
    requires FileOk(disk, i) && p % BLKSZ + |data| <= BLKSZ && Addr(disk, i, p) + |data| <= |disk|
    requires disk' == Written(disk, Addr(disk, i, p), data) && SameMeta(disk, disk')
    requires IsInode(disk, j) && q < Length(disk, j)
    ensures FileOk(disk, j) && FileOk(disk', j) && Length(disk', j) == Length(disk, j)
    ensures Contents(disk', j)[q] == if j == i && p <= q < p + |data| then data[q - p] else Contents(disk, j)[q]
  {
    hide Length, BlockNo, MetaOk, DataAt, IsInode, FileOk, SameMeta, BlocksApart;
    SameFile(disk, disk', j);
    AddrApart(disk, i, p, |data|, j, q);
    if j == i && p <= q < p + |data| {
      AddrSame(disk, i, p, q, |data|);
    }
  }

  lemma AddrSame(disk: seq<Byte>, i: nat, p: nat, q: nat, n: nat)
    requires FileOk(disk, i) && p <= q < p + n <= Length(disk, i) && p % BLKSZ + n <= BLKSZ
    ensures Addr(disk, i, q) == Addr(disk, i, p) + (q - p)
  {
    SameBlock(p, q - p);
  }

  // --- a write at any position of a file ---

  /** disk' is disk with data at position p of file i: this file has the data, every other file is
      the same, and so are the boot block, the inodes, and every byte outside of these positions. */
  ghost predicate FileWritten(disk: seq<Byte>, i: nat, p: nat, data: seq<Byte>, disk': seq<Byte>) {
    && FsOk(disk) && IsInode(disk, i) && FileOk(disk, i) && p + |data| <= Length(disk, i)
    && SameMeta(disk, disk') && FsOk(disk') && IsInode(disk', i) && FileOk(disk', i)
    && Contents(disk', i) == Written(Contents(disk, i), p, data)
    && OthersSame(disk, i, disk')
    && OnlyThere(disk, i, p, |data|, disk')
  }

  ghost predicate OthersSame(disk: seq<Byte>, i: nat, disk': seq<Byte>)
    requires FsOk(disk) && FsOk(disk')
  {
    forall j: nat :: IsInode(disk, j) && j != i ==> IsInode(disk', j) && Contents(disk', j) == Contents(disk, j)
  }

  ghost predicate OnlyThere(disk: seq<Byte>, i: nat, p: nat, n: nat, disk': seq<Byte>)
    requires FileOk(disk, i) && |disk'| == |disk| && p + n <= Length(disk, i)
  {
    forall a: nat :: a < |disk| && disk'[a] != disk[a] ==> exists q :: p <= q < p + n && Addr(disk, i, q) == a
  }

  lemma NothingWritten(disk: seq<Byte>, i: nat, p: nat)
    requires FsOk(disk) && IsInode(disk, i) && p <= Length(disk, i)
    ensures FileWritten(disk, i, p, [], disk)
  {
    assert FileOk(disk, i);
    assert Contents(disk, i) == Written(Contents(disk, i), p, []);
  }

  lemma BlockWritten(disk: seq<Byte>, i: nat, p: nat, data: seq<Byte>, disk': seq<Byte>)
    requires FsOk(disk) && IsInode(disk, i) && data != [] && p + |data| <= Length(disk, i)
    requires FileOk(disk, i) && p % BLKSZ + |data| <= BLKSZ && Addr(disk, i, p) + |data| <= |disk|
    requires disk' == Written(disk, Addr(disk, i, p), data)
    ensures FileWritten(disk, i, p, data, disk')
  {
    hide Length, IsInode, FileOk, Addr, FsOk, SameMeta;
    BlockWrite(disk, i, p, data, disk');
    var at := Addr(disk, i, p);
    assert FileOk(disk', i) by { FileIsOk(disk', i); }
    forall a: nat | a < |disk| && disk'[a] != disk[a] ensures exists q :: p <= q < p + |data| && Addr(disk, i, q) == a {
      var q := p + (a - at);
      AddrSame(disk, i, p, q, |data|);
    }
  }

  lemma FileIsOk(disk: seq<Byte>, i: nat)
    requires FsOk(disk) && IsInode(disk, i)
    ensures FileOk(disk, i)
  {
  }

  /** Writing adjacent data in two steps is writing it at once. */
  lemma WrittenInSteps(d0: seq<Byte>, i: nat, p: nat, a: seq<Byte>, d1: seq<Byte>, b: seq<Byte>, d2: seq<Byte>)
    requires FileWritten(d0, i, p, a, d1) && FileWritten(d1, i, p + |a|, b, d2)
    ensures FileWritten(d0, i, p, a + b, d2)
  {
    hide FsOk, Addr, Contents, SameMeta;
    SameFile(d0, d1, i);
    SameInode(d0, d1, i);
    SameTwice(d0, d1, d2);
    WrittenTwice(Contents(d0, i), p, a, b);
    assert OnlyThere(d0, i, p, |a + b|, d2) by {
      forall x: nat | x < |d0| && d2[x] != d0[x] ensures exists q :: p <= q < p + |a + b| && Addr(d0, i, q) == x {
        if d2[x] != d1[x] {
          var q :| p + |a| <= q < p + |a| + |b| && Addr(d1, i, q) == x;
          assert Addr(d0, i, q) == x;
        } else {
          var q :| p <= q < p + |a| && Addr(d0, i, q) == x;
        }
      }
    }
    OthersTwice(d0, i, d1, d2);
  }

  lemma SameTwice(d0: seq<Byte>, d1: seq<Byte>, d2: seq<Byte>)
    requires SameMeta(d0, d1) && SameMeta(d1, d2)
    ensures SameMeta(d0, d2) && |d0| == |d1| == |d2|
  {
    SameHeader(d0, d1);
  }

  lemma OthersTwice(d0: seq<Byte>, i: nat, d1: seq<Byte>, d2: seq<Byte>)
    requires FsOk(d0) && FsOk(d1) && FsOk(d2) && OthersSame(d0, i, d1) && OthersSame(d1, i, d2)
    ensures OthersSame(d0, i, d2)
  {
    hide FsOk, Contents, IsInode;
  }

  /** What was written is read back, from the file as it is after the write. */
  lemma ReadsWhatWasWritten(disk: seq<Byte>, i: nat, p: nat, data: seq<Byte>, disk': seq<Byte>)
    requires FileWritten(disk, i, p, data, disk')
    ensures FileOk(disk', i) && Length(disk', i) == Length(disk, i)
    ensures Contents(disk', i)[p..p + |data|] == data
  {
    hide FsOk, Addr, Contents, SameMeta;
    SameFile(disk, disk', i);
    WriteThenRead(Contents(disk, i), p, data, 0);
  }
}
