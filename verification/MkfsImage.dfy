/** The images that mkfs.c writes, and when the file system finds every file in them. */
module MkfsImage {
  import opened Common
  import opened Bytes
  import opened KfsFormat

  datatype InFile = InFile(name: CString, bytes: seq<Byte>)

  function Lens(files: seq<InFile>): (r: seq<nat>)
    ensures |r| == |files| && forall i :: 0 <= i < |files| ==> r[i] == |files[i].bytes|
  {
    seq(|files|, i requires 0 <= i < |files| => |files[i].bytes|)
  }

  /** Data blocks that an inode lists, and blocks that are written, for a file of this length. */
  function ListedFor(len: nat): nat { len / BLKSZ + 1 }

  function WrittenFor(len: nat): nat { (len + BLKSZ - 1) / BLKSZ }

  /** The same for the first k files. */
  function Listed(lens: seq<nat>, k: nat): nat
    requires k <= |lens|
  {
    if k == 0 then 0 else Listed(lens, k - 1) + ListedFor(lens[k - 1])
  }

  function Used(lens: seq<nat>, k: nat): nat
    requires k <= |lens|
  {
    if k == 0 then 0 else Used(lens, k - 1) + WrittenFor(lens[k - 1])
  }

  // --- the parts of an image ---

  /** strncpy into a field of NAMELEN bytes: the rest is zero, a long name is cut off. */
  function NameField(name: CString): (f: seq<Byte>)
    ensures |f| == NAMELEN
  {
    if |name| >= NAMELEN then name[..NAMELEN] else name + seq(NAMELEN - |name|, _ => 0)
  }

  predicate DentryOk(boot: seq<Byte>, x: nat, name: CString)
    requires |boot| == BLKSZ && x < DENTRIES
  {
    boot[DentryAt(x)..DentryAt(x) + NAMELEN] == NameField(name) && Le32(boot, DentryAt(x) + NAMELEN) == x
  }

  predicate BootOk(boot: seq<Byte>, files: seq<InFile>) {
    && |boot| == BLKSZ && |files| <= DENTRIES
    && Le32(boot, 0) == |files| && Le32(boot, 4) == |files| && Le32(boot, 8) == Listed(Lens(files), |files|)
    && (forall x :: 0 <= x < |files| ==> DentryOk(boot, x, files[x].name))
    && (forall x :: |files| <= x < DENTRIES ==> boot[DentryAt(x)] == 0)
  }

  /** The inode at the start of mem: the length, and consecutive block numbers from `first` on. */
  predicate InodeOk(mem: seq<Byte>, at: nat, len: nat, first: nat) {
    && at + BLKSZ <= |mem| && ListedFor(len) <= BLOCKS
    && Le32(mem, at) == len
    && forall j :: 0 <= j < ListedFor(len) ==> Le32(mem, at + 4 + 4 * j) == first + j
  }

  predicate InodesOk(mem: seq<Byte>, lens: seq<nat>) {
    && |mem| == BLKSZ * |lens|
    && forall i :: 0 <= i < |lens| ==> InodeOk(mem, BLKSZ * i, lens[i], Listed(lens, i))
  }

  predicate DataOk(data: seq<Byte>, files: seq<InFile>) {
    var lens := Lens(files);
    && |data| == BLKSZ * Used(lens, |files|)
    && forall i :: 0 <= i < |files| ==> FileDataOk(data, BLKSZ * Used(lens, i), files[i].bytes)
  }

  predicate FileDataOk(data: seq<Byte>, at: nat, bytes: seq<Byte>) {
    at + |bytes| <= |data| && data[at..at + |bytes|] == bytes
  }

  predicate IsImage(image: seq<Byte>, files: seq<InFile>) {
    var n := |files|;
    && BLKSZ + BLKSZ * n <= |image|
    && BootOk(image[..BLKSZ], files)
    && InodesOk(image[BLKSZ..BLKSZ + BLKSZ * n], Lens(files))
    && DataOk(image[BLKSZ + BLKSZ * n..], files)
  }

  /** In bytes of the image: the counts of entries, inodes and blocks; entry x, with name and inode
      number; inode i, with the length and the block numbers from those listed before on; and the data
      behind the inodes, each file from the blocks written before on. */
  lemma ImageLayout(image: seq<Byte>, files: seq<InFile>)
    requires IsImage(image, files)
    ensures var n := |files|; var lens := Lens(files);
      && |image| == 0x1000 + 0x1000 * n + 0x1000 * Used(lens, n)
      && FromLe(image[0..4]) == n && FromLe(image[4..8]) == n && FromLe(image[8..12]) == Listed(lens, n)
      && forall i :: 0 <= i < n ==> FileLayout(image, n, i, files[i], Listed(lens, i), Used(lens, i))
  {
    hide Listed, Used, DentryOk, InodeOk, FileDataOk, Le32;
    ImageHeader(image, files);
    BootWords(image);
    var n, lens := |files|, Lens(files);
    forall i | 0 <= i < n ensures FileLayout(image, n, i, files[i], Listed(lens, i), Used(lens, i)) {
      assert DentryOk(image[..BLKSZ], i, files[i].name);
      assert InodeOk(image[BLKSZ..BLKSZ + BLKSZ * n], BLKSZ * i, lens[i], Listed(lens, i));
      assert FileDataOk(image[BLKSZ + BLKSZ * n..], BLKSZ * Used(lens, i), files[i].bytes);
      EntryLayout(image, i, files[i].name);
      InodeLayout(image, n, i, lens[i], Listed(lens, i));
      DataLayout(image, n, Used(lens, i), files[i].bytes);
    }
  }

  ghost predicate FileLayout(image: seq<Byte>, n: nat, i: nat, file: InFile, first: nat, start: nat) {
    var entry, inode, data := 64 + 64 * i, 0x1000 + 0x1000 * i, 0x1000 + 0x1000 * n + 0x1000 * start;
    && entry + 64 <= inode + 0x1000 <= |image| && data + |file.bytes| <= |image|
    && image[entry..entry + 32] == NameField(file.name) && FromLe(image[entry + 32..entry + 36]) == i
    && FromLe(image[inode..inode + 4]) == |file.bytes|
    && (forall j :: 0 <= j <= |file.bytes| / 0x1000 ==> BlockField(image, inode, j, first))
    && image[data..data + |file.bytes|] == file.bytes
  }

  /** The j-th block number of the inode at `inode` is the j-th from `first` on. */
  predicate BlockField(image: seq<Byte>, inode: nat, j: nat, first: nat) {
    inode + 8 + 4 * j <= inode + 0x1000 <= |image| && FromLe(image[inode + 4 + 4 * j..inode + 8 + 4 * j]) == first + j
  }

  lemma BootWords(image: seq<Byte>)
    requires BLKSZ <= |image|
    ensures Le32(image[..BLKSZ], 0) == FromLe(image[0..4]) && Le32(image[..BLKSZ], 4) == FromLe(image[4..8])
    ensures Le32(image[..BLKSZ], 8) == FromLe(image[8..12])
  {
    hide FromLe;
    assert image[..BLKSZ] == image[0..0 + BLKSZ];
    PartLe32(image, 0, BLKSZ, 0);
    PartLe32(image, 0, BLKSZ, 4);
    PartLe32(image, 0, BLKSZ, 8);
  }

  lemma EntryLayout(image: seq<Byte>, i: nat, name: CString)
    requires BLKSZ <= |image| && i < DENTRIES && DentryOk(image[..BLKSZ], i, name)
    ensures image[64 + 64 * i..64 + 64 * i + 32] == NameField(name)
    ensures FromLe(image[64 + 64 * i + 32..64 + 64 * i + 36]) == i
  {
    hide FromLe, NameField;
    var at := 64 + 64 * i;
    assert image[..BLKSZ][at..at + 32] == image[at..at + 32];
    assert image[..BLKSZ] == image[0..0 + BLKSZ];
    PartLe32(image, 0, BLKSZ, at + 32);
  }

  lemma InodeLayout(image: seq<Byte>, n: nat, i: nat, len: nat, first: nat)
    requires i < n && BLKSZ + BLKSZ * n <= |image|
    requires InodeOk(image[BLKSZ..BLKSZ + BLKSZ * n], BLKSZ * i, len, first)
    ensures var inode := 0x1000 + 0x1000 * i;
      && FromLe(image[inode..inode + 4]) == len
      && forall j :: 0 <= j <= len / 0x1000 ==> BlockField(image, inode, j, first)
  {
    hide FromLe;
    PartLe32(image, BLKSZ, BLKSZ * n, BLKSZ * i);
    var inode := 0x1000 + 0x1000 * i;
    forall j | 0 <= j <= len / 0x1000 ensures BlockField(image, inode, j, first) {
      assert j < ListedFor(len);
      PartLe32(image, BLKSZ, BLKSZ * n, BLKSZ * i + 4 + 4 * j);
    }
  }

  lemma DataLayout(image: seq<Byte>, n: nat, start: nat, bytes: seq<Byte>)
    requires BLKSZ + BLKSZ * n <= |image| && FileDataOk(image[BLKSZ + BLKSZ * n..], BLKSZ * start, bytes)
    ensures var data := 0x1000 + 0x1000 * n + 0x1000 * start;
      data + |bytes| <= |image| && image[data..data + |bytes|] == bytes
  {
    var part := BLKSZ + BLKSZ * n;
    var at := BLKSZ * start;
    assert image[part..][at..at + |bytes|] == image[part + at..part + at + |bytes|];
  }

  // --- what the file system reads in an image ---

  lemma ImageHeader(image: seq<Byte>, files: seq<InFile>)
    requires IsImage(image, files)
    ensures MetaOk(image) && NumInodes(image) == |files|
    ensures DataAt(image) == BLKSZ + BLKSZ * |files|
    ensures |image| == DataAt(image) + BLKSZ * Used(Lens(files), |files|)
  {
    hide Le32, InodesOk, DentryOk, FileDataOk, Used, Listed;
    PartLe32(image, 0, BLKSZ, 4);
    assert image[0..0 + BLKSZ] == image[..BLKSZ];
  }

  /** A field of a part of the disk. */
  lemma PartLe32(disk: seq<Byte>, at: nat, n: nat, off: nat)
    requires at + n <= |disk| && off + 4 <= n
    ensures Le32(disk[at..at + n], off) == Le32(disk, at + off)
  {
    var part := disk[at..at + n];
    var field := part[off..off + 4];
    assert forall k :: 0 <= k < 4 ==> field[k] == disk[at + off + k];
    assert field == disk[at + off..at + off + 4];
  }

  lemma ImageInode(image: seq<Byte>, files: seq<InFile>, i: nat)
    requires IsImage(image, files) && i < |files|
    ensures IsInode(image, i) && Length(image, i) == |files[i].bytes| < BLKSZ * BLOCKS
    ensures forall k: nat :: BLKSZ * k < |files[i].bytes| ==>
              k < BLOCKS && BlockNo(image, i, k) == Listed(Lens(files), i) + k
  {
    hide Le32, BootOk, DataOk, Listed, Used;
    ImageHeader(image, files);
    var n := |files|;
    var mem := image[BLKSZ..BLKSZ + BLKSZ * n];
    var len := |files[i].bytes|;
    assert InodeOk(mem, BLKSZ * i, len, Listed(Lens(files), i));
    PartLe32(image, BLKSZ, BLKSZ * n, BLKSZ * i);
    forall k: nat | BLKSZ * k < len
      ensures k < BLOCKS && BlockNo(image, i, k) == Listed(Lens(files), i) + k
    {
      assert k < ListedFor(len);
      PartLe32(image, BLKSZ, BLKSZ * n, BLKSZ * i + 4 + 4 * k);
    }
  }

  // --- names ---

  predicate NamesOk(files: seq<InFile>) {
    && (forall i :: 0 <= i < |files| ==> |files[i].name| < NAMELEN)
    && (forall i, j :: 0 <= i < j < |files| ==> files[i].name != files[j].name)
  }

  /** A short name matches its own entry and no entry of another short name. */
  lemma EntryMatches(boot: seq<Byte>, x: nat, name: CString, other: CString)
    requires |boot| == BLKSZ && x < DENTRIES && DentryOk(boot, x, name)
    requires |name| < NAMELEN && |other| < NAMELEN
    ensures IsString(other, boot, DentryAt(x)) <==> other == name
  {
    var at := DentryAt(x);
    var field := boot[at..at + NAMELEN];
    assert forall k :: 0 <= k < NAMELEN ==> boot[at + k] == field[k];
    assert boot[at..at + |name|] == field[..|name|];
    assert boot[at..at + |other|] == field[..|other|];
    assert field[..|name|] == name;
    if IsString(other, boot, at) { SameString(field, name, other); }
  }

  /** The string in a name field is the name. */
  lemma SameString(field: seq<Byte>, name: CString, other: CString)
    requires field == NameField(name) && |name| < NAMELEN && |other| < NAMELEN
    requires field[..|other|] == other && field[|other|] == 0
    ensures other == name
  {
    assert field[..|name|] == name && field[|name|] == 0;
    assert forall k :: 0 <= k < |name| ==> field[k] == name[k] && field[k] != 0;
    assert forall k :: 0 <= k < |other| ==> field[k] == other[k] && field[k] != 0;
  }

  lemma {:induction false} LookupFrom(boot: seq<Byte>, files: seq<InFile>, i: nat, x: nat)
    requires BootOk(boot, files) && NamesOk(files) && x <= i < |files|
    ensures Lookup(boot, files[i].name, x) == Some(i)
    decreases i - x
  {
    hide Le32, IsString, DentryOk;
    EntryMatches(boot, x, files[x].name, files[i].name);
    if x < i {
      LookupFrom(boot, files, i, x + 1);
    } else {
      EntryInode(boot, x, files[x].name);
    }
  }

  lemma EntryInode(boot: seq<Byte>, x: nat, name: CString)
    requires |boot| == BLKSZ && x < DENTRIES && DentryOk(boot, x, name)
    ensures Le32(boot, DentryAt(x) + NAMELEN) == x
  {
  }

  /** Opening a file by its name finds its inode. */
  lemma ImageLookup(image: seq<Byte>, files: seq<InFile>, i: nat)
    requires IsImage(image, files) && NamesOk(files) && i < |files|
    ensures Lookup(image[..BLKSZ], files[i].name, 0) == Some(i)
  {
    LookupFrom(image[..BLKSZ], files, i, 0);
  }

  // --- the numbers of data blocks ---

  /** How many of the first k files have a length that is a multiple of the block size. */
  function Aligned(lens: seq<nat>, k: nat): nat
    requires k <= |lens|
  {
    if k == 0 then 0 else Aligned(lens, k - 1) + if lens[k - 1] % BLKSZ == 0 then 1 else 0
  }

  /** Each such file has a block in its inode that is never written. */
  lemma {:induction false} ListedExceedsUsed(lens: seq<nat>, k: nat)
    requires k <= |lens|
    ensures Listed(lens, k) == Used(lens, k) + Aligned(lens, k)
  {
    if k > 0 {
      ListedExceedsUsed(lens, k - 1);
      OneFile(lens[k - 1]);
    }
  }

  lemma OneFile(len: nat)
    ensures ListedFor(len) == WrittenFor(len) + if len % BLKSZ == 0 then 1 else 0
  {
    var q, r := len / BLKSZ, len % BLKSZ;
    assert len == BLKSZ * q + r;
    if r == 0 { assert (BLKSZ * q + BLKSZ - 1) / BLKSZ == q; }
  }

  /** No file with data comes after a file whose length is a multiple of the block size. */
  predicate Packed(lens: seq<nat>) {
    forall i, j :: 0 <= i < j < |lens| && lens[i] % BLKSZ == 0 ==> lens[j] == 0
  }

  lemma {:induction false} PackedAligned(lens: seq<nat>, i: nat, k: nat)
    requires Packed(lens) && k <= i < |lens| && lens[i] != 0
    ensures Aligned(lens, k) == 0
  {
    if k > 0 { PackedAligned(lens, i, k - 1); }
  }

  lemma {:induction false} UsedMonotone(lens: seq<nat>, i: nat, k: nat)
    requires i <= k <= |lens|
    ensures Used(lens, i) <= Used(lens, k) && Listed(lens, i) <= Listed(lens, k) && Aligned(lens, i) <= Aligned(lens, k)
    decreases k - i
  {
    if i < k { UsedMonotone(lens, i, k - 1); }
  }

  /** The k-th block of a file with data there, and the blocks written before and with it. */
  lemma BlockOfFile(lens: seq<nat>, i: nat, k: nat)
    requires i < |lens| && BLKSZ * k < lens[i]
    ensures k < WrittenFor(lens[i]) <= ListedFor(lens[i])
    ensures Used(lens, i) + k < Used(lens, i + 1) <= Used(lens, |lens|)
    ensures Listed(lens, i) + k < Listed(lens, i + 1)
  {
    OneFile(lens[i]);
    CeilIs(lens[i], k);
    UsedMonotone(lens, i + 1, |lens|);
  }

  lemma CeilIs(len: nat, k: nat)
    ensures BLKSZ * k < len <==> k < WrittenFor(len)
  {
  }

  // --- when the files are found ---

  /** The file system finds these bytes as file i. */
  ghost predicate Faithful(image: seq<Byte>, i: nat, bytes: seq<Byte>) {
    FileOk(image, i) && Contents(image, i) == bytes
  }

  lemma FileInImage(image: seq<Byte>, files: seq<InFile>, i: nat)
    requires IsImage(image, files) && i < |files|
    requires files[i].bytes != [] ==> Aligned(Lens(files), i) == 0
    ensures FileOk(image, i)
  {
    hide IsImage, Length, BlockNo, Listed, Used, Aligned, MetaOk, NumInodes, DataAt;
    ImageHeader(image, files);
    ImageInode(image, files, i);
    var lens := Lens(files);
    ListedExceedsUsed(lens, i);
    forall k: nat | UsesBlock(image, i, k) ensures BlockAt(image, BlockNo(image, i, k)) + BLKSZ <= |image| {
      BlockOfFile(lens, i, k);
    }
  }

  lemma ByteInImage(image: seq<Byte>, files: seq<InFile>, i: nat, p: nat)
    requires IsImage(image, files) && i < |files| && p < |files[i].bytes| && Aligned(Lens(files), i) == 0
    requires FileOk(image, i) && Length(image, i) == |files[i].bytes|
    ensures Contents(image, i)[p] == files[i].bytes[p]
  {
    hide InodesOk, BootOk, Length, BlockNo, Listed, Used, Aligned, MetaOk, NumInodes;
    ImageHeader(image, files);
    ImageInode(image, files, i);
    var lens := Lens(files);
    ListedExceedsUsed(lens, i);
    var at := DataAt(image);
    var data := image[at..];
    assert FileDataOk(data, BLKSZ * Used(lens, i), files[i].bytes);
    assert BLKSZ * (p / BLKSZ) <= p;
    assert Addr(image, i, p) == at + BLKSZ * (Used(lens, i) + p / BLKSZ) + p % BLKSZ;
    assert Addr(image, i, p) == at + (BLKSZ * Used(lens, i) + p);
    assert data[BLKSZ * Used(lens, i)..BLKSZ * Used(lens, i) + |files[i].bytes|][p] == files[i].bytes[p];
  }

  lemma FileFaithful(image: seq<Byte>, files: seq<InFile>, i: nat)
    requires IsImage(image, files) && i < |files|
    requires files[i].bytes != [] ==> Aligned(Lens(files), i) == 0
    ensures Faithful(image, i, files[i].bytes)
  {
    hide IsImage, Length, FileOk, Aligned;
    FileInImage(image, files, i);
    ImageInode(image, files, i);
    forall p | 0 <= p < |files[i].bytes| ensures Contents(image, i)[p] == files[i].bytes[p] {
      ByteInImage(image, files, i, p);
    }
  }

  /** The last byte of the last file with data lies beyond the image, if an aligned file precedes. */
  lemma LastByteBeyond(image: seq<Byte>, files: seq<InFile>, i: nat)
    requires IsImage(image, files) && i < |files| && files[i].bytes != []
    requires Aligned(Lens(files), i) > 0 && forall j :: i < j < |files| ==> files[j].bytes == []
    ensures var k := (|files[i].bytes| - 1) / BLKSZ;
            UsesBlock(image, i, k) && BlockAt(image, BlockNo(image, i, k)) >= |image|
    ensures !FileOk(image, i)
  {
    hide IsImage, Length, BlockNo, Listed, Used, Aligned, MetaOk, NumInodes, DataAt;
    ImageHeader(image, files);
    ImageInode(image, files, i);
    var lens := Lens(files);
    var k := (|files[i].bytes| - 1) / BLKSZ;
    assert BLKSZ * k < |files[i].bytes| <= BLKSZ * (k + 1);
    ListedExceedsUsed(lens, i);
    CeilIs(lens[i], k + 1);
    NoMoreUsed(lens, i, |lens|);
    assert UsesBlock(image, i, k);
  }

  lemma {:induction false} NoMoreUsed(lens: seq<nat>, i: nat, k: nat)
    requires i < k <= |lens| && forall j :: i < j < |lens| ==> lens[j] == 0
    ensures Used(lens, k) == Used(lens, i) + WrittenFor(lens[i])
  {
    if k > i + 1 { NoMoreUsed(lens, i, k - 1); }
  }

  /** The last file with data from i on. */
  lemma {:induction false} LastWithData(files: seq<InFile>, i: nat) returns (l: nat)
    requires i < |files| && files[i].bytes != []
    ensures i <= l < |files| && files[l].bytes != [] && forall j :: l < j < |files| ==> files[j].bytes == []
    decreases |files| - i
  {
    if j :| i < j < |files| && files[j].bytes != [] {
      l := LastWithData(files, j);
    } else {
      l := i;
    }
  }

  lemma {:induction false} AlignedBefore(lens: seq<nat>, i: nat, k: nat)
    requires i < k <= |lens| && lens[i] % BLKSZ == 0
    ensures Aligned(lens, k) > 0
  {
    if k > i + 1 { AlignedBefore(lens, i, k - 1); }
  }

  /** Every file is found in an image, whatever its contents, if and only if no file with data comes
      after a file whose length is a multiple of the block size. */
  lemma FaithfulIffPacked(image: seq<Byte>, files: seq<InFile>)
    requires IsImage(image, files)
    ensures (forall i :: 0 <= i < |files| ==> Faithful(image, i, files[i].bytes)) <==> Packed(Lens(files))
  {
    hide IsImage, Aligned, FileOk;
    var lens := Lens(files);
    if Packed(lens) {
      forall i | 0 <= i < |files| ensures Faithful(image, i, files[i].bytes) {
        if files[i].bytes != [] { PackedAligned(lens, i, i); }
        FileFaithful(image, files, i);
      }
    } else {
      var i, j :| 0 <= i < j < |lens| && lens[i] % BLKSZ == 0 && lens[j] != 0;
      var l := LastWithData(files, j);
      AlignedBefore(lens, i, l);
      LastByteBeyond(image, files, l);
      assert !Faithful(image, l, files[l].bytes);
    }
  }

  /** For example, a one-byte file that comes after an empty one is not found. */
  lemma LostFile(image: seq<Byte>, files: seq<InFile>)
    requires files == [InFile([97], []), InFile([98], [7])] && IsImage(image, files)
    ensures !FileOk(image, 1)
  {
    hide IsImage, FileOk;
    assert Lens(files)[0] == 0 && Lens(files)[1] == 1;
    AlignedBefore(Lens(files), 0, 1);
    LastByteBeyond(image, files, 1);
  }

  /** The images of such files are well formed. */
  lemma ImageFsOk(image: seq<Byte>, files: seq<InFile>)
    requires IsImage(image, files) && Packed(Lens(files))
    ensures FsOk(image)
  {
    hide IsImage, Aligned, FileOk, BlocksApart, Packed, NumInodes, Length, BlockNo, DataAt;
    ImageHeader(image, files);
    forall i: nat | IsInode(image, i) ensures FileOk(image, i) {
      if files[i].bytes != [] { PackedAligned(Lens(files), i, i); }
      FileInImage(image, files, i);
    }
    ImageBlocksApart(image, files);
  }

  lemma ImageBlocksApart(image: seq<Byte>, files: seq<InFile>)
    requires IsImage(image, files)
    ensures BlocksApart(image)
  {
    hide IsImage, Length, BlockNo, Listed, NumInodes, MetaOk;
    ImageHeader(image, files);
    var lens := Lens(files);
    forall i: nat, k: nat, j: nat, l: nat | UsesBlock(image, i, k) && UsesBlock(image, j, l) && (i != j || k != l)
      ensures BlockNo(image, i, k) != BlockNo(image, j, l)
    {
      ImageInode(image, files, i);
      ImageInode(image, files, j);
      if i < j { NumbersApart(lens, i, k, j, l); } else if j < i { NumbersApart(lens, j, l, i, k); }
    }
  }

  lemma NumbersApart(lens: seq<nat>, i: nat, k: nat, j: nat, l: nat)
    requires i < j < |lens| && BLKSZ * k < lens[i]
    ensures Listed(lens, i) + k < Listed(lens, j) + l
  {
    BlockOfFile(lens, i, k);
    UsedMonotone(lens, i + 1, j);
  }
}
