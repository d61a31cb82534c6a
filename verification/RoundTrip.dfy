/** The storage stack as a whole: an image is made of files, put on a disk behind the block device,
    mounted, and its files are opened, read and written through the file system. */
module RoundTrip {
  import opened Common
  import opened Bytes
  import opened IoLit
  import opened KfsFormat
  import opened MkfsImage
  import Mkfs
  import opened Vioblk
  import opened Kfs

  predicate Sizes(ns: seq<nat>) { forall i :: 0 <= i < |ns| ==> ns[i] < 0x1_0000_0000 }

  /** The file system on a disk with the image of the files. */
  method Boot(files: seq<InFile>, readonly: bool) returns (fs: FileSystem)
    requires Mkfs.SizesOk(Lens(files)) && NamesOk(files) && Packed(Lens(files))
    ensures fresh(fs) && fresh(fs.dev) && fresh(fs.dev.blkbuf) && fs.Mounted() && fs.dev.readonly == readonly
    ensures IsImage(fs.dev.disk, files) && fs.boot == fs.dev.disk[..BLKSZ]
    ensures forall x :: 0 <= x < NFILES ==> !fs.fileArray[x].inUse
  {
    hide IsImage, FsOk, Packed, Lookup;
    var image := Mkfs.MakeImage(files);
    ImageSize(image, files);
    ImageFsOk(image, files);
    var dev := new BlockDevice(image, readonly);
    fs := new FileSystem(dev);
    var mounted := fs.Mount();
  }

  lemma ImageSize(image: seq<Byte>, files: seq<InFile>)
    requires IsImage(image, files)
    ensures |image| % 512 == 0 && BLKSZ <= |image|
  {
    hide IsImage, Used, Listed;
    ImageHeader(image, files);
    var n := 1 + |files| + Used(Lens(files), |files|);
    assert |image| == 512 * (8 * n);
  }

  /** A file of the image, opened by its name. */
  method OpenFile(fs: FileSystem, files: seq<InFile>, i: nat) returns (fd: nat)
    requires fs.Mounted() && IsImage(fs.dev.disk, files) && NamesOk(files) && Packed(Lens(files)) && i < |files|
    requires forall x :: 0 <= x < NFILES ==> !fs.fileArray[x].inUse
    modifies fs, fs.dev, fs.dev.blkbuf
    ensures fs.Mounted() && fs.dev.disk == old(fs.dev.disk) && fd < NFILES
    ensures fs.fileArray[fd] == FileDesc(0, |files[i].bytes|, i, true) && IsInode(fs.dev.disk, i)
    ensures FileOk(fs.dev.disk, i) && Contents(fs.dev.disk, i) == files[i].bytes
  {
    hide IsImage, FsOk, Packed, NamesOk, Lookup, FileOk, Contents;
    ghost var disk := fs.dev.disk;
    ImageLookup(disk, files, i);
    ImageHeader(disk, files);
    ImageInode(disk, files, i);
    FaithfulIffPacked(disk, files);
    InodeInside(disk, i);
    assert Faithful(disk, i, files[i].bytes);
    assert !fs.fileArray[0].inUse;
    var r := fs.Open(files[i].name);
    fd := r.value;
  }

  /** Reads of these sizes, one after the other. */
  method ReadChunks(fs: FileSystem, fd: nat, ns: seq<nat>) returns (out: seq<Byte>)
    requires fs.Mounted() && fd < NFILES && fs.fileArray[fd].inUse && IsInode(fs.dev.disk, fs.fileArray[fd].inode)
    requires Sizes(ns) && FileOk(fs.dev.disk, fs.fileArray[fd].inode) && fs.fileArray[fd].size < 0x1_0000_0000
    modifies fs`fileArray, fs.dev, fs.dev.blkbuf
    ensures fs.Mounted() && fs.dev.disk == old(fs.dev.disk)
    ensures var f := old(fs.fileArray)[fd];
            var k := Reach(f.size, f.pos, Sum(ns));
            && FileOk(fs.dev.disk, f.inode) && f.pos + k <= |Contents(fs.dev.disk, f.inode)|
            && out == Contents(fs.dev.disk, f.inode)[f.pos..f.pos + k]
            && fs.fileArray == old(fs.fileArray)[fd := f.(pos := f.pos + k)]
  {
    hide FsOk, FileOk, IsInode, Contents, BlockDevice.QueueOk;
    ghost var f := fs.fileArray[fd];
    FdFile(fs.dev.disk, f);
    ghost var file := Contents(fs.dev.disk, f.inode);
    out := [];
    var i := 0;
    while i < |ns|
      invariant 0 <= i <= |ns| && |out| == Reach(f.size, f.pos, Sum(ns[..i])) && f.pos + |out| <= |file|
      invariant fs.Mounted() && fs.dev.disk == old(fs.dev.disk)
      invariant fs.fileArray == old(fs.fileArray)[fd := f.(pos := f.pos + |out|)]
      invariant out == file[f.pos..f.pos + |out|]
    {
      var piece := fs.Read(fd, ns[i]);
      assert ns[..i + 1][..i] == ns[..i];
      assert file[f.pos..f.pos + |out|] + piece == file[f.pos..f.pos + |out| + |piece|];
      out := out + piece;
      i := i + 1;
    }
    assert ns[..i] == ns;
  }

  /** Reading a file in any sequence of sizes gives its bytes from the start, as many as were asked
      for, and after the last one nothing. */
  method ReadFile(files: seq<InFile>, i: nat, ns: seq<nat>, more: nat) returns (out: seq<Byte>, rest: seq<Byte>)
    requires Mkfs.SizesOk(Lens(files)) && NamesOk(files) && Packed(Lens(files)) && i < |files|
    requires Sizes(ns) && more < 0x1_0000_0000
    ensures var len := |files[i].bytes|;
            out == if Sum(ns) < len then files[i].bytes[..Sum(ns)] else files[i].bytes
    ensures Sum(ns) >= |files[i].bytes| ==> rest == []
  {
    hide IsImage, Packed, NamesOk, FileOk, Contents, FsOk;
    var fs := Boot(files, true);
    var fd := OpenFile(fs, files, i);
    SizeFits(files, i);
    out := ReadChunks(fs, fd, ns);
    rest := fs.Read(fd, more);
  }

  lemma SizeFits(files: seq<InFile>, i: nat)
    requires Mkfs.SizesOk(Lens(files)) && i < |files|
    ensures |files[i].bytes| < 0x1_0000_0000
  {
    Mkfs.LenFits(Lens(files)[i]);
  }

  /** Data written at any position of a file is read back after seeking there, up to the end of the
      file; every other file of the image still has its bytes. */
  method WriteReadBack(files: seq<InFile>, i: nat, pos: nat, data: seq<Byte>)
    returns (count: nat, back: seq<Byte>, ghost disk: seq<Byte>)
    requires Mkfs.SizesOk(Lens(files)) && NamesOk(files) && Packed(Lens(files)) && i < |files|
    requires pos <= |files[i].bytes| && |data| < 0x1_0000_0000
    ensures count == Reach(|files[i].bytes|, pos, |data|) && back == data[..count]
    ensures FsOk(disk) && IsInode(disk, i) && Contents(disk, i) == Written(files[i].bytes, pos, data[..count])
    ensures forall j :: 0 <= j < |files| && j != i ==> IsInode(disk, j) && Contents(disk, j) == files[j].bytes
  {
    hide IsImage, Packed, NamesOk, FileOk, Contents, FsOk, FileWritten;
    var fs := Boot(files, false);
    var fd := OpenFile(fs, files, i);
    SizeFits(files, i);
    var moved := fs.SetPos(fd, pos);
    ghost var before := fs.dev.disk;
    count := fs.Write(fd, data);
    disk := fs.dev.disk;
    ReadsWhatWasWritten(before, i, pos, data[..count], disk);
    WrittenFiles(before, files, i, pos, data[..count], disk);
    moved := fs.SetPos(fd, pos);
    back := fs.Read(fd, count);
  }

  lemma WrittenFiles(disk: seq<Byte>, files: seq<InFile>, i: nat, p: nat, data: seq<Byte>, disk': seq<Byte>)
    requires IsImage(disk, files) && Packed(Lens(files)) && i < |files| && FileWritten(disk, i, p, data, disk')
    ensures FsOk(disk') && IsInode(disk', i)
    ensures p + |data| <= |files[i].bytes| && Contents(disk', i) == Written(files[i].bytes, p, data)
    ensures forall j :: 0 <= j < |files| && j != i ==> IsInode(disk', j) && Contents(disk', j) == files[j].bytes
  {
    hide IsImage, Packed, FileOk, Contents, FsOk, SameMeta, OnlyThere, OthersSame;
    FaithfulIffPacked(disk, files);
    ImageHeader(disk, files);
    assert Faithful(disk, i, files[i].bytes);
    ImageInode(disk, files, i);
    forall j | 0 <= j < |files| && j != i
      ensures IsInode(disk', j) && FileOk(disk', j) && Contents(disk', j) == files[j].bytes
    {
      assert Faithful(disk, j, files[j].bytes);
      OtherFile(disk, i, disk', j);
    }
  }

  lemma OtherFile(disk: seq<Byte>, i: nat, disk': seq<Byte>, j: nat)
    requires FsOk(disk) && FsOk(disk') && OthersSame(disk, i, disk') && j != i && IsInode(disk, j)
    ensures IsInode(disk', j) && FileOk(disk, j) && FileOk(disk', j) && Contents(disk', j) == Contents(disk, j)
  {
    hide FileOk, Contents;
    FileIsOk(disk, j);
    FileIsOk(disk', j);
  }
}
