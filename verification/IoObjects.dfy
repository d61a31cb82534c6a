/** The io_intf of a program to be loaded: a block of memory or an open file. Both have bytes and a
    position, and ioread and ioseek do the same to them. */
module IoObjects {
  import opened Common
  import opened Bytes
  import opened IoLit
  import opened KfsFormat
  import opened Kfs

  datatype IoObject = Literal(lit: Lit) | KfsFile(fs: FileSystem, fd: nat) {

    function Repr(): set<object> {
      match this
      case Literal(lit) => {lit, lit.buf}
      case KfsFile(fs, fd) => {fs, fs.dev, fs.dev.blkbuf}
    }

    ghost predicate Ready()
      reads Repr()
    {
      match this
      case Literal(lit) => lit.pos <= lit.Size() < 0x8000_0000_0000_0000
      case KfsFile(fs, fd) =>
        && fs.Mounted() && fd < NFILES && fs.fileArray[fd].inUse
        && IsInode(fs.dev.disk, fs.fileArray[fd].inode) && FileOk(fs.dev.disk, fs.fileArray[fd].inode)
        && FdOk(fs.dev.disk, fs.fileArray[fd])
    }

    ghost function File(): seq<Byte>
      requires Ready()
      reads Repr()
    {
      match this
      case Literal(lit) => lit.File()
      case KfsFile(fs, fd) => KfsFormat.Contents(fs.dev.disk, fs.fileArray[fd].inode)
    }

    ghost function Pos(): (p: nat)
      requires Ready()
      reads Repr()
      ensures p <= |File()|
    {
      match this
      case Literal(lit) => lit.pos
      case KfsFile(fs, fd) => fs.fileArray[fd].pos
    }

    method Read(n: nat) returns (bytes: seq<Byte>)
      requires Ready() && n < 0x8000_0000_0000_0000
      modifies Repr()
      ensures Ready() && File() == old(File())
      ensures bytes == ReadAt(File(), old(Pos()), n) && Pos() == old(Pos()) + |bytes| <= |File()|
    {
      hide FsOk, FileOk, IsInode, KfsFormat.Contents;
      match this
      case Literal(lit) =>
        var r := lit.Read(n);
        bytes := r.value;
      case KfsFile(fs, fd) =>
        ghost var f := fs.fileArray[fd];
        FdFile(fs.dev.disk, f);
        assert f.size < 0x1_0000_0000 by { SizeIs32(fs.dev.disk, f); }
        bytes := fs.Read(fd, n);
    }

    method Seek(newPos: nat) returns (ok: bool)
      requires Ready()
      modifies Repr()
      ensures Ready() && File() == old(File()) && (ok <==> newPos <= |File()|)
      ensures Pos() == if ok then newPos else old(Pos())
    {
      hide FsOk, FileOk, IsInode, KfsFormat.Contents;
      match this
      case Literal(lit) => ok := lit.SetPos(newPos);
      case KfsFile(fs, fd) =>
        FdFile(fs.dev.disk, fs.fileArray[fd]);
        var r := fs.SetPos(fd, newPos);
        ok := r.Ok?;
    }
  }

  lemma SizeIs32(disk: seq<Byte>, f: FileDesc)
    requires IsInode(disk, f.inode) && FdOk(disk, f)
    ensures f.pos <= f.size < 0x1_0000_0000
  {
  }
}
