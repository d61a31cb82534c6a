/** kfs.c: the file system over the block device. */
module Kfs {
  import opened Common
  import opened Bytes
  import opened IoLit
  import opened KfsFormat
  import opened Vioblk

  const NFILES: nat := 32
  const EBUSY: nat := 2
  const EBADFMT: nat := 6

  /** file_desc_t; inUse is its flags member. */
  datatype FileDesc = FileDesc(pos: nat, size: nat, inode: nat, inUse: bool)

  class FileSystem {
    const dev: BlockDevice
    var boot: seq<Byte>
    var fileArray: seq<FileDesc>

    ghost predicate Valid()
      reads this, dev
    {
      && dev.Usable() && |fileArray| == NFILES
    }

    /** Mounted, on a disk whose files are well formed; an open file is positioned inside its file. */
    ghost predicate Mounted()
      reads this, dev
    {
      && Valid() && FsOk(dev.disk)
      && |boot| == BLKSZ && BLKSZ <= |dev.disk| && boot == dev.disk[..BLKSZ]
      && forall x :: 0 <= x < NFILES && fileArray[x].inUse ==> FdOk(dev.disk, fileArray[x])
    }

    constructor (dev: BlockDevice)
      requires dev.Usable()
      ensures Valid() && this.dev == dev && forall x :: 0 <= x < NFILES ==> !fileArray[x].inUse
    {
      this.dev := dev;
      boot := [];
      fileArray := seq(NFILES, _ => FileDesc(0, 0, 0, false));
    }

    /** fs_mount: no file is open, and the boot block is read from where the device is positioned. */
    method Mount() returns (r: Result<()>)
      requires Valid()
      modifies this, dev, dev.blkbuf
      ensures Valid() && dev.disk == old(dev.disk) && forall x :: 0 <= x < NFILES ==> !fileArray[x].inUse
      ensures r == if old(dev.pos) + BLKSZ <= dev.size then Ok(()) else Err(EIO)
      ensures r.Ok? ==> boot == dev.disk[old(dev.pos)..old(dev.pos) + BLKSZ]
    {
      fileArray := seq(NFILES, _ => FileDesc(0, 0, 0, false));
      var res := dev.Read(BLKSZ);
      boot := res.value;
      if |boot| == BLKSZ { return Ok(()); }
      return Err(EIO);
    }

    // --- fs_open ---

    /** strcmp(name, p) == 0 for the string p at `at` in the boot block. */
    method StringEquals(name: CString, at: nat) returns (b: bool)
      ensures b <==> IsString(name, boot, at)
    {
      var i := 0;
      while i < |name| && at + i < |boot| && boot[at + i] == name[i]
        invariant 0 <= i <= |name| && (at + i <= |boot| || i == 0)
        invariant i > 0 ==> boot[at..at + i] == name[..i]
      {
        assert boot[at..at + i + 1] == boot[at..at + i] + [boot[at + i]];
        i := i + 1;
      }
      if i < |name| {
        assert !IsString(name, boot, at) by { if IsString(name, boot, at) { StringAt(name, boot, at, i); } }
        return false;
      }
      return at + i < |boot| && boot[at + i] == 0;
    }

    /** The first entry with this name. */
    method FindEntry(name: CString) returns (r: Option<nat>)
      requires |boot| == BLKSZ
      ensures r == Lookup(boot, name, 0)
    {
      var x := 0;
      while x < DENTRIES
        invariant 0 <= x <= DENTRIES && Lookup(boot, name, 0) == Lookup(boot, name, x)
      {
        var found := StringEquals(name, DentryAt(x));
        if found { return Some(Le32(boot, DentryAt(x) + NAMELEN)); }
        x := x + 1;
      }
      return None;
    }

    method FreeSpot() returns (spot: nat)
      requires |fileArray| == NFILES && exists x :: 0 <= x < NFILES && !fileArray[x].inUse
      ensures spot < NFILES && !fileArray[spot].inUse && forall x :: 0 <= x < spot ==> fileArray[x].inUse
    {
      spot := 0;
      while fileArray[spot].inUse
        invariant spot < NFILES && forall x :: 0 <= x < spot ==> fileArray[x].inUse
        decreases NFILES - spot
      {
        spot := spot + 1;
      }
    }

    /** The length that an inode gives; EBUSY and EBADFMT where it lies beyond the end of the disk. */
    method ReadLength(inode: nat) returns (r: Result<nat>)
      requires Valid()
      modifies dev, dev.blkbuf
      ensures dev.Valid() && dev.isOpen && dev.disk == old(dev.disk)
      ensures dev.locked <==> dev.size < InodeAt(inode)
      ensures r == if InodeAt(inode) + 4 <= dev.size then Ok(Le32(dev.disk, InodeAt(inode)))
                   else if InodeAt(inode) <= dev.size then Err(EBADFMT) else Err(EBUSY)
    {
      hide BlockDevice.QueueOk;
      var sought := dev.SetPos(InodeAt(inode));
      if sought.Err? { return Err(EBUSY); }
      var res := dev.Read(4);
      if |res.value| != 4 { return Err(EBADFMT); }
      Pow256At4();
      return Ok(FromLe(res.value));
    }

    /** A descriptor at the start of the file of that name. Where the inode lies beyond the end of the
        disk the device keeps its lock, and nothing can be read any more. */
    method Open(name: CString) returns (r: Result<nat>)
      requires Mounted() && exists x :: 0 <= x < NFILES && !fileArray[x].inUse
      requires Lookup(boot, name, 0).Some? ==> Lookup(boot, name, 0).value < INODES
      modifies this, dev, dev.blkbuf
      ensures dev.disk == old(dev.disk) && boot == old(boot)
      ensures dev.locked <==> Lookup(boot, name, 0).Some? && dev.size < InodeAt(Lookup(boot, name, 0).value)
      ensures !dev.locked ==> Mounted()
      ensures r.Ok? <==> Lookup(boot, name, 0).Some? && InodeAt(Lookup(boot, name, 0).value) + 4 <= dev.size
      ensures Lookup(boot, name, 0).None? ==> r == Err(EINVAL)
      ensures r.Err? && Lookup(boot, name, 0).Some? ==> r == Err(if dev.locked then EBUSY else EBADFMT)
      ensures r.Err? ==> fileArray == old(fileArray)
      ensures r.Ok? ==>
        && r.value < NFILES && !old(fileArray[r.value]).inUse
        && fileArray == old(fileArray)[r.value := fileArray[r.value]]
        && var inode := Lookup(boot, name, 0).value;
           fileArray[r.value] == FileDesc(0, Le32(dev.disk, InodeAt(inode)), inode, true)
    {
      hide FsOk, BlockDevice.QueueOk;
      var entry := FindEntry(name);
      if entry.None? { return Err(EINVAL); }
      var spot := FreeSpot();
      var length := ReadLength(entry.value);
      if length.Err? { return Err(length.code); }
      fileArray := fileArray[spot := FileDesc(0, length.value, entry.value, true)];
      return Ok(spot);
    }

    /** fs_setpos. */
    method SetPos(fd: nat, newPos: nat) returns (r: Result<()>)
      requires Mounted() && fd < NFILES && fileArray[fd].inUse
      modifies `fileArray
      ensures Mounted()
      ensures r == if newPos <= old(fileArray)[fd].size then Ok(()) else Err(EIO)
      ensures fileArray == if r.Ok? then old(fileArray)[fd := old(fileArray)[fd].(pos := newPos)] else old(fileArray)
    {
      if newPos > fileArray[fd].size { return Err(EIO); }
      fileArray := fileArray[fd := fileArray[fd].(pos := newPos)];
      return Ok(());
    }

    // --- fs_read and fs_write ---

    /** A seek and a read. */
    method ReadAt(a: nat, n: nat) returns (bytes: seq<Byte>)
      requires Valid() && n > 0 && a + n <= dev.size
      modifies dev, dev.blkbuf
      ensures dev.Usable() && dev.disk == old(dev.disk)
      ensures bytes == dev.disk[a..a + n]
    {
      var sought := dev.SetPos(a);
      var res := dev.Read(n);
      bytes := res.value;
    }

    method ReadField(off: nat) returns (n: nat)
      requires Valid() && off + 4 <= dev.size
      modifies dev, dev.blkbuf
      ensures dev.Usable() && dev.disk == old(dev.disk) && n == Le32(dev.disk, off)
    {
      var bytes := ReadAt(off, 4);
      Pow256At4();
      n := FromLe(bytes);
    }

    /** The address of byte pos of the file, through the inode's block numbers. */
    method Locate(inode: nat, numInodes: nat, pos: nat) returns (a: nat)
      requires Valid() && FsOk(dev.disk) && IsInode(dev.disk, inode) && numInodes == NumInodes(dev.disk)
      requires pos < Length(dev.disk, inode)
      modifies dev, dev.blkbuf
      ensures Valid() && dev.disk == old(dev.disk)
      ensures FileOk(dev.disk, inode) && a == Addr(dev.disk, inode, pos)
    {
      UsedBlock(dev.disk, inode, pos);
      InodeInside(dev.disk, inode);
      var blockNum := pos / BLKSZ;
      var blockSpot := ReadField(InodeAt(inode) + (4 + blockNum * 4));
      a := BLKSZ + BLKSZ * numInodes + BLKSZ * blockSpot + pos % BLKSZ;
    }

    /** The part of n bytes at the file's position that lies in one block: its address and length. */
    method Target(f: FileDesc, numInodes: nat, n: nat) returns (a: nat, m: nat)
      requires Valid() && FsOk(dev.disk) && IsInode(dev.disk, f.inode) && numInodes == NumInodes(dev.disk)
      requires 0 < n && f.pos + n <= Length(dev.disk, f.inode)
      modifies dev, dev.blkbuf
      ensures dev.Usable() && dev.disk == old(dev.disk)
      ensures 1 <= m <= n && f.pos % BLKSZ + m <= BLKSZ && a + m <= |dev.disk|
      ensures FileOk(dev.disk, f.inode) && a == Addr(dev.disk, f.inode, f.pos)
    {
      hide FsOk, FileOk, IsInode, Contents;
      a := Locate(f.inode, numInodes, f.pos);
      var left := BLKSZ - f.pos % BLKSZ;
      m := if left <= n then left else n;
      BlockSlice(dev.disk, f.inode, f.pos, m);
    }

    /** What n bytes from the descriptor's position on come to, given the length of the file. */
    method Clamp(fd: nat, want: nat) returns (numInodes: nat, n: nat)
      requires Mounted() && fd < NFILES && fileArray[fd].inUse && IsInode(dev.disk, fileArray[fd].inode)
      requires fileArray[fd].pos + want < TWO_64
      modifies dev, dev.blkbuf
      ensures dev.Usable() && dev.disk == old(dev.disk) && numInodes == NumInodes(dev.disk)
      ensures n == Reach(fileArray[fd].size, fileArray[fd].pos, want)
    {
      hide FsOk;
      var f := fileArray[fd];
      InodeInside(dev.disk, f.inode);
      numInodes := ReadField(4);
      var length := ReadField(InodeAt(f.inode));
      n := if f.pos + want > length then length - f.pos else want;
    }

    /** ioctl with IOCTL_SETPOS, to a position inside the file. */
    method Advance(fd: nat, f: FileDesc, m: nat)
      requires Mounted() && fd < NFILES && fileArray[fd] == f && f.inUse && f.pos + m <= f.size
      modifies `fileArray
      ensures Mounted() && fileArray == old(fileArray)[fd := f.(pos := f.pos + m)]
    {
      var moved := SetPos(fd, f.pos + m);
    }

    /** One round of the loop of fs_read: up to the end of a block. */
    method ReadBlock(fd: nat, numInodes: nat, n: nat) returns (piece: seq<Byte>)
      requires Mounted() && fd < NFILES && fileArray[fd].inUse && IsInode(dev.disk, fileArray[fd].inode)
      requires numInodes == NumInodes(dev.disk) && 0 < n && fileArray[fd].pos + n <= fileArray[fd].size
      modifies `fileArray, dev, dev.blkbuf
      ensures Mounted() && dev.disk == old(dev.disk) && 1 <= |piece| <= n
      ensures var f := old(fileArray)[fd];
              && FileOk(dev.disk, f.inode) && f.pos + |piece| <= |Contents(dev.disk, f.inode)|
              && piece == Contents(dev.disk, f.inode)[f.pos..f.pos + |piece|]
              && fileArray == old(fileArray)[fd := f.(pos := f.pos + |piece|)]
    {
      hide FsOk, FileOk, IsInode, Contents, BlockDevice.QueueOk;
      var f := fileArray[fd];
      FdFile(dev.disk, f);
      var a, m := Target(f, numInodes, n);
      BlockSlice(dev.disk, f.inode, f.pos, m);
      piece := ReadAt(a, m);
      Advance(fd, f, m);
    }

    /** fs_read: the bytes from the position on, up to the end of the file. */
    method Read(fd: nat, want: nat) returns (out: seq<Byte>)
      requires Mounted() && fd < NFILES && fileArray[fd].inUse && IsInode(dev.disk, fileArray[fd].inode)
      requires fileArray[fd].pos + want < TWO_64
      modifies `fileArray, dev, dev.blkbuf
      ensures Mounted() && dev.disk == old(dev.disk) && FileOk(dev.disk, old(fileArray)[fd].inode)
      ensures var f := old(fileArray)[fd];
              var k := Reach(f.size, f.pos, want);
              && f.pos + k <= |Contents(dev.disk, f.inode)|
              && out == Contents(dev.disk, f.inode)[f.pos..f.pos + k]
              && fileArray == old(fileArray)[fd := f.(pos := f.pos + k)]
    {
      hide FsOk, FileOk, IsInode, Contents;
      var numInodes, n := Clamp(fd, want);
      ghost var f := fileArray[fd];
      FdFile(dev.disk, f);
      ghost var file := Contents(dev.disk, f.inode);
      ghost var goal := f.pos + n;
      out := [];
      while n > 0
        invariant 0 <= n && f.pos + |out| + n == goal <= |file|
        invariant Mounted() && dev.disk == old(dev.disk)
        invariant fileArray == old(fileArray)[fd := f.(pos := f.pos + |out|)]
        invariant out == file[f.pos..f.pos + |out|]
        decreases n
      {
        var piece := ReadBlock(fd, numInodes, n);
        assert file[f.pos..f.pos + |out|] + piece == file[f.pos..f.pos + |out| + |piece|];
        out := out + piece;
        n := n - |piece|;
      }
    }

    /** iowrite at an address: writes of what is left, until all is written or none is accepted. */
    method WriteAt(a: nat, data: seq<Byte>) returns (acc: nat)
      requires Valid() && !dev.readonly && a + |data| <= dev.size
      modifies dev, dev.blkbuf
      ensures dev.Usable() && acc == |data|
      ensures dev.disk == Written(old(dev.disk), a, data)
    {
      hide Written;
      var sought := dev.SetPos(a);
      acc := 0;
      NoneWritten(dev.disk, a, data);
      while acc < |data|
        invariant 0 <= acc <= |data| && dev.Usable() && dev.pos == a + acc
        invariant dev.disk == Written(old(dev.disk), a, data[..acc])
        decreases |data| - acc
      {
        var cnt := dev.Write(data[acc..]);
        if cnt.value == 0 { break; }
        WriteStep(old(dev.disk), a, data, acc, cnt.value);
        assert data[acc..][..cnt.value] == data[acc..acc + cnt.value];
        acc := acc + cnt.value;
      }
      assert data[..acc] == data;
    }

    /** One round of the loop of fs_write: up to the end of a block. */
    method WriteBlock(fd: nat, numInodes: nat, data: seq<Byte>) returns (m: nat)
      requires Mounted() && fd < NFILES && fileArray[fd].inUse && IsInode(dev.disk, fileArray[fd].inode)
      requires !dev.readonly && numInodes == NumInodes(dev.disk)
      requires data != [] && fileArray[fd].pos + |data| <= fileArray[fd].size
      modifies `fileArray, dev, dev.blkbuf
      ensures Mounted() && 1 <= m <= |data|
      ensures var f := old(fileArray)[fd];
              && FileWritten(old(dev.disk), f.inode, f.pos, data[..m], dev.disk)
              && fileArray == old(fileArray)[fd := f.(pos := f.pos + m)]
    {
      hide FsOk, FileOk, IsInode, Contents, Written, FileWritten, BlockDevice.QueueOk;
      var f := fileArray[fd];
      FdFile(dev.disk, f);
      var a, k := Target(f, numInodes, |data|);
      m := WriteAt(a, data[..k]);
      BlockWritten(old(dev.disk), f.inode, f.pos, data[..m], dev.disk);
      StillMounted(old(dev.disk), f, data[..m], dev.disk, boot, fileArray);
      Advance(fd, f, m);
    }

    /** fs_write: the bytes of the file from the position on are replaced, up to its end. */
    method Write(fd: nat, data: seq<Byte>) returns (count: nat)
      requires Mounted() && fd < NFILES && fileArray[fd].inUse && IsInode(dev.disk, fileArray[fd].inode)
      requires !dev.readonly && fileArray[fd].pos + |data| < TWO_64
      modifies `fileArray, dev, dev.blkbuf
      ensures Mounted()
      ensures var f := old(fileArray)[fd];
              && count == Reach(f.size, f.pos, |data|)
              && FileWritten(old(dev.disk), f.inode, f.pos, data[..count], dev.disk)
              && fileArray == old(fileArray)[fd := f.(pos := f.pos + count)]
    {
      hide FsOk, FileOk, IsInode, Contents, FileWritten, BlockDevice.QueueOk;
      var numInodes: nat, n: nat := Clamp(fd, |data|);
      ghost var f := fileArray[fd];
      FdFile(dev.disk, f);
      NothingWritten(dev.disk, f.inode, f.pos);
      count := 0;
      while n > 0
        invariant count + n == Reach(f.size, f.pos, |data|) && Mounted()
        invariant fileArray == old(fileArray)[fd := f.(pos := f.pos + count)]
        invariant FileWritten(old(dev.disk), f.inode, f.pos, data[..count], dev.disk)
        decreases n
      {
        WrittenHeader(old(dev.disk), f.inode, f.pos, data[..count], dev.disk);
        ghost var disk := dev.disk;
        var m := WriteBlock(fd, numInodes, data[count..count + n]);
        NextPart(data, count, n, m);
        WrittenInSteps(old(dev.disk), f.inode, f.pos, data[..count], disk, data[count..count + m], dev.disk);
        n := n - m;
        count := count + m;
      }
    }
  }

  lemma NextPart(data: seq<Byte>, count: nat, n: nat, m: nat)
    requires m <= n && count + n <= |data|
    ensures data[count..count + n][..m] == data[count..count + m]
    ensures data[..count] + data[count..count + m] == data[..count + m]
  {
  }

  lemma NoneWritten(disk: seq<Byte>, a: nat, data: seq<Byte>)
    requires a <= |disk|
    ensures Written(disk, a, data[..0]) == disk
  {
  }

  lemma WrittenHeader(disk: seq<Byte>, i: nat, p: nat, data: seq<Byte>, disk': seq<Byte>)
    requires FileWritten(disk, i, p, data, disk')
    ensures 8 <= |disk| == |disk'| && NumInodes(disk') == NumInodes(disk) && IsInode(disk', i)
  {
    SameHeader(disk, disk');
  }

  /** A write to a file keeps the boot block and all descriptors. */
  lemma StillMounted(disk: seq<Byte>, f: FileDesc, data: seq<Byte>, disk': seq<Byte>, boot: seq<Byte>, fds: seq<FileDesc>)
    requires FileWritten(disk, f.inode, f.pos, data, disk')
    requires BLKSZ <= |disk| && boot == disk[..BLKSZ]
    requires forall x :: 0 <= x < |fds| && fds[x].inUse ==> FdOk(disk, fds[x])
    ensures FsOk(disk') && |disk'| == |disk| && IsInode(disk', f.inode) && boot == disk'[..BLKSZ]
    ensures forall x :: 0 <= x < |fds| && fds[x].inUse ==> FdOk(disk', fds[x])
  {
    hide FsOk, Contents, FileOk, Length;
    SameHeader(disk, disk');
    assert disk'[..BLKSZ] == disk'[..DataAt(disk)][..BLKSZ];
    assert disk[..BLKSZ] == disk[..DataAt(disk)][..BLKSZ];
    forall x | 0 <= x < |fds| && fds[x].inUse ensures FdOk(disk', fds[x]) {
      assert FdOk(disk, fds[x]);
      if IsInode(disk, fds[x].inode) { SameInode(disk, disk', fds[x].inode); }
    }
  }

  /** A descriptor is not positioned beyond the end of its file. */
  ghost predicate FdOk(disk: seq<Byte>, f: FileDesc) {
    f.pos <= f.size && (IsInode(disk, f.inode) ==> f.size == Length(disk, f.inode))
  }

  lemma FdFile(disk: seq<Byte>, f: FileDesc)
    requires FsOk(disk) && IsInode(disk, f.inode) && FdOk(disk, f)
    ensures FileOk(disk, f.inode) && f.size == Length(disk, f.inode) == |Contents(disk, f.inode)|
  {
  }

  lemma StringAt(name: CString, mem: seq<Byte>, at: nat, i: nat)
    requires IsString(name, mem, at) && i < |name|
    ensures at + i < |mem| && mem[at + i] == name[i]
  {
    assert mem[at..at + |name|][i] == name[i];
  }
}
