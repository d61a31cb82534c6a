/** Programs on the disk: a file of an image made by mkfs is opened by its name and loaded. */
module ProgramLoad {
  import opened Bytes
  import opened PageTables
  import opened Memory
  import opened Elf
  import opened ElfLoader
  import opened IoObjects
  import opened KfsFormat
  import opened MkfsImage
  import opened Kfs
  import Mkfs
  import RoundTrip

  /** Loading the file i does what its bytes say: on success the active space holds the image of
      every loadable segment of them, and always everything off the segments is as before. */
  method LoadProgram(files: seq<InFile>, i: nat, mem: Manager) returns (out: Outcome)
    requires Mkfs.SizesOk(Lens(files)) && NamesOk(files) && Packed(Lens(files)) && i < |files|
    requires mem.Valid() && FitToLoad(mem.state, mem.ActiveRoot(), files[i].bytes, 0)
    modifies mem`ram, mem`freeList, mem`state
    ensures out == ElfLoad(old(mem.state), mem.ActiveRoot(), files[i].bytes, 0).0
    ensures !out.Panicked? ==>
      mem.Valid() && KeepsOthers(old(mem.state), mem.state, mem.ActiveRoot(), files[i].bytes, 0)
    ensures out.Entry? ==> HoldsImage(old(mem.state), mem.state, mem.ActiveRoot(), files[i].bytes, 0)
  {
    hide IsImage, Packed, NamesOk, FileOk, FsOk, Mkfs.SizesOk, Inv, KeepsOthers, HoldsImage, ElfLoad, FitToLoad;
    var fs := RoundTrip.Boot(files, true);
    var fd := RoundTrip.OpenFile(fs, files, i);
    var io := KfsFile(fs, fd);
    OpenedSize(fs.dev.disk, files, i);
    out := LoadElf(io, mem);
  }

  lemma OpenedSize(disk: seq<Byte>, files: seq<InFile>, i: nat)
    requires IsImage(disk, files) && i < |files|
    ensures IsInode(disk, i) && Length(disk, i) == |files[i].bytes|
  {
    hide IsImage;
    ImageInode(disk, files, i);
  }
}
