/** io_lit: a block of memory read, written and positioned as a file. */
module IoLit {
  import opened Common
  import opened Bytes

  const EIO: nat := 5

  /** The bytes that a transfer of n at position pos reaches: as many as are left. */
  function Reach(size: nat, pos: nat, n: nat): (k: nat)
    requires pos <= size
    ensures k <= n && pos + k <= size
    ensures k < n ==> pos + k == size
  {
    if pos + n >= size then size - pos else n
  }

  /** What reading n bytes at position `at` gives: fewer at the end of the file. */
  function ReadAt(file: seq<Byte>, at: nat, n: nat): seq<Byte>
    requires at <= |file|
  {
    if at + n >= |file| then file[at..] else file[at..at + n]
  }

  /** File contents after a write of `data` at pos. */
  function Written(file: seq<Byte>, pos: nat, data: seq<Byte>): (file': seq<Byte>)
    requires pos + |data| <= |file|
    ensures |file'| == |file|
    ensures forall i :: 0 <= i < |file| ==>
      file'[i] == if pos <= i < pos + |data| then data[i - pos] else file[i]
  {
    file[..pos] + data + file[pos + |data|..]
  }

  class Lit {
    const buf: array<Byte>
    var pos: nat

    constructor (buf: array<Byte>)
      ensures this.buf == buf && pos == 0
    {
      this.buf := buf;
      pos := 0;
    }

    function Size(): nat { buf.Length }

    function File(): seq<Byte>
      reads buf
    {
      buf[..]
    }

    /** iolit_read: the sum pos + n is a 64-bit one, so n must not make it wrap around. */
    method Read(n: nat) returns (r: Result<seq<Byte>>)
      requires pos + n < TWO_64
      modifies `pos
      ensures old(pos) > Size() ==> r == Err(EIO) && pos == old(pos)
      ensures old(pos) <= Size() ==>
        var k := Reach(Size(), old(pos), n);
        r == Ok(File()[old(pos)..old(pos) + k]) && pos == old(pos) + k
    {
      if pos > buf.Length { return Err(EIO); }
      var len := n;
      if pos + len >= buf.Length { len := buf.Length - pos; }
      r := Ok(buf[pos..pos + len]);
      pos := pos + len;
    }

    /** iolit_write: what does not fit is not written. */
    method Write(data: seq<Byte>) returns (r: Result<nat>)
      requires pos + |data| < TWO_64
      modifies `pos, buf
      ensures old(pos) > Size() ==> r == Err(EIO) && pos == old(pos) && File() == old(File())
      ensures old(pos) <= Size() ==>
        var k := Reach(Size(), old(pos), |data|);
        r == Ok(k) && pos == old(pos) + k && File() == Written(old(File()), old(pos), data[..k])
    {
      if pos > buf.Length { return Err(EIO); }
      var len := |data|;
      if pos + len >= buf.Length { len := buf.Length - pos; }
      forall i | 0 <= i < len { buf[pos + i] := data[i]; }
      assert File() == Written(old(File()), pos, data[..len]);
      r := Ok(len);
      pos := pos + len;
    }

    /** iolit_ctl with IOCTL_SETPOS. */
    method SetPos(newPos: nat) returns (ok: bool)
      modifies `pos
      ensures ok <==> newPos <= Size()
      ensures pos == if ok then newPos else old(pos)
    {
      if newPos > buf.Length { return false; }
      pos := newPos;
      ok := true;
    }
  }

  /** Seeking back and reading gives what was written, in any two-part split of the write. */
  lemma WriteThenRead(file: seq<Byte>, pos: nat, data: seq<Byte>, cut: nat)
    requires pos + |data| <= |file| && cut <= |data|
    ensures Written(Written(file, pos, data[..cut]), pos + cut, data[cut..]) == Written(file, pos, data)
    ensures Written(file, pos, data)[pos..pos + |data|] == data
  {
    var once := Written(file, pos, data);
    var twice := Written(Written(file, pos, data[..cut]), pos + cut, data[cut..]);
    assert forall i :: 0 <= i < |file| ==> twice[i] == once[i];
  }

  /** Two writes of adjacent data are one. */
  lemma WrittenTwice(disk: seq<Byte>, pos: nat, a: seq<Byte>, b: seq<Byte>)
    requires pos + |a| + |b| <= |disk|
    ensures Written(Written(disk, pos, a), pos + |a|, b) == Written(disk, pos, a + b)
  {
    WriteThenRead(disk, pos, a + b, |a|);
    assert (a + b)[..|a|] == a && (a + b)[|a|..] == b;
  }
}
