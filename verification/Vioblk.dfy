/** vioblk.c: a disk of sectors behind a one-request virtqueue, read and written at any position. To
    its callers it is a flat array of bytes. */
module Vioblk {
  import opened Common
  import opened Bytes
  import opened Virtq
  import opened IoLit

  const ENOTSUP: nat := 3
  const EINVAL: nat := 1
  const CLOSED: nat := 1        // the -1 for a device that is not open

  /** How much of n bytes from pos on lie in the sector of pos. */
  function Chunk(pos: nat, n: nat): (k: nat)
    requires n > 0
    ensures 1 <= k <= n && pos % SECTOR + k <= SECTOR
  {
    if SECTOR - pos % SECTOR < n then SECTOR - pos % SECTOR else n
  }

  lemma ChunkOnDisk(disk: seq<Byte>, pos: nat, n: nat)
    requires |disk| % SECTOR == 0 && pos < |disk| && n > 0
    ensures OnDisk(disk, pos / SECTOR) && pos + Chunk(pos, n) <= |disk|
    ensures pos == SECTOR * (pos / SECTOR) + pos % SECTOR
  {
  }

  /** The bytes at pos, out of their sector. */
  lemma SectorSlice(disk: seq<Byte>, pos: nat, k: nat)
    requires OnDisk(disk, pos / SECTOR) && pos % SECTOR + k <= SECTOR && pos + k <= |disk|
    ensures SectorOf(disk, pos / SECTOR)[pos % SECTOR..pos % SECTOR + k] == disk[pos..pos + k]
  {
    var start := SECTOR * (pos / SECTOR);
    assert pos == start + pos % SECTOR;
  }

  /** Reading a sector, changing bytes of it and writing it back changes these bytes of the disk. */
  lemma PatchSector(disk: seq<Byte>, pos: nat, data: seq<Byte>)
    requires OnDisk(disk, pos / SECTOR) && pos % SECTOR + |data| <= SECTOR && pos + |data| <= |disk|
    ensures WithSector(disk, pos / SECTOR, Written(SectorOf(disk, pos / SECTOR), pos % SECTOR, data))
         == Written(disk, pos, data)
  {
    hide Written, WithSector, SectorOf;
    var sector, start := pos / SECTOR, SECTOR * (pos / SECTOR);
    var was := SectorOf(disk, sector);
    var now := Written(was, pos % SECTOR, data);
    assert pos == start + pos % SECTOR;
    forall i | 0 <= i < |disk| ensures WithSector(disk, sector, now)[i] == Written(disk, pos, data)[i] {
      WithSectorAt(disk, sector, now, i);
      WithSectorAt(disk, sector, was, i);
      SameSector(disk, sector);
    }
  }

  lemma WithSectorAt(disk: seq<Byte>, sector: nat, bs: seq<Byte>, i: nat)
    requires OnDisk(disk, sector) && |bs| == SECTOR && i < |disk|
    ensures WithSector(disk, sector, bs)[i] ==
            if SECTOR * sector <= i < SECTOR * sector + SECTOR then bs[i - SECTOR * sector] else disk[i]
  {
  }

  lemma SameSector(disk: seq<Byte>, sector: nat)
    requires OnDisk(disk, sector)
    ensures WithSector(disk, sector, SectorOf(disk, sector)) == disk
  {
  }

  /** A whole sector is written without being read. */
  lemma WholeSector(disk: seq<Byte>, pos: nat, data: seq<Byte>)
    requires OnDisk(disk, pos / SECTOR) && pos % SECTOR == 0 && |data| == SECTOR
    ensures pos + |data| <= |disk| && WithSector(disk, pos / SECTOR, data) == Written(disk, pos, data)
  {
  }

  lemma ReachIs(size: nat, pos: nat, n: nat, k: nat)
    requires k <= n && pos + k <= size && (k < n ==> pos + k == size)
    ensures Reach(size, pos, n) == k
  {
  }

  lemma SliceGrows(disk: seq<Byte>, start: nat, pos: nat, k: nat)
    requires start <= pos && pos + k <= |disk|
    ensures disk[start..pos] + disk[pos..pos + k] == disk[start..pos + k]
  {
  }

  lemma WriteStep(disk: seq<Byte>, start: nat, data: seq<Byte>, total: nat, k: nat)
    requires total + k <= |data| && start + total + k <= |disk|
    ensures Written(Written(disk, start, data[..total]), start + total, data[total..total + k])
         == Written(disk, start, data[..total + k])
  {
    WrittenTwice(disk, start, data[..total], data[total..total + k]);
    assert data[..total] + data[total..total + k] == data[..total + k];
  }

  /** The disk after one more request. */
  lemma DiskAfterNext(disk0: seq<Byte>, jobs: seq<Job>, job: Job)
    requires OnDisk(disk0, job.req.sector) && |job.data| == SECTOR
    ensures var d := DiskAfter(disk0, jobs, |jobs|);
            DiskAfter(disk0, jobs + [job], |jobs| + 1) ==
            if job.req.kind.Out? then WithSector(d, job.req.sector, job.data) else d
  {
    DiskAfterFrame(disk0, jobs, job, |jobs|);
  }

  lemma CompletionIs(s: State, disk0: seq<Byte>)
    requires Inv(s, disk0) && Pending(s) && OnDisk(s.disk, s.req.sector) && |s.buf| == SECTOR
    ensures var s' := Next(s, Complete);
      && s'.availIdx == s'.usedIdx == s.availIdx == (s.usedIdx + 1) % TWO_16 && s'.status == S_OK && s'.irq
      && s'.req == s.req && s'.pc == s.pc && s'.submitted == s.submitted
      && match s.req.kind
         case In => s'.buf == SectorOf(s.disk, s.req.sector) && s'.disk == s.disk
         case Out => s'.buf == s.buf && s'.disk == WithSector(s.disk, s.req.sector, s.buf)
  {
    PendingIs(s, disk0);
    hide SectorOf, WithSector, DiskAfter;
  }

  lemma OutKeepsBuffer(s: State, disk0: seq<Byte>)
    requires Inv(s, disk0) && s.submitted != [] && s.req.kind.Out?
    ensures s.buf == s.submitted[|s.submitted| - 1].data
  {
  }

  class BlockDevice {
    // The device's side of the queue.
    var disk: seq<Byte>
    var usedIdx: nat
    var irqPending: bool
    // The driver's side.
    var availIdx: nat
    var reqType: Kind
    var reqSector: nat
    var reqStatus: Byte
    const blkbuf: array<Byte>
    var waiting: bool               // on the wait list of used_updated
    var pos: nat
    const size: nat
    var isOpen: bool
    const readonly: bool
    var locked: bool                // vio_lock: a call that finds it held waits for its release
    // The machine of Virtq, which takes a step with each of driver, device and interrupt routine.
    ghost var queue: State
    ghost var steps: nat
    ghost const disk0: seq<Byte>

    ghost predicate QueueOk()
      reads `disk, `usedIdx, `irqPending, `availIdx, `reqStatus, `waiting, `queue, `steps
    {
      && queue.availIdx == availIdx && queue.usedIdx == usedIdx && queue.status == reqStatus
      && queue.disk == disk && queue.irq == irqPending && (waiting <==> queue.pc.Asleep?)
      && |disk| == size && |disk0| == size && size % SECTOR == 0 && blkbuf.Length == SECTOR
      && Reachable(queue, disk0, steps) && Inv(queue, disk0)
    }

    /** The driver owns the buffer. */
    ghost predicate Valid()
      reads this
    {
      QueueOk() && queue.pc.Owner? && |disk| == size && size % SECTOR == 0 && blkbuf.Length == SECTOR && pos <= size
    }

    /** Open, and nobody waits for ever: no call that has returned still holds the lock. */
    ghost predicate Usable()
      reads this
    {
      Valid() && isOpen && !locked
    }

    /** The request in the descriptors is the last one of these. */
    ghost predicate Serving(jobs: seq<Job>)
      reads this, blkbuf
    {
      && QueueOk() && !queue.pc.Owner? && queue.submitted == jobs
      && queue.req == Request(reqType, reqSector) && queue.buf == blkbuf[..] && OnDisk(disk, reqSector)
    }

    /** vioblk_attach and vioblk_open, for a device of the given contents with 512-byte blocks. */
    constructor (disk: seq<Byte>, readonly: bool)
      requires |disk| % SECTOR == 0
      ensures Usable() && this.disk == disk && pos == 0 && this.readonly == readonly && fresh(blkbuf)
    {
      this.disk := disk;
      disk0 := disk;
      this.readonly := readonly;
      size := |disk|;
      blkbuf := new Byte[SECTOR];
      usedIdx, availIdx, pos, isOpen := 0, 0, 0, true;
      irqPending, waiting, locked := false, false, false;
      reqType, reqSector, reqStatus := In, 0, 0;
      queue := State(0, 0, Request(In, 0), [], 0, disk, false, Owner, [], 0);
      steps := 0;
      new;
      BootedInv(queue, disk0);
    }

    ghost method Did(a: Action)
      requires Reachable(queue, disk0, steps) && Inv(queue, disk0) && Enabled(queue, a)
      modifies `queue, `steps
      ensures queue == Next(old(queue), a) && Reachable(queue, disk0, steps) && Inv(queue, disk0)
    {
      hide Inv, Enabled, Next;
      NextKeeps(queue, disk0, a);
      queue := Next(queue, a);
      steps := steps + 1;
    }

    // --- the device ---

    /** While a request is in flight the device may write the status and the buffer of a read. */
    method DeviceWorks(ghost jobs: seq<Job>)
      requires Serving(jobs) && availIdx != usedIdx
      modifies `reqStatus, blkbuf, `queue, `steps
      ensures Serving(jobs) && queue.pc == old(queue.pc)
    {
      hide Inv, Reachable;
      reqStatus := *;
      if reqType.In? { ScribbleBuffer(); }
      Did(Scribble(blkbuf[..], reqStatus));
    }

    method ScribbleBuffer()
      modifies blkbuf
    {
      var i := 0;
      while i < blkbuf.Length {
        blkbuf[i] := *;
        i := i + 1;
      }
    }

    method DeviceCompletes(ghost jobs: seq<Job>)
      requires Serving(jobs) && availIdx != usedIdx
      modifies `disk, `usedIdx, `reqStatus, `irqPending, blkbuf, `queue, `steps
      ensures Serving(jobs) && availIdx == usedIdx && queue.pc == old(queue.pc)
    {
      hide Inv, Reachable, SectorOf, WithSector, Next;
      CompletionIs(queue, disk0);
      Did(Complete);
      match reqType {
        case In => FillBuffer();
        case Out => disk := WithSector(disk, reqSector, blkbuf[..]);
      }
      reqStatus := S_OK;
      usedIdx := (usedIdx + 1) % TWO_16;
      irqPending := true;
    }

    method FillBuffer()
      requires OnDisk(disk, reqSector) && blkbuf.Length == SECTOR
      modifies blkbuf
      ensures blkbuf[..] == SectorOf(disk, reqSector)
    {
      forall i | 0 <= i < SECTOR { blkbuf[i] := disk[SECTOR * reqSector + i]; }
    }

    /** vioblk_isr. */
    method Interrupt(ghost jobs: seq<Job>)
      requires Serving(jobs) && irqPending
      modifies `irqPending, `waiting, `queue, `steps
      ensures Serving(jobs) && !waiting
    {
      hide Inv, Reachable;
      irqPending := false;
      waiting := false;       // broadcast
      Did(Isr);
    }

    /** Until the sleeping driver is woken, by this completion or by an interrupt that was still
        pending; the device takes no longer than delay. */
    method SleepUntilWoken(ghost jobs: seq<Job>, delay: nat) returns (rest: nat)
      requires Serving(jobs) && waiting
      modifies `disk, `usedIdx, `reqStatus, `irqPending, `waiting, blkbuf, `queue, `steps
      ensures Serving(jobs) && !waiting
      ensures rest < delay || (rest <= delay && availIdx == usedIdx)
    {
      hide Inv, Reachable;
      rest := delay;
      while waiting
        invariant Serving(jobs) && rest <= delay
        invariant !waiting ==> rest < delay || availIdx == usedIdx
        decreases rest, availIdx != usedIdx, waiting
      {
        NoLostInterrupt(queue, disk0, steps);
        if availIdx == usedIdx {
          Interrupt(jobs);
        } else if rest == 0 {
          DeviceCompletes(jobs);
        } else {
          var early: bool := *;
          if irqPending && early { Interrupt(jobs); } else { DeviceWorks(jobs); }
          rest := rest - 1;
        }
      }
    }

    // --- the driver ---

    /** One request: header, descriptors, notification, and the wait for its completion, which comes
        after any number of wakeups. */
    method Transact(kind: Kind, sector: nat)
      requires Valid() && OnDisk(disk, sector)
      modifies `disk, `usedIdx, `availIdx, `reqType, `reqSector, `reqStatus, `irqPending, `waiting, blkbuf, `queue, `steps
      ensures Valid() && reqStatus == S_OK
      ensures queue.submitted == old(queue.submitted) + [Job(Request(kind, sector), old(blkbuf[..]))]
      ensures match kind
              case In => blkbuf[..] == SectorOf(disk, sector) && disk == old(disk)
              case Out => blkbuf[..] == old(blkbuf[..]) && disk == WithSector(old(disk), sector, old(blkbuf[..]))
    {
      hide Inv, Reachable, SectorOf, WithSector, DiskAfter;
      ghost var jobs, job := queue.submitted, Job(Request(kind, sector), blkbuf[..]);
      OwnerSeesCompletion(queue, disk0, steps);
      reqType, reqSector := kind, sector;
      availIdx := (availIdx + 1) % TWO_16;
      Did(Submit(Request(kind, sector), blkbuf[..]));
      var delay: nat := *;
      while availIdx != usedIdx
        invariant Serving(jobs + [job]) && !waiting && reqType == kind && reqSector == sector
        decreases delay, availIdx != usedIdx
      {
        waiting := true;
        Did(Compare);
        delay := SleepUntilWoken(jobs + [job], delay);
      }
      Did(Compare);
      OwnerSeesCompletion(queue, disk0, steps);
      if kind.Out? { OutKeepsBuffer(queue, disk0); }
      DiskAfterNext(disk0, jobs, job);
    }

    /** vioblk_read: the bytes from pos on, as many as there are. It returns without releasing the
        lock when it has nothing to do. */
    method Read(n: nat) returns (r: Result<seq<Byte>>)
      requires Valid() && !locked
      modifies this, blkbuf
      ensures locked <==> n == 0 || !isOpen
      ensures Valid() && disk == old(disk) && isOpen == old(isOpen)
      ensures n > 0 && !isOpen ==> r == Err(CLOSED) && pos == old(pos)
      ensures n == 0 || isOpen ==>
        var k := Reach(size, old(pos), n);
        r == Ok(disk[old(pos)..old(pos) + k]) && pos == old(pos) + k
    {
      hide QueueOk, Reach;
      ReachIs(size, pos, 0, 0);
      locked := true;
      if n == 0 {
        assert disk[pos..pos] == [];
        return Ok([]);
      }
      if !isOpen { return Err(CLOSED); }
      var out: seq<Byte> := [];
      ghost var start := pos;
      while |out| < n
        invariant Valid() && disk == old(disk) && isOpen && |out| <= n
        invariant pos == start + |out| && out == disk[start..pos]
        decreases n - |out|
      {
        if pos >= size { break; }
        var chunk := ReadChunk(n - |out|);
        SliceGrows(disk, start, pos, |chunk|);
        out := out + chunk;
        pos := pos + |chunk|;
      }
      ReachIs(size, start, n, |out|);
      locked := false;
      return Ok(out);
    }

    /** The part of n bytes at pos that lies in one sector. */
    method ReadChunk(n: nat) returns (chunk: seq<Byte>)
      requires Valid() && pos < size && n > 0
      modifies `disk, `usedIdx, `availIdx, `reqType, `reqSector, `reqStatus, `irqPending, `waiting, blkbuf, `queue, `steps
      ensures Valid() && disk == old(disk) && 1 <= |chunk| <= n
      ensures pos + |chunk| <= size && chunk == disk[pos..pos + |chunk|]
    {
      var k := Chunk(pos, n);
      ChunkOnDisk(disk, pos, n);
      Transact(In, pos / SECTOR);
      SectorSlice(disk, pos, k);
      chunk := blkbuf[..][pos % SECTOR..pos % SECTOR + k];
    }

    /** vioblk_write: exactly the bytes from pos on that fit are replaced. It returns without
        releasing the lock when it does nothing. */
    method Write(data: seq<Byte>) returns (r: Result<nat>)
      requires Valid() && !locked
      modifies this, blkbuf
      ensures locked <==> !isOpen || readonly || data == []
      ensures Valid() && isOpen == old(isOpen)
      ensures !isOpen ==> r == Err(CLOSED)
      ensures isOpen && readonly ==> r == Err(ENOTSUP)
      ensures r.Err? ==> disk == old(disk) && pos == old(pos)
      ensures isOpen && !readonly ==>
        var k := Reach(size, old(pos), |data|);
        r == Ok(k) && disk == Written(old(disk), old(pos), data[..k]) && pos == old(pos) + k
    {
      hide Written, Chunk, QueueOk, Reach;
      ReachIs(size, pos, 0, 0);
      locked := true;
      if !isOpen { return Err(CLOSED); }
      if readonly { return Err(ENOTSUP); }
      if data == [] { return Ok(0); }
      var total := 0;
      ghost var start := pos;
      while total < |data|
        invariant Valid() && isOpen && total <= |data| && pos == start + total
        invariant disk == Written(old(disk), start, data[..total])
        decreases |data| - total
      {
        if pos >= size { break; }
        var k := Chunk(pos, |data| - total);
        ChunkOnDisk(disk, pos, |data| - total);
        WriteChunk(data[total..total + k]);
        WriteStep(old(disk), start, data, total, k);
        pos := pos + k;
        total := total + k;
      }
      ReachIs(size, start, |data|, total);
      locked := false;
      return Ok(total);
    }

    /** Bytes within one sector: the rest of it is read first. */
    method WriteChunk(chunk: seq<Byte>)
      requires Valid() && OnDisk(disk, pos / SECTOR) && 0 < |chunk| && pos % SECTOR + |chunk| <= SECTOR
      requires pos + |chunk| <= |disk|
      modifies `disk, `usedIdx, `availIdx, `reqType, `reqSector, `reqStatus, `irqPending, `waiting, blkbuf, `queue, `steps
      ensures Valid() && disk == Written(old(disk), pos, chunk)
    {
      hide QueueOk, Written, WithSector, SectorOf;
      var sector, offset := pos / SECTOR, pos % SECTOR;
      if offset != 0 || |chunk| != SECTOR {
        Transact(In, sector);
      }
      PatchBuffer(offset, chunk);
      if |chunk| == SECTOR { WholeSector(disk, pos, chunk); } else { PatchSector(disk, pos, chunk); }
      Transact(Out, sector);
    }

    /** The bytes to be written go to their place in the buffer. */
    method PatchBuffer(offset: nat, chunk: seq<Byte>)
      requires blkbuf.Length == SECTOR && offset + |chunk| <= SECTOR
      modifies blkbuf
      ensures blkbuf[..] == Written(old(blkbuf[..]), offset, chunk)
      ensures |chunk| == SECTOR ==> blkbuf[..] == chunk
    {
      ghost var before := blkbuf[..];
      forall i | 0 <= i < |chunk| { blkbuf[offset + i] := chunk[i]; }
      assert blkbuf[..] == Written(before, offset, chunk);
    }

    /** vioblk_setpos: it fails without releasing the lock. */
    method SetPos(newPos: nat) returns (r: Result<()>)
      requires Valid() && !locked
      modifies `pos, `locked
      ensures locked <==> size < newPos
      ensures Valid() && r == (if newPos <= size then Ok(()) else Err(EINVAL))
      ensures pos == if newPos <= size then newPos else old(pos)
    {
      locked := true;
      if newPos > size { return Err(EINVAL); }
      pos := newPos;
      locked := false;
      return Ok(());
    }
  }
}
