/** The one-request virtqueue of vioblk.c, as a machine of the steps of the driver, the device and
    the interrupt service routine in any order (VIRTIO 1.1, sections 2.6 and 5.2.6). */
module Virtq {
  import opened Bytes

  const SECTOR: nat := 512
  const TWO_16: nat := 0x1_0000
  const S_OK: Byte := 0         // VIRTIO_BLK_S_OK

  datatype Kind = In | Out      // VIRTIO_BLK_T_IN reads the disk, VIRTIO_BLK_T_OUT writes it

  datatype Request = Request(kind: Kind, sector: nat)

  /** Sectors of a disk. */
  predicate OnDisk(disk: seq<Byte>, sector: nat) { SECTOR * (sector + 1) <= |disk| }

  function SectorOf(disk: seq<Byte>, sector: nat): (bs: seq<Byte>)
    requires OnDisk(disk, sector)
    ensures |bs| == SECTOR
  {
    disk[SECTOR * sector..SECTOR * (sector + 1)]
  }

  function WithSector(disk: seq<Byte>, sector: nat, bs: seq<Byte>): (disk': seq<Byte>)
    requires OnDisk(disk, sector) && |bs| == SECTOR
    ensures |disk'| == |disk|
  {
    disk[..SECTOR * sector] + bs + disk[SECTOR * (sector + 1)..]
  }

  /** Where the driver is: it owns the buffer; it is about to compare the indices; it sleeps. */
  datatype Pc = Owner | Check | Asleep

  datatype State = State(
    availIdx: nat, usedIdx: nat,                  // uint16_t
    req: Request, buf: seq<Byte>, status: Byte,   // what the descriptors point to
    disk: seq<Byte>, irq: bool, pc: Pc,
    submitted: seq<Job>, completed: nat)          // every request so far, and how many are done

  /** A request as it was submitted, with the contents of the buffer. */
  datatype Job = Job(req: Request, data: seq<Byte>)

  datatype Action =
    | Submit(req: Request, data: seq<Byte>)
    | Compare                                     // avail.idx != used.idx, and wait if so
    | Scribble(buf: seq<Byte>, status: Byte)      // a device at work writes what it may write
    | Complete
    | Isr

  predicate Pending(s: State) { s.availIdx != s.usedIdx }

  predicate Enabled(s: State, a: Action) {
    match a
    case Submit(req, data) => s.pc.Owner? && OnDisk(s.disk, req.sector) && |data| == SECTOR
    case Compare => s.pc.Check?
    case Scribble(buf, _) => Pending(s) && |buf| == SECTOR && (s.req.kind.Out? ==> buf == s.buf)
    case Complete => Pending(s) && OnDisk(s.disk, s.req.sector) && |s.buf| == SECTOR
    case Isr => s.irq
  }

  function Next(s: State, a: Action): State
    requires Enabled(s, a)
  {
    match a
    case Submit(req, data) =>
      s.(req := req, buf := data, availIdx := (s.availIdx + 1) % TWO_16, pc := Check,
         submitted := s.submitted + [Job(req, data)])
    case Compare => s.(pc := if Pending(s) then Asleep else Owner)
    case Scribble(buf, status) => s.(buf := buf, status := status)
    case Complete =>
      var done := s.(status := S_OK, usedIdx := (s.usedIdx + 1) % TWO_16, irq := true, completed := s.completed + 1);
      if s.req.kind.In? then done.(buf := SectorOf(s.disk, s.req.sector))
      else done.(disk := WithSector(s.disk, s.req.sector, s.buf))
    case Isr => s.(irq := false, pc := if s.pc.Asleep? then Check else s.pc)
  }

  // --- what the requests mean ---

  /** The disk after the first k requests, carried out one after the other. */
  function DiskAfter(disk: seq<Byte>, jobs: seq<Job>, k: nat): (d: seq<Byte>)
    requires k <= |jobs|
    ensures |d| == |disk|
  {
    if k == 0 then disk
    else
      var d := DiskAfter(disk, jobs, k - 1);
      var job := jobs[k - 1];
      if job.req.kind.Out? && OnDisk(disk, job.req.sector) && |job.data| == SECTOR
      then WithSector(d, job.req.sector, job.data) else d
  }

  predicate Booted(s: State) {
    s.availIdx == s.usedIdx < TWO_16 && s.pc.Owner? && !s.irq && s.submitted == [] && s.completed == 0
  }

  /** The last request is the one in the descriptors. */
  predicate LastJob(s: State, job: Job) {
    && job.req == s.req && OnDisk(s.disk, s.req.sector) && |job.data| == SECTOR && |s.buf| == SECTOR
    && (s.req.kind.Out? ==> s.buf == job.data)
  }

  predicate Inv(s: State, disk0: seq<Byte>) {
    && s.availIdx < TWO_16 && s.usedIdx < TWO_16
    && s.completed <= |s.submitted| <= s.completed + 1
    && s.availIdx == (s.usedIdx + |s.submitted| - s.completed) % TWO_16
    && |s.disk| == |disk0| && s.disk == DiskAfter(disk0, s.submitted, s.completed)
    && (s.submitted != [] ==> LastJob(s, s.submitted[|s.submitted| - 1]))
    && (s.submitted != [] && !Pending(s) ==> s.status == S_OK)
    && (s.submitted != [] && !Pending(s) && s.req.kind.In? ==> s.buf == SectorOf(s.disk, s.req.sector))
    && (s.pc.Owner? ==> !Pending(s))
    && (s.pc.Asleep? ==> Pending(s) || s.irq)
  }

  /** Requests are told apart although the indices wrap around: at most one is in flight. */
  lemma PendingIs(s: State, disk0: seq<Byte>)
    requires Inv(s, disk0)
    ensures Pending(s) <==> |s.submitted| == s.completed + 1
  {
    assert s.availIdx == s.usedIdx || s.availIdx == (s.usedIdx + 1) % TWO_16;
  }

  lemma {:induction false} DiskAfterFrame(disk: seq<Byte>, jobs: seq<Job>, job: Job, k: nat)
    requires k <= |jobs|
    ensures DiskAfter(disk, jobs + [job], k) == DiskAfter(disk, jobs, k)
  {
    if k > 0 { DiskAfterFrame(disk, jobs, job, k - 1); }
  }

  lemma SubmitKeeps(s: State, disk0: seq<Byte>, req: Request, data: seq<Byte>)
    requires Inv(s, disk0) && Enabled(s, Submit(req, data))
    ensures Inv(Next(s, Submit(req, data)), disk0)
  {
    hide DiskAfter;
    PendingIs(s, disk0);
    DiskAfterFrame(disk0, s.submitted, Job(req, data), s.completed);
  }

  lemma CompleteKeeps(s: State, disk0: seq<Byte>)
    requires Inv(s, disk0) && Enabled(s, Complete)
    ensures Inv(Next(s, Complete), disk0)
  {
    PendingIs(s, disk0);
  }

  lemma NextKeeps(s: State, disk0: seq<Byte>, a: Action)
    requires Inv(s, disk0) && Enabled(s, a)
    ensures Inv(Next(s, a), disk0)
  {
    hide DiskAfter, SectorOf;
    match a
    case Submit(req, data) => SubmitKeeps(s, disk0, req, data);
    case Complete => CompleteKeeps(s, disk0);
    case _ =>
  }

  ghost predicate Reachable(s: State, disk0: seq<Byte>, steps: nat)
    decreases steps
  {
    if steps == 0 then Booted(s) && s.disk == disk0
    else exists p, a :: Reachable(p, disk0, steps - 1) && Enabled(p, a) && s == Next(p, a)
  }

  lemma {:induction false} ReachableInv(s: State, disk0: seq<Byte>, steps: nat)
    requires Reachable(s, disk0, steps)
    ensures Inv(s, disk0)
    decreases steps
  {
    hide Inv, Enabled, Next;
    if steps == 0 {
      BootedInv(s, disk0);
    } else {
      var p, a :| Reachable(p, disk0, steps - 1) && Enabled(p, a) && s == Next(p, a);
      ReachableInv(p, disk0, steps - 1);
      NextKeeps(p, disk0, a);
    }
  }

  lemma BootedInv(s: State, disk0: seq<Byte>)
    requires Booted(s) && s.disk == disk0
    ensures Inv(s, disk0)
  {
  }

  /** When the driver owns the buffer again, every request has been carried out, in order and once;
      a request that reads has filled the buffer with its sector; and the status is OK. */
  lemma OwnerSeesCompletion(s: State, disk0: seq<Byte>, steps: nat)
    requires Reachable(s, disk0, steps) && s.pc.Owner?
    ensures s.completed == |s.submitted| && s.disk == DiskAfter(disk0, s.submitted, |s.submitted|)
    ensures s.submitted != [] ==>
              && s.status == S_OK && OnDisk(s.disk, s.req.sector)
              && (s.req.kind.In? ==> s.buf == SectorOf(s.disk, s.req.sector))
  {
    hide Reachable, DiskAfter, SectorOf;
    ReachableInv(s, disk0, steps);
    PendingIs(s, disk0);
  }

  /** A sleeping driver is going to be woken: its request is in flight, or the interrupt is pending. */
  lemma NoLostInterrupt(s: State, disk0: seq<Byte>, steps: nat)
    requires Reachable(s, disk0, steps)
    ensures s.completed <= |s.submitted| <= s.completed + 1
    ensures s.pc.Asleep? ==> s.irq || (|s.submitted| == s.completed + 1 && Enabled(s, Complete))
  {
    hide Reachable, DiskAfter, SectorOf;
    ReachableInv(s, disk0, steps);
    PendingIs(s, disk0);
  }
}
