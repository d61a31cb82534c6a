/** The UART driver of uart.c as a machine of the steps of its threads, with the interrupt service
    routine between any two of them. A thread that is inside uart_read or uart_write runs until it
    waits or returns; only the routine comes in between. */
module Uart {
  import opened Common
  import opened Bytes
  import opened Rings

  type Tid = nat

  /** The two interrupt enables: for received bytes, and for a free transmitter. */
  datatype Ier = Ier(dreie: bool, threie: bool)

  /** What is left of a call of uart_write: the bytes of text from pos on. */
  datatype Job = Job(text: seq<Byte>, pos: nat)

  /** Where the current thread is. The loads and stores of shared fields are separate steps. */
  datatype Pc =
    | Boundary                                              // outside the driver, or just woken
    | ReadTest(n: nat, got: seq<Byte>)                      // the test of the loop in uart_read
    | ReadStore(n: nat, got: seq<Byte>, hpos: nat, c: Byte) // rbuf_get before it stores hpos
    | ReadIerLoad(got: seq<Byte>)
    | ReadIerStore(got: seq<Byte>, ier: Ier)
    | WriteEnter(job: Job)                                  // the outer loop of uart_write
    | WriteTest(job: Job)
    | WriteStore(job: Job, tpos: nat)                       // rbuf_put before it stores tpos
    | WriteIerLoad(job: Job)
    | WriteIerStore(job: Job, ier: Ier)

  datatype State = State(
    rx: Ring, tx: Ring, ier: Ier,
    tid: Tid, pc: Pc,
    readers: map<Tid, nat>, writers: map<Tid, Job>,         // waiting for the two conditions
    wokenReaders: map<Tid, nat>, wokenWriters: map<Tid, Job>,
    received: seq<Byte>, returned: seq<seq<Byte>>,          // what came in, and what reads returned
    accepted: seq<Byte>, sent: seq<Byte>,                   // what writes put in, and what went out
    puts: map<Tid, seq<Byte>>)                              // what the last write of each thread put in

  datatype Action =
    | Read(tid: Tid, n: nat) | Write(tid: Tid, text: seq<Byte>)
    | ResumeRead(tid: Tid) | ResumeWrite(tid: Tid)
    | Micro                                                 // the next step of the current thread
    | Interrupt(input: Option<Byte>, ready: bool)           // LSR_DR with the byte, and LSR_THRE

  // --- interrupts ---

  function Received(s: State, input: Option<Byte>): (r: State)
    requires InRange(s.rx)
    ensures r.tx == s.tx
  {
    match input
    case None => s
    case Some(c) =>
      if Full(s.rx) then s.(ier := Ier(false, s.ier.threie))
      else if Empty(s.rx) then
        s.(readers := map[], wokenReaders := s.wokenReaders + s.readers, rx := Put(s.rx, c), received := s.received + [c])
      else s.(rx := Put(s.rx, c), received := s.received + [c])
  }

  function Transmit(s: State, ready: bool): State
    requires InRange(s.tx)
  {
    if !ready then s
    else if Empty(s.tx) then s.(ier := Ier(s.ier.dreie, false))
    else if Full(s.tx) then
      s.(writers := map[], wokenWriters := s.wokenWriters + s.writers, tx := Get(s.tx), sent := s.sent + [LoadData(s.tx)])
    else s.(tx := Get(s.tx), sent := s.sent + [LoadData(s.tx)])
  }

  /** uart_isr. */
  function Isr(s: State, input: Option<Byte>, ready: bool): State
    requires InRange(s.rx) && InRange(s.tx)
  {
    Transmit(Received(s, input), ready)
  }

  // --- threads ---

  /** With interrupts disabled: wait while the receive buffer is empty. */
  function EnterRead(s: State, tid: Tid, n: nat): State {
    if Empty(s.rx) then s.(readers := s.readers[tid := n], pc := Boundary)
    else s.(tid := tid, pc := ReadTest(n, []))
  }

  function EnterWrite(s: State, tid: Tid, job: Job): State
    requires InRange(s.tx)
  {
    if Full(s.tx) then s.(writers := s.writers[tid := job], pc := Boundary)
    else s.(tid := tid, pc := WriteTest(job))
  }

  function PutsOf(puts: map<Tid, seq<Byte>>, tid: Tid): seq<Byte> { if tid in puts then puts[tid] else [] }

  function MicroStep(s: State): State
    requires InRange(s.rx) && InRange(s.tx)
  {
    match s.pc
    case Boundary => s
    case ReadTest(n, got) =>
      if !Empty(s.rx) && |got| < n then s.(pc := ReadStore(n, got, s.rx.hpos, LoadData(s.rx)))
      else s.(pc := ReadIerLoad(got))
    case ReadStore(n, got, hpos, c) => s.(rx := StoreHead(s.rx, hpos), pc := ReadTest(n, got + [c]))
    case ReadIerLoad(got) => s.(pc := ReadIerStore(got, s.ier))
    case ReadIerStore(got, ier) => s.(ier := Ier(true, ier.threie), pc := Boundary, returned := s.returned + [got])
    case WriteEnter(job) => if job.pos < |job.text| then EnterWrite(s, s.tid, job) else s.(pc := Boundary)
    case WriteTest(job) =>
      if !Full(s.tx) && job.pos < |job.text|
      then s.(tx := StoreData(s.tx, job.text[job.pos]), pc := WriteStore(job, s.tx.tpos))
      else s.(pc := WriteIerLoad(job))
    case WriteStore(job, tpos) =>
      var c := s.tx.data[tpos % BUFSZ];
      s.(tx := StoreTail(s.tx, tpos), pc := WriteTest(Job(job.text, job.pos + 1)),
         accepted := s.accepted + [c], puts := s.puts[s.tid := PutsOf(s.puts, s.tid) + [c]])
    case WriteIerLoad(job) => s.(pc := WriteIerStore(job, s.ier))
    case WriteIerStore(job, ier) => s.(ier := Ier(ier.dreie, true), pc := WriteEnter(job))
  }

  predicate Enabled(s: State, a: Action) {
    match a
    case Read(tid, n) => s.pc.Boundary? && n > 0 && Free(s, tid)
    case Write(tid, text) => s.pc.Boundary? && Free(s, tid)
    case ResumeRead(tid) => s.pc.Boundary? && tid in s.wokenReaders
    case ResumeWrite(tid) => s.pc.Boundary? && tid in s.wokenWriters
    case Micro => !s.pc.Boundary?
    case Interrupt(_, _) => true
  }

  /** The thread is not inside a call of the driver. */
  predicate Free(s: State, tid: Tid) {
    tid !in s.readers && tid !in s.writers && tid !in s.wokenReaders && tid !in s.wokenWriters
  }

  function Next(s: State, a: Action): State
    requires InRange(s.rx) && InRange(s.tx) && Enabled(s, a)
  {
    match a
    case Read(tid, n) => EnterRead(s, tid, n)
    case Write(tid, text) => s.(tid := tid, pc := WriteEnter(Job(text, 0)), puts := s.puts[tid := []])
    case ResumeRead(tid) => EnterRead(s.(wokenReaders := s.wokenReaders - {tid}), tid, s.wokenReaders[tid])
    case ResumeWrite(tid) => EnterWrite(s.(wokenWriters := s.wokenWriters - {tid}), tid, s.wokenWriters[tid])
    case Micro => MicroStep(s)
    case Interrupt(input, ready) => Isr(s, input, ready)
  }

  /** After uart_open: empty buffers, whatever their data, and interrupts for received bytes only. */
  predicate Opened(s: State) {
    && Cleared(s.rx) && Cleared(s.tx)
    && s == State(s.rx, s.tx, Ier(true, false), s.tid, Boundary, map[], map[], map[], map[], [], [], [], [], map[])
  }

  // --- the invariant ---

  /** The bytes the current read has taken so far. */
  function Taken(pc: Pc): seq<Byte> {
    match pc
    case ReadTest(_, got) => got
    case ReadStore(_, got, _, _) => got
    case ReadIerLoad(got) => got
    case ReadIerStore(got, _) => got
    case _ => []
  }

  predicate Reading(pc: Pc) { pc.ReadTest? || pc.ReadStore? || pc.ReadIerLoad? || pc.ReadIerStore? }

  /** A thread is between its first put and the store that enables interrupts. */
  predicate Writing(pc: Pc) { pc.WriteTest? || pc.WriteStore? || pc.WriteIerLoad? || pc.WriteIerStore? }

  /** No byte is lost, repeated or reordered. */
  predicate BytesOk(s: State) {
    && Valid(s.rx) && Valid(s.tx)
    && s.received == Concat(s.returned) + Taken(s.pc) + Contents(s.rx)
    && s.accepted == s.sent + Contents(s.tx)
  }

  predicate ReceiveOk(s: State)
    requires InRange(s.rx)
  {
    && (s.readers != map[] ==> Empty(s.rx) && !Reading(s.pc) && s.ier.dreie)
    && (!s.ier.dreie ==> Full(s.rx) || Reading(s.pc))
  }

  predicate TransmitOk(s: State)
    requires InRange(s.tx)
  {
    && (s.writers != map[] ==> Full(s.tx) && !Writing(s.pc) && s.ier.threie)
    && (!s.ier.threie ==> Empty(s.tx) || Writing(s.pc))
  }

  predicate PcOk(s: State)
    requires InRange(s.rx) && InRange(s.tx)
  {
    match s.pc
    case Boundary => true
    case ReadTest(n, got) => 0 < n && |got| <= n && (got == [] ==> !Empty(s.rx))
    case ReadStore(n, got, hpos, c) => |got| < n && !Empty(s.rx) && hpos == s.rx.hpos && c == LoadData(s.rx)
    case ReadIerLoad(got) => got != []
    case ReadIerStore(got, ier) => got != [] && (!ier.threie ==> Empty(s.tx))
    case WriteEnter(job) => job.pos <= |job.text|
    case WriteTest(job) => job.pos <= |job.text|
    case WriteStore(job, tpos) =>
      job.pos < |job.text| && !Full(s.tx) && tpos == s.tx.tpos && s.tx.data[tpos % BUFSZ] == job.text[job.pos]
    case WriteIerLoad(job) => job.pos <= |job.text|
    case WriteIerStore(job, ier) => job.pos <= |job.text| && (!ier.dreie ==> Full(s.rx))
  }

  predicate ReadsOk(calls: map<Tid, nat>) { forall t :: t in calls ==> calls[t] > 0 }

  predicate JobsOk(calls: map<Tid, Job>) { forall t :: t in calls ==> calls[t].pos < |calls[t].text| }

  /** Calls under way ask for at least one byte. */
  predicate CallsOk(s: State) {
    ReadsOk(s.readers) && ReadsOk(s.wokenReaders) && JobsOk(s.writers) && JobsOk(s.wokenWriters)
  }

  predicate Inv(s: State) { BytesOk(s) && ReceiveOk(s) && TransmitOk(s) && PcOk(s) && CallsOk(s) }

  // --- interrupts keep it ---

  lemma ReceivedBytes(s: State, input: Option<Byte>)
    requires BytesOk(s)
    ensures BytesOk(Received(s, input))
  {
    hide Contents, Len, Concat;
    if input.Some? && !Full(s.rx) { PutAppends(s.rx, input.value); }
  }

  lemma ReceivedWaiters(s: State, input: Option<Byte>)
    requires Inv(s)
    ensures var s' := Received(s, input); InRange(s'.rx) && InRange(s'.tx) && ReceiveOk(s') && TransmitOk(s')
  {
    hide Contents, Len, Concat, CallsOk;
    EmptyIs(s.rx);
    if input.Some? && !Full(s.rx) { PutLoads(s.rx, input.value); }
  }

  lemma ReceivedPc(s: State, input: Option<Byte>)
    requires Inv(s)
    ensures var s' := Received(s, input); InRange(s'.rx) && InRange(s'.tx) && PcOk(s')
  {
    hide Contents, Len, Concat, CallsOk, ReceiveOk, TransmitOk;
    EmptyIs(s.rx);
    if input.Some? && !Full(s.rx) { PutLoads(s.rx, input.value); }
  }

  lemma ReadsUnion(a: map<Tid, nat>, b: map<Tid, nat>)
    requires ReadsOk(a) && ReadsOk(b)
    ensures ReadsOk(a + b) && ReadsOk(map[])
  {
  }

  lemma ReceivedKeeps(s: State, input: Option<Byte>)
    requires Inv(s)
    ensures Inv(Received(s, input))
  {
    hide Contents, Len, Concat, ReadsOk, JobsOk, Full, PcOk, ReceiveOk, TransmitOk, BytesOk;
    assert InRange(s.rx) by { BytesInRange(s); }
    ReceivedWaiters(s, input);
    ReceivedPc(s, input);
    ReceivedBytes(s, input);
    ReadsUnion(s.wokenReaders, s.readers);
  }

  /** A put leaves the byte at the head alone. */
  lemma PutLoads(r: Ring, c: Byte)
    requires Valid(r) && !Full(r)
    ensures InRange(Put(r, c)) && Put(r, c).hpos == r.hpos && !Empty(Put(r, c))
    ensures !Empty(r) ==> LoadData(Put(r, c)) == LoadData(r)
  {
    hide Contents, Len;
    PutAppends(r, c);
    EmptyIs(Put(r, c));
    EmptyIs(r);
    if !Empty(r) {
      ContentsAt(r, 0);
      ContentsAt(Put(r, c), 0);
    }
  }

  lemma TransmitBytes(s: State, ready: bool)
    requires BytesOk(s)
    ensures BytesOk(Transmit(s, ready))
  {
    hide Contents, Len, Concat;
    EmptyIs(s.tx);
    if ready && !Empty(s.tx) {
      GetTakesFirst(s.tx);
      assert s.sent + Contents(s.tx) == s.sent + [LoadData(s.tx)] + Contents(Get(s.tx));
    }
  }

  lemma JobsUnion(a: map<Tid, Job>, b: map<Tid, Job>)
    requires JobsOk(a) && JobsOk(b)
    ensures JobsOk(a + b) && JobsOk(map[])
  {
  }

  lemma TransmitWaiters(s: State, ready: bool)
    requires Inv(s)
    ensures var s' := Transmit(s, ready); InRange(s'.rx) && InRange(s'.tx) && ReceiveOk(s') && TransmitOk(s')
  {
    hide Contents, Len, Concat, CallsOk;
    EmptyIs(s.tx);
    if ready && !Empty(s.tx) { HeadStep(s.tx); }
  }

  lemma TransmitPc(s: State, ready: bool)
    requires Inv(s)
    ensures var s' := Transmit(s, ready); InRange(s'.rx) && InRange(s'.tx) && PcOk(s')
  {
    hide Contents, Len, Concat, CallsOk, ReceiveOk, TransmitOk;
    EmptyIs(s.tx);
    if ready && !Empty(s.tx) { HeadStep(s.tx); }
  }

  lemma TransmitKeeps(s: State, ready: bool)
    requires Inv(s)
    ensures Inv(Transmit(s, ready))
  {
    hide Contents, Len, Concat, ReadsOk, JobsOk, Full, PcOk, ReceiveOk, TransmitOk, BytesOk;
    assert InRange(s.tx) by { BytesInRange(s); }
    TransmitWaiters(s, ready);
    TransmitPc(s, ready);
    TransmitBytes(s, ready);
    JobsUnion(s.wokenWriters, s.writers);
  }

  lemma BytesInRange(s: State)
    requires BytesOk(s)
    ensures InRange(s.rx) && InRange(s.tx)
  {
  }

  lemma IsrKeeps(s: State, input: Option<Byte>, ready: bool)
    requires Inv(s)
    ensures Inv(Isr(s, input, ready))
  {
    hide ReceiveOk, TransmitOk, PcOk, CallsOk, Received, Transmit;
    ReceivedKeeps(s, input);
    TransmitKeeps(Received(s, input), ready);
  }

  // --- threads keep it ---

  lemma EnterReadKeeps(s: State, tid: Tid, n: nat)
    requires Inv(s) && s.pc.Boundary? && n > 0
    ensures Inv(EnterRead(s, tid, n))
  {
    hide Contents, Concat, Len;
    EmptyIs(s.rx);
  }

  lemma EnterWriteBytes(s: State, tid: Tid, job: Job)
    requires BytesOk(s) && (s.pc.Boundary? || s.pc.WriteEnter?)
    ensures BytesOk(EnterWrite(s, tid, job))
  {
    hide Contents, Len, Concat, Full, Valid;
  }

  lemma EnterWriteKeeps(s: State, tid: Tid, job: Job)
    requires Inv(s) && (s.pc.Boundary? || s.pc.WriteEnter?) && job.pos < |job.text|
    ensures Inv(EnterWrite(s, tid, job))
  {
    hide BytesOk, Len, ReadsOk;
    BytesInRange(s);
    EnterWriteBytes(s, tid, job);
    EmptyIs(s.tx);
  }

  lemma ReadStoreKeeps(s: State)
    requires Inv(s) && s.pc.ReadStore?
    ensures Inv(MicroStep(s))
  {
    hide Contents, Len, Concat;
    GetTakesFirst(s.rx);
    var got, c := s.pc.got, s.pc.c;
    assert got + [c] + Contents(Get(s.rx)) == got + Contents(s.rx);
    assert Concat(s.returned) + (got + [c]) + Contents(Get(s.rx)) == Concat(s.returned) + got + Contents(s.rx);
  }

  lemma ReadReturnBytes(s: State)
    requires BytesOk(s) && s.pc.ReadIerStore?
    ensures BytesOk(MicroStep(s))
  {
    hide Contents, Len, Valid;
    var r := s.returned + [s.pc.got];
    assert r[..|r| - 1] == s.returned && r[|r| - 1] == s.pc.got;
    assert Concat(r) + [] == Concat(s.returned) + s.pc.got;
  }

  lemma ReadReturnKeeps(s: State)
    requires Inv(s) && s.pc.ReadIerStore?
    ensures Inv(MicroStep(s))
  {
    hide Contents, Len, Concat;
    EmptyIs(s.tx);
    ReadReturnBytes(s);
  }

  lemma ReadTestBytes(s: State)
    requires BytesOk(s) && (s.pc.ReadTest? || s.pc.ReadIerLoad?)
    ensures BytesOk(MicroStep(s)) && MicroStep(s).rx == s.rx && MicroStep(s).tx == s.tx
  {
    hide Contents, Len, Concat, Full, Valid;
  }

  lemma ReadTestKeeps(s: State)
    requires Inv(s) && (s.pc.ReadTest? || s.pc.ReadIerLoad?)
    ensures Inv(MicroStep(s))
  {
    hide BytesOk, Full, ReadsOk, JobsOk, Len;
    BytesInRange(s);
    ReadTestBytes(s);
  }

  lemma ReadStepKeeps(s: State)
    requires Inv(s) && InRange(s.rx) && InRange(s.tx) && Reading(s.pc)
    ensures Inv(MicroStep(s))
  {
    hide Inv, MicroStep;
    if s.pc.ReadStore? { ReadStoreKeeps(s); }
    else if s.pc.ReadIerStore? { ReadReturnKeeps(s); }
    else { ReadTestKeeps(s); }
  }

  lemma WriteTestKeeps(s: State)
    requires Inv(s) && s.pc.WriteTest?
    ensures Inv(MicroStep(s))
  {
    hide Contents, Len, Concat;
    EmptyIs(s.tx);
    var job := s.pc.job;
    if !Full(s.tx) && job.pos < |job.text| { StoreDataKeeps(s.tx, job.text[job.pos]); }
  }

  lemma WriteStoreKeeps(s: State)
    requires Inv(s) && s.pc.WriteStore?
    ensures Inv(MicroStep(s))
  {
    hide Contents, Len, Concat;
    EmptyIs(s.tx);
    StoreTailAppends(s.tx);
  }

  lemma WriteStepKeeps(s: State)
    requires Inv(s) && Writing(s.pc)
    ensures Inv(MicroStep(s))
  {
    hide Contents, Len, Concat;
    EmptyIs(s.rx);
    if s.pc.WriteTest? { WriteTestKeeps(s); }
    else if s.pc.WriteStore? { WriteStoreKeeps(s); }
  }

  lemma NextKeeps(s: State, a: Action)
    requires Inv(s) && Enabled(s, a)
    ensures Inv(Next(s, a))
  {
    hide Contents, Len, Concat, EnterRead, EnterWrite, Isr;
    match a
    case Read(tid, n) => EnterReadKeeps(s, tid, n);
    case Write(tid, text) =>
    case ResumeRead(tid) =>
      EnterReadKeeps(s.(wokenReaders := s.wokenReaders - {tid}), tid, s.wokenReaders[tid]);
    case ResumeWrite(tid) =>
      EnterWriteKeeps(s.(wokenWriters := s.wokenWriters - {tid}), tid, s.wokenWriters[tid]);
    case Micro =>
      if Reading(s.pc) { ReadStepKeeps(s); }
      else if Writing(s.pc) { WriteStepKeeps(s); }
      else if s.pc.job.pos < |s.pc.job.text| { EnterWriteKeeps(s, s.tid, s.pc.job); }
    case Interrupt(input, ready) => IsrKeeps(s, input, ready);
  }

  // --- what each write has put in ---

  predicate InWrite(pc: Pc) { pc.WriteEnter? || Writing(pc) }

  predicate Done(puts: map<Tid, seq<Byte>>, tid: Tid, job: Job) {
    job.pos <= |job.text| && PutsOf(puts, tid) == job.text[..job.pos]
  }

  predicate AllDone(puts: map<Tid, seq<Byte>>, jobs: map<Tid, Job>) {
    forall t :: t in jobs ==> Done(puts, t, jobs[t])
  }

  predicate WritePcOk(puts: map<Tid, seq<Byte>>, jobs: map<Tid, Job>, tid: Tid, pc: Pc) {
    InWrite(pc) ==> tid !in jobs && Done(puts, tid, pc.job)
  }

  /** Every write under way, of the current thread or one that waits or was woken, has put in its
      text up to its position, each byte once. */
  predicate PutsOk(s: State) {
    && s.writers.Keys !! s.wokenWriters.Keys
    && AllDone(s.puts, s.wokenWriters + s.writers)
    && WritePcOk(s.puts, s.wokenWriters + s.writers, s.tid, s.pc)
  }

  lemma OneDone(puts: map<Tid, seq<Byte>>, jobs: map<Tid, Job>, tid: Tid, p: seq<Byte>)
    requires AllDone(puts, jobs) && tid !in jobs
    ensures AllDone(puts[tid := p], jobs)
  {
    forall t | t in jobs ensures Done(puts[tid := p], t, jobs[t]) {
      assert Done(puts, t, jobs[t]);
    }
  }

  lemma JobAdded(puts: map<Tid, seq<Byte>>, jobs: map<Tid, Job>, tid: Tid, job: Job)
    requires AllDone(puts, jobs) && Done(puts, tid, job)
    ensures AllDone(puts, jobs[tid := job])
  {
  }

  lemma JobsMoved(woken: map<Tid, Job>, waiting: map<Tid, Job>)
    ensures (woken + waiting) + map[] == woken + waiting
  {
  }

  lemma StorePuts(s: State)
    requires Inv(s) && PutsOk(s) && s.pc.WriteStore?
    ensures PutsOk(MicroStep(s))
  {
    hide Contents, Len, Concat, BytesOk, Full, AllDone, ReceiveOk, TransmitOk, CallsOk;
    var job := s.pc.job;
    var c := job.text[job.pos];
    assert job.text[..job.pos] + [c] == job.text[..job.pos + 1];
    OneDone(s.puts, s.wokenWriters + s.writers, s.tid, PutsOf(s.puts, s.tid) + [c]);
  }

  lemma EnterWritePuts(s: State, tid: Tid, job: Job)
    requires InRange(s.tx) && s.writers.Keys !! s.wokenWriters.Keys && AllDone(s.puts, s.wokenWriters + s.writers)
    requires tid !in s.wokenWriters && tid !in s.writers && Done(s.puts, tid, job)
    ensures PutsOk(EnterWrite(s, tid, job))
  {
    hide Len, AllDone, Done, Full;
    var jobs := s.wokenWriters + s.writers;
    JobAdded(s.puts, jobs, tid, job);
    assert jobs[tid := job] == s.wokenWriters + s.writers[tid := job];
  }

  lemma StoreIerPuts(s: State)
    requires InRange(s.rx) && InRange(s.tx) && PutsOk(s) && (s.pc.WriteTest? || s.pc.WriteIerLoad? || s.pc.WriteIerStore?)
    ensures PutsOk(MicroStep(s))
  {
    hide Len, Full, AllDone, Done, StoreData;
  }

  lemma ReadPuts(s: State)
    requires InRange(s.rx) && InRange(s.tx) && PutsOk(s) && Reading(s.pc)
    ensures PutsOk(MicroStep(s))
  {
    hide Len, AllDone, Done, StoreHead, LoadData;
  }

  lemma LastEnterPuts(s: State)
    requires InRange(s.rx) && InRange(s.tx) && PutsOk(s) && s.pc.WriteEnter?
    ensures PutsOk(MicroStep(s))
  {
    hide Len, AllDone, EnterWrite;
    if s.pc.job.pos < |s.pc.job.text| { EnterWritePuts(s, s.tid, s.pc.job); }
  }

  lemma MicroPuts(s: State)
    requires Inv(s) && PutsOk(s) && !s.pc.Boundary?
    ensures PutsOk(MicroStep(s))
  {
    hide Contents, Len, PutsOk, MicroStep, ReceiveOk, TransmitOk, PcOk, CallsOk;
    if s.pc.WriteStore? { StorePuts(s); }
    else if s.pc.WriteEnter? { LastEnterPuts(s); }
    else if Reading(s.pc) { ReadPuts(s); }
    else { StoreIerPuts(s); }
  }

  lemma TransmitPuts(s: State, ready: bool)
    requires InRange(s.tx) && PutsOk(s)
    ensures PutsOk(Transmit(s, ready))
  {
    hide Len, Full, AllDone, WritePcOk;
    JobsMoved(s.wokenWriters, s.writers);
  }

  lemma IsrPuts(s: State, input: Option<Byte>, ready: bool)
    requires InRange(s.rx) && InRange(s.tx) && PutsOk(s)
    ensures PutsOk(Isr(s, input, ready))
  {
    hide Len, Full, AllDone, WritePcOk, Put, Transmit;
    TransmitPuts(Received(s, input), ready);
  }

  lemma WritePuts(s: State, tid: Tid, text: seq<Byte>)
    requires PutsOk(s) && Free(s, tid)
    ensures PutsOk(s.(tid := tid, pc := WriteEnter(Job(text, 0)), puts := s.puts[tid := []]))
  {
    hide AllDone;
    OneDone(s.puts, s.wokenWriters + s.writers, tid, []);
  }

  lemma ResumeWritePuts(s: State, tid: Tid)
    requires InRange(s.tx) && PutsOk(s) && tid in s.wokenWriters
    ensures PutsOk(EnterWrite(s.(wokenWriters := s.wokenWriters - {tid}), tid, s.wokenWriters[tid]))
  {
    hide Len, Full, EnterWrite, WritePcOk, Done;
    var jobs := s.wokenWriters + s.writers;
    assert jobs[tid] == s.wokenWriters[tid];
    EnterWritePuts(s.(wokenWriters := s.wokenWriters - {tid}), tid, s.wokenWriters[tid]);
  }

  lemma NextPuts(s: State, a: Action)
    requires Inv(s) && PutsOk(s) && Enabled(s, a)
    ensures PutsOk(Next(s, a))
  {
    hide Contents, Len, Concat, ReceiveOk, TransmitOk, CallsOk, Full, AllDone, Done, Isr, MicroStep, EnterWrite;
    match a
    case Read(_, _) =>
    case Write(tid, text) => WritePuts(s, tid, text);
    case ResumeRead(_) =>
    case ResumeWrite(tid) => ResumeWritePuts(s, tid);
    case Micro => MicroPuts(s);
    case Interrupt(input, ready) => IsrPuts(s, input, ready);
  }

  // --- every run ---

  ghost predicate Reachable(s: State, steps: nat)
    decreases steps
  {
    if steps == 0 then Opened(s)
    else exists p, a :: Reachable(p, steps - 1) && InRange(p.rx) && InRange(p.tx) && Enabled(p, a) && s == Next(p, a)
  }

  lemma {:induction false} ReachableInv(s: State, steps: nat)
    requires Reachable(s, steps)
    ensures Inv(s) && PutsOk(s)
    decreases steps
  {
    hide Inv, PutsOk, Next, Enabled, Opened;
    if steps == 0 {
      OpenedInv(s);
    } else {
      var p, a :| Reachable(p, steps - 1) && InRange(p.rx) && InRange(p.tx) && Enabled(p, a) && s == Next(p, a);
      ReachableInv(p, steps - 1);
      NextKeeps(p, a);
      NextPuts(p, a);
    }
  }

  lemma OpenedInv(s: State)
    requires Opened(s)
    ensures Inv(s) && PutsOk(s)
  {
    ClearedIsEmpty(s.rx);
    ClearedIsEmpty(s.tx);
  }

  /** At the boundaries of thread steps: nobody waits for what is there, an interrupt will come for
      everybody who waits, and interrupts are off only while they have nothing to do. */
  lemma WakeupsAndEnables(s: State, steps: nat)
    requires Reachable(s, steps) && s.pc.Boundary?
    ensures s.readers != map[] ==> Empty(s.rx) && s.ier.dreie
    ensures s.writers != map[] ==> InRange(s.tx) && Full(s.tx) && s.ier.threie
    ensures !s.ier.dreie ==> InRange(s.rx) && Full(s.rx)
    ensures !s.ier.threie ==> Empty(s.tx)
  {
    hide Contents, Len, Concat, Reachable;
    ReachableInv(s, steps);
  }

  /** At any time: what the reads returned, what the current one has taken and what is held is what
      came in, in that order; likewise what went out and what is held is what the writes put in. */
  lemma NoByteLost(s: State, steps: nat)
    requires Reachable(s, steps)
    ensures Valid(s.rx) && Valid(s.tx)
    ensures s.received == Concat(s.returned) + Taken(s.pc) + Contents(s.rx) && |Contents(s.rx)| <= BUFSZ
    ensures s.accepted == s.sent + Contents(s.tx) && |Contents(s.tx)| <= BUFSZ
  {
    hide Reachable, Contents;
    ReachableInv(s, steps);
  }

  /** A write that is about to return has put in its whole text, in order, each byte once, however
      often it had to wait; a read that is about to return has taken at least one byte. */
  lemma CallsComplete(s: State, steps: nat)
    requires Reachable(s, steps)
    ensures s.pc.WriteEnter? && s.pc.job.pos >= |s.pc.job.text| ==> PutsOf(s.puts, s.tid) == s.pc.job.text
    ensures s.pc.ReadIerStore? ==> s.pc.got != []
    ensures s.pc.ReadTest? ==> |s.pc.got| <= s.pc.n
    ensures forall t :: t in s.writers ==> s.writers[t].pos < |s.writers[t].text|
  {
    hide Reachable, Contents, PutsOf;
    ReachableInv(s, steps);
  }
}
