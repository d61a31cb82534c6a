/** The calls of uart_read and uart_write that are under way: who waits for what, and whom an
    interrupt wakes. */
module UartCalls {
  import opened Common
  import opened Bytes
  import opened Rings
  import opened Uart

  // --- wakeups ---

  /** All of `from` has come to `to`, with its requests, and nothing else has changed there. */
  ghost predicate MovedAll<T>(from: map<Tid, T>, to: map<Tid, T>, from': map<Tid, T>, to': map<Tid, T>) {
    && from' == map[] && to'.Keys == to.Keys + from.Keys
    && (forall t :: t in from ==> to'[t] == from[t])
    && forall t :: t in to && t !in from ==> to'[t] == to[t]
  }

  lemma ReceivedElsewhere(s: State, input: Option<Byte>)
    requires InRange(s.rx)
    ensures var s' := Received(s, input);
      s'.pc == s.pc && s'.tid == s.tid && s'.writers == s.writers && s'.wokenWriters == s.wokenWriters
  {
    hide Full, Empty, Put, InRange;
    match input
    case None =>
    case Some(c) => if Full(s.rx) {} else if Empty(s.rx) {}
  }

  lemma ReceivedWakes(s: State, input: Option<Byte>)
    requires InRange(s.rx)
    ensures var s' := Received(s, input);
      if input.Some? && !Full(s.rx) && Empty(s.rx)
      then MovedAll(s.readers, s.wokenReaders, s'.readers, s'.wokenReaders)
      else s'.readers == s.readers && s'.wokenReaders == s.wokenReaders
  {
    hide Full, Empty, Put, InRange;
  }

  lemma TransmitElsewhere(s: State, ready: bool)
    requires InRange(s.tx)
    ensures var s' := Transmit(s, ready);
      s'.pc == s.pc && s'.tid == s.tid && s'.readers == s.readers && s'.wokenReaders == s.wokenReaders
  {
    hide Full, Empty, Get, LoadData, InRange;
    if ready { if Empty(s.tx) {} else if Full(s.tx) {} }
  }

  lemma TransmitWakes(s: State, ready: bool)
    requires InRange(s.tx)
    ensures var s' := Transmit(s, ready);
      if ready && !Empty(s.tx) && Full(s.tx)
      then MovedAll(s.writers, s.wokenWriters, s'.writers, s'.wokenWriters)
      else s'.writers == s.writers && s'.wokenWriters == s.wokenWriters
  {
    hide Full, Empty, Get, LoadData, InRange;
  }

  /** What is in the buffer when the indices say that it is empty or full. */
  lemma FullIs(r: Ring)
    requires Valid(r)
    ensures Empty(r) <==> Contents(r) == []
    ensures Full(r) <==> |Contents(r)| == BUFSZ
  {
    EmptyIs(r);
  }

  /** A byte that comes into an empty receive buffer wakes all waiting readers, a byte that leaves a
      full transmit buffer all waiting writers, and nothing else wakes anybody. */
  lemma InterruptWakes(s: State, input: Option<Byte>, ready: bool)
    requires BytesOk(s)
    ensures var s' := Next(s, Interrupt(input, ready));
      && s'.pc == s.pc && s'.tid == s.tid
      && (if input.Some? && Contents(s.rx) == []
          then MovedAll(s.readers, s.wokenReaders, s'.readers, s'.wokenReaders)
          else s'.readers == s.readers && s'.wokenReaders == s.wokenReaders)
      && (if ready && |Contents(s.tx)| == BUFSZ
          then MovedAll(s.writers, s.wokenWriters, s'.writers, s'.wokenWriters)
          else s'.writers == s.writers && s'.wokenWriters == s.wokenWriters)
  {
    hide Received, Transmit, Contents, Len, Full, Empty, Concat, MovedAll;
    FullIs(s.rx);
    FullIs(s.tx);
    ReceivedElsewhere(s, input);
    ReceivedWakes(s, input);
    TransmitElsewhere(Received(s, input), ready);
    TransmitWakes(Received(s, input), ready);
  }

  // --- calls under way ---

  datatype Call = ReadCall(n: nat) | WriteCall(text: seq<Byte>)

  /** The next step of the current thread returns from its call. */
  predicate Returns(pc: Pc) { pc.ReadIerStore? || (pc.WriteEnter? && pc.job.pos >= |pc.job.text|) }

  /** A call begins with its action, and ends with the step that returns. */
  function CallsAfter(calls: map<Tid, Call>, s: State, a: Action): map<Tid, Call> {
    match a
    case Read(tid, n) => calls[tid := ReadCall(n)]
    case Write(tid, text) => calls[tid := WriteCall(text)]
    case Micro => if Returns(s.pc) then calls - {s.tid} else calls
    case _ => calls
  }

  /** The state and the calls under way after a number of steps. */
  ghost predicate Tracked(s: State, calls: map<Tid, Call>, steps: nat)
    decreases steps
  {
    if steps == 0 then Opened(s) && calls == map[]
    else exists p, before, a ::
      && Tracked(p, before, steps - 1) && InRange(p.rx) && InRange(p.tx) && Enabled(p, a)
      && s == Next(p, a) && calls == CallsAfter(before, p, a)
  }

  lemma {:induction false} TrackedIsReachable(s: State, calls: map<Tid, Call>, steps: nat)
    requires Tracked(s, calls, steps)
    ensures Reachable(s, steps)
    decreases steps
  {
    hide Opened, Enabled, Next;
    if steps > 0 {
      var p, before, a :|
        && Tracked(p, before, steps - 1) && InRange(p.rx) && InRange(p.tx) && Enabled(p, a)
        && s == Next(p, a) && calls == CallsAfter(before, p, a);
      TrackedIsReachable(p, before, steps - 1);
    }
  }

  // --- where each of them is ---

  /** The threads that are inside the driver: one that runs, and those that wait or were woken. */
  datatype Places = Places(
    inside: set<Tid>, readers: map<Tid, nat>, writers: map<Tid, Job>,
    wokenReaders: map<Tid, nat>, wokenWriters: map<Tid, Job>)

  function PlacesOf(s: State): Places {
    Places(if s.pc.Boundary? then {} else {s.tid}, s.readers, s.writers, s.wokenReaders, s.wokenWriters)
  }

  /** The current thread is in the call that it made. */
  predicate PcMatches(calls: map<Tid, Call>, tid: Tid, pc: Pc) {
    match pc
    case Boundary => true
    case ReadTest(n, got) => tid in calls && calls[tid] == ReadCall(n)
    case ReadStore(n, got, _, _) => tid in calls && calls[tid] == ReadCall(n)
    case ReadIerLoad(got) => tid in calls && calls[tid].ReadCall? && |got| <= calls[tid].n
    case ReadIerStore(got, _) => tid in calls && calls[tid].ReadCall? && |got| <= calls[tid].n
    case WriteEnter(job) => tid in calls && calls[tid] == WriteCall(job.text)
    case WriteTest(job) => tid in calls && calls[tid] == WriteCall(job.text)
    case WriteStore(job, _) => tid in calls && calls[tid] == WriteCall(job.text)
    case WriteIerLoad(job) => tid in calls && calls[tid] == WriteCall(job.text)
    case WriteIerStore(job, _) => tid in calls && calls[tid] == WriteCall(job.text)
  }

  predicate InOnePlace(p: Places, t: Tid) {
    && (t in p.inside ==> t !in p.readers && t !in p.writers && t !in p.wokenReaders && t !in p.wokenWriters)
    && (t in p.readers ==> t !in p.writers && t !in p.wokenReaders && t !in p.wokenWriters)
    && (t in p.writers ==> t !in p.wokenReaders && t !in p.wokenWriters)
    && (t in p.wokenReaders ==> t !in p.wokenWriters)
  }

  predicate Somewhere(p: Places, t: Tid) {
    t in p.inside || t in p.readers || t in p.writers || t in p.wokenReaders || t in p.wokenWriters
  }

  predicate OwnRequest(p: Places, t: Tid, call: Call) {
    && (t in p.readers ==> call == ReadCall(p.readers[t]))
    && (t in p.wokenReaders ==> call == ReadCall(p.wokenReaders[t]))
    && (t in p.writers ==> call == WriteCall(p.writers[t].text))
    && (t in p.wokenWriters ==> call == WriteCall(p.wokenWriters[t].text))
  }

  /** Each call under way is in exactly one place, with its own request, and nobody else is there. */
  ghost predicate Placed(p: Places, calls: map<Tid, Call>) { forall t: Tid :: PlacedAt(p, calls, t) }

  predicate PlacedAt(p: Places, calls: map<Tid, Call>, t: Tid) {
    InOnePlace(p, t) && (t in calls <==> Somewhere(p, t)) && (t in calls ==> OwnRequest(p, t, calls[t]))
  }

  ghost predicate Accounted(s: State, calls: map<Tid, Call>) {
    Placed(PlacesOf(s), calls) && PcMatches(calls, s.tid, s.pc)
  }

  lemma Leaves(p: Places, calls: map<Tid, Call>, t: Tid)
    requires Placed(p, calls) && p.inside == {t}
    ensures Placed(p.(inside := {}), calls - {t})
  {
    var q := p.(inside := {});
    var calls' := calls - {t};
    forall u: Tid
      ensures PlacedAt(q, calls', u)
    {
      assert PlacedAt(p, calls, u);
    }
  }

  lemma StartsToWrite(p: Places, calls: map<Tid, Call>, t: Tid, text: seq<Byte>)
    requires Placed(p, calls) && p.inside == {} && !Somewhere(p, t)
    ensures Placed(p.(inside := {t}), calls[t := WriteCall(text)])
  {
    var q := p.(inside := {t});
    var calls' := calls[t := WriteCall(text)];
    forall u: Tid
      ensures PlacedAt(q, calls', u)
    {
      assert PlacedAt(p, calls, u);
    }
  }

  lemma StartsToRead(p: Places, calls: map<Tid, Call>, t: Tid, n: nat)
    requires Placed(p, calls) && p.inside == {} && !Somewhere(p, t)
    ensures Placed(p.(inside := {t}), calls[t := ReadCall(n)])
    ensures Placed(p.(readers := p.readers[t := n]), calls[t := ReadCall(n)])
  {
    var q1 := p.(inside := {t});
    var calls' := calls[t := ReadCall(n)];
    var q2 := p.(readers := p.readers[t := n]);
    forall u: Tid
      ensures PlacedAt(q1, calls', u)
      ensures PlacedAt(q2, calls', u)
    {
      assert PlacedAt(p, calls, u);
    }
  }

  lemma WaitsToWrite(p: Places, calls: map<Tid, Call>, t: Tid, job: Job)
    requires Placed(p, calls) && p.inside == {t} && t in calls && calls[t] == WriteCall(job.text)
    ensures Placed(p.(inside := {}, writers := p.writers[t := job]), calls)
  {
    var q := p.(inside := {}, writers := p.writers[t := job]);
    forall u: Tid
      ensures PlacedAt(q, calls, u)
    {
      assert PlacedAt(p, calls, u);
    }
  }

  lemma GoesOnReading(p: Places, calls: map<Tid, Call>, t: Tid)
    requires Placed(p, calls) && p.inside == {} && t in p.wokenReaders
    ensures t in calls && calls[t] == ReadCall(p.wokenReaders[t])
    ensures Placed(p.(inside := {t}, wokenReaders := p.wokenReaders - {t}), calls)
    ensures Placed(p.(readers := p.readers[t := p.wokenReaders[t]], wokenReaders := p.wokenReaders - {t}), calls)
  {
    assert PlacedAt(p, calls, t);
    var q1 := p.(inside := {t}, wokenReaders := p.wokenReaders - {t});
    var q2 := p.(readers := p.readers[t := p.wokenReaders[t]], wokenReaders := p.wokenReaders - {t});
    forall u: Tid
      ensures PlacedAt(q1, calls, u)
      ensures PlacedAt(q2, calls, u)
    {
      assert PlacedAt(p, calls, u);
    }
  }

  lemma GoesOnWriting(p: Places, calls: map<Tid, Call>, t: Tid)
    requires Placed(p, calls) && p.inside == {} && t in p.wokenWriters
    ensures t in calls && calls[t] == WriteCall(p.wokenWriters[t].text)
    ensures Placed(p.(inside := {t}, wokenWriters := p.wokenWriters - {t}), calls)
    ensures Placed(p.(writers := p.writers[t := p.wokenWriters[t]], wokenWriters := p.wokenWriters - {t}), calls)
  {
    assert PlacedAt(p, calls, t);
    var q1 := p.(inside := {t}, wokenWriters := p.wokenWriters - {t});
    var q2 := p.(writers := p.writers[t := p.wokenWriters[t]], wokenWriters := p.wokenWriters - {t});
    forall u: Tid
      ensures PlacedAt(q1, calls, u)
      ensures PlacedAt(q2, calls, u)
    {
      assert PlacedAt(p, calls, u);
    }
  }

  lemma ReadersMove(p: Places, calls: map<Tid, Call>, p': Places)
    requires Placed(p, calls) && MovedAll(p.readers, p.wokenReaders, p'.readers, p'.wokenReaders)
    requires p' == p.(readers := p'.readers, wokenReaders := p'.wokenReaders)
    ensures Placed(p', calls)
  {
    forall u: Tid
      ensures PlacedAt(p', calls, u)
    {
      assert PlacedAt(p, calls, u);
    }
  }

  lemma WritersMove(p: Places, calls: map<Tid, Call>, p': Places)
    requires Placed(p, calls) && MovedAll(p.writers, p.wokenWriters, p'.writers, p'.wokenWriters)
    requires p' == p.(writers := p'.writers, wokenWriters := p'.wokenWriters)
    ensures Placed(p', calls)
  {
    forall u: Tid
      ensures PlacedAt(p', calls, u)
    {
      assert PlacedAt(p, calls, u);
    }
  }

  // --- every step ---

  /** The same threads wait, or have been woken, and the same thread runs. */
  predicate SamePlaces(s: State, s': State) {
    && s'.tid == s.tid && s'.readers == s.readers && s'.writers == s.writers
    && s'.wokenReaders == s.wokenReaders && s'.wokenWriters == s.wokenWriters
  }

  lemma ReadGoesOn(s: State, calls: map<Tid, Call>)
    requires InRange(s.rx) && InRange(s.tx) && PcOk(s) && Reading(s.pc) && !s.pc.ReadIerStore?
    requires PcMatches(calls, s.tid, s.pc)
    ensures SamePlaces(s, MicroStep(s)) && !MicroStep(s).pc.Boundary? && PcMatches(calls, s.tid, MicroStep(s).pc)
  {
    hide Full, Empty, StoreHead, LoadData, InRange;
  }

  lemma WriteGoesOn(s: State, calls: map<Tid, Call>)
    requires InRange(s.rx) && InRange(s.tx) && (s.pc.WriteTest? || s.pc.WriteIerLoad? || s.pc.WriteIerStore?)
    requires PcMatches(calls, s.tid, s.pc)
    ensures SamePlaces(s, MicroStep(s)) && !MicroStep(s).pc.Boundary? && PcMatches(calls, s.tid, MicroStep(s).pc)
  {
    hide Full, Empty, StoreData, InRange;
  }

  lemma WriteStores(s: State, calls: map<Tid, Call>)
    requires InRange(s.rx) && InRange(s.tx) && s.pc.WriteStore? && PcMatches(calls, s.tid, s.pc)
    ensures SamePlaces(s, MicroStep(s)) && !MicroStep(s).pc.Boundary? && PcMatches(calls, s.tid, MicroStep(s).pc)
  {
    hide StoreTail, PutsOf;
  }

  /** A step of the current thread: it returns, waits for space, or goes on with its call. */
  lemma MicroPlaces(s: State, calls: map<Tid, Call>)
    requires InRange(s.rx) && InRange(s.tx) && PcOk(s) && !s.pc.Boundary? && PcMatches(calls, s.tid, s.pc)
    ensures var s', p := MicroStep(s), PlacesOf(s);
      if Returns(s.pc) then PlacesOf(s') == p.(inside := {}) && s'.pc.Boundary?
      else if s'.pc.Boundary? then
        s.pc.WriteEnter? && PlacesOf(s') == p.(inside := {}, writers := p.writers[s.tid := s.pc.job])
      else s'.tid == s.tid && PlacesOf(s') == p && PcMatches(calls, s'.tid, s'.pc)
  {
    hide MicroStep, PcOk;
    if s.pc.WriteEnter? { EnterOrReturn(s); }
    else if s.pc.ReadIerStore? { ReadReturns(s); }
    else if Reading(s.pc) { ReadGoesOn(s, calls); }
    else if s.pc.WriteStore? { WriteStores(s, calls); }
    else { WriteGoesOn(s, calls); }
  }

  lemma ReadReturns(s: State)
    requires InRange(s.rx) && InRange(s.tx) && s.pc.ReadIerStore?
    ensures PlacesOf(MicroStep(s)) == PlacesOf(s).(inside := {}) && MicroStep(s).pc.Boundary?
  {
  }

  lemma EnterOrReturn(s: State)
    requires InRange(s.rx) && InRange(s.tx) && s.pc.WriteEnter?
    ensures var s', p := MicroStep(s), PlacesOf(s);
      if s.pc.job.pos >= |s.pc.job.text| then PlacesOf(s') == p.(inside := {}) && s'.pc.Boundary?
      else if s'.pc.Boundary? then PlacesOf(s') == p.(inside := {}, writers := p.writers[s.tid := s.pc.job])
      else s'.tid == s.tid && PlacesOf(s') == p && s'.pc == WriteTest(s.pc.job)
  {
    hide Full, Len;
  }

  lemma MicroAccounted(s: State, calls: map<Tid, Call>)
    requires Inv(s) && InRange(s.rx) && InRange(s.tx) && !s.pc.Boundary? && Accounted(s, calls)
    ensures Accounted(MicroStep(s), CallsAfter(calls, s, Micro))
  {
    hide BytesOk, ReceiveOk, TransmitOk, CallsOk, PcOk, MicroStep, Placed;
    MicroPlaces(s, calls);
    Leaves(PlacesOf(s), calls, s.tid);
    if s.pc.WriteEnter? { WaitsToWrite(PlacesOf(s), calls, s.tid, s.pc.job); }
  }

  lemma EnterReadPlaces(s: State, t: Tid, n: nat)
    requires s.pc.Boundary?
    ensures var s', p := EnterRead(s, t, n), PlacesOf(s);
      if s'.pc.Boundary? then PlacesOf(s') == p.(readers := p.readers[t := n])
      else s'.tid == t && s'.pc == ReadTest(n, []) && PlacesOf(s') == p.(inside := {t})
  {
    hide Empty;
  }

  lemma EnterWritePlaces(s: State, t: Tid, job: Job)
    requires InRange(s.tx) && s.pc.Boundary?
    ensures var s', p := EnterWrite(s, t, job), PlacesOf(s);
      if s'.pc.Boundary? then PlacesOf(s') == p.(writers := p.writers[t := job])
      else s'.tid == t && s'.pc == WriteTest(job) && PlacesOf(s') == p.(inside := {t})
  {
    hide Full;
  }

  lemma FreeIsNowhere(s: State, t: Tid)
    requires s.pc.Boundary? && Free(s, t)
    ensures !Somewhere(PlacesOf(s), t)
  {
  }

  lemma ReadAccounted(s: State, calls: map<Tid, Call>, t: Tid, n: nat)
    requires s.pc.Boundary? && Free(s, t) && Accounted(s, calls)
    ensures Accounted(EnterRead(s, t, n), calls[t := ReadCall(n)])
  {
    hide Placed, EnterRead, Free, Somewhere;
    EnterReadPlaces(s, t, n);
    FreeIsNowhere(s, t);
    StartsToRead(PlacesOf(s), calls, t, n);
  }

  lemma WriteAccounted(s: State, calls: map<Tid, Call>, t: Tid, text: seq<Byte>)
    requires s.pc.Boundary? && Free(s, t) && Accounted(s, calls)
    ensures Accounted(s.(tid := t, pc := WriteEnter(Job(text, 0)), puts := s.puts[t := []]), calls[t := WriteCall(text)])
  {
    hide Placed, Free, Somewhere;
    FreeIsNowhere(s, t);
    StartsToWrite(PlacesOf(s), calls, t, text);
  }

  lemma ResumeReadAccounted(s: State, calls: map<Tid, Call>, t: Tid)
    requires s.pc.Boundary? && t in s.wokenReaders && Accounted(s, calls)
    ensures Accounted(EnterRead(s.(wokenReaders := s.wokenReaders - {t}), t, s.wokenReaders[t]), calls)
  {
    hide Placed, EnterRead;
    EnterReadPlaces(s.(wokenReaders := s.wokenReaders - {t}), t, s.wokenReaders[t]);
    GoesOnReading(PlacesOf(s), calls, t);
  }

  lemma ResumeWriteAccounted(s: State, calls: map<Tid, Call>, t: Tid)
    requires InRange(s.tx) && s.pc.Boundary? && t in s.wokenWriters && Accounted(s, calls)
    ensures Accounted(EnterWrite(s.(wokenWriters := s.wokenWriters - {t}), t, s.wokenWriters[t]), calls)
  {
    hide Placed, EnterWrite;
    EnterWritePlaces(s.(wokenWriters := s.wokenWriters - {t}), t, s.wokenWriters[t]);
    GoesOnWriting(PlacesOf(s), calls, t);
  }

  lemma InterruptAccounted(s: State, calls: map<Tid, Call>, input: Option<Byte>, ready: bool)
    requires BytesOk(s) && Accounted(s, calls)
    ensures Accounted(Next(s, Interrupt(input, ready)), calls)
  {
    hide Placed, Isr, Contents, BytesOk, MovedAll, InRange;
    BytesInRange(s);
    InterruptWakes(s, input, ready);
    var s' := Next(s, Interrupt(input, ready));
    var p, p' := PlacesOf(s), PlacesOf(s');
    var q := p.(readers := p'.readers, wokenReaders := p'.wokenReaders);
    if q != p { ReadersMove(p, calls, q); }
    if q != p' { WritersMove(q, calls, p'); }
  }

  lemma NextAccounted(s: State, calls: map<Tid, Call>, a: Action)
    requires Inv(s) && InRange(s.rx) && InRange(s.tx) && Enabled(s, a) && Accounted(s, calls)
    ensures Accounted(Next(s, a), CallsAfter(calls, s, a))
  {
    hide BytesOk, ReceiveOk, TransmitOk, PcOk, CallsOk, Accounted, MicroStep, Isr, EnterRead, EnterWrite, Free;
    match a
    case Read(t, n) => ReadAccounted(s, calls, t, n);
    case Write(t, text) => WriteAccounted(s, calls, t, text);
    case ResumeRead(t) => ResumeReadAccounted(s, calls, t);
    case ResumeWrite(t) => ResumeWriteAccounted(s, calls, t);
    case Micro => MicroAccounted(s, calls);
    case Interrupt(input, ready) => InterruptAccounted(s, calls, input, ready);
  }

  /** Over every run: no call is forgotten. A thread is inside the driver if and only if its call has
      begun and not returned, and then in exactly one place. */
  lemma {:induction false} NoCallForgotten(s: State, calls: map<Tid, Call>, steps: nat)
    requires Tracked(s, calls, steps)
    ensures Accounted(s, calls)
    ensures forall t :: t in calls <==> (!s.pc.Boundary? && t == s.tid) || !Free(s, t)
    decreases steps
  {
    hide BytesOk, ReceiveOk, TransmitOk, PcOk, CallsOk, Enabled, Next, CallsAfter, Accounted, Opened, Reachable;
    if steps == 0 {
      NoneAccounted(s);
    } else {
      var p, before, a :|
        && Tracked(p, before, steps - 1) && InRange(p.rx) && InRange(p.tx) && Enabled(p, a)
        && s == Next(p, a) && calls == CallsAfter(before, p, a);
      NoCallForgotten(p, before, steps - 1);
      TrackedIsReachable(p, before, steps - 1);
      ReachableInv(p, steps - 1);
      NextAccounted(p, before, a);
    }
    InsideIffCalled(s, calls);
  }

  lemma NoneAccounted(s: State)
    requires Opened(s)
    ensures Accounted(s, map[])
  {
  }

  lemma InsideIffCalled(s: State, calls: map<Tid, Call>)
    requires Accounted(s, calls)
    ensures forall t :: t in calls <==> (!s.pc.Boundary? && t == s.tid) || !Free(s, t)
  {
    forall t: Tid ensures t in calls <==> (!s.pc.Boundary? && t == s.tid) || !Free(s, t) {
      assert PlacedAt(PlacesOf(s), calls, t);
    }
  }

  // --- how much a call does before it returns ---

  /** uart_read goes on until it has as much as was asked for or nothing is left, and uart_write puts
      bytes in until its text is done or the buffer is full. */
  lemma LoopsGoOn(s: State, steps: nat)
    requires Reachable(s, steps)
    ensures Valid(s.rx) && Valid(s.tx)
    ensures s.pc.ReadTest? ==>
      (Next(s, Micro).pc.ReadIerLoad? <==> |s.pc.got| == s.pc.n || Contents(s.rx) == [])
    ensures s.pc.WriteTest? ==>
      (Next(s, Micro).pc.WriteIerLoad? <==> s.pc.job.pos == |s.pc.job.text| || |Contents(s.tx)| == BUFSZ)
  {
    hide Reachable, ReceiveOk, TransmitOk, CallsOk, Concat, Contents, Full, Empty, Len;
    ReachableInv(s, steps);
    FullIs(s.rx);
    FullIs(s.tx);
  }
}
