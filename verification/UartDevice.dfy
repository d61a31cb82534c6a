/** uart_read, uart_write and uart_isr of uart.c as code over the device, with interrupts between the
    loads and stores of the threads. The ghost field model follows each step in the machine Uart. */
module UartDevices {
  import opened Common
  import opened Bytes
  import opened Rings
  import opened RingBuffers
  import opened Uart
  import opened UartCalls

  class Device {
    const rxbuf: RingBuffer
    const txbuf: RingBuffer
    var dreie: bool                 // the two bits of the interrupt enable register
    var threie: bool
    var rxWaiters: set<Tid>         // the wait lists of rxbnotempty and txbnotfull
    var txWaiters: set<Tid>
    var rxWoken: set<Tid>           // made ready by a broadcast to these, and not run since
    var txWoken: set<Tid>
    ghost var model: State
    ghost var steps: nat

    ghost predicate Apart()
      reads this, rxbuf, txbuf
    {
      rxbuf != txbuf && rxbuf.data != txbuf.data
    }

    ghost predicate Coupled()
      reads this, rxbuf, rxbuf.data, txbuf, txbuf.data
    {
      && Apart()
      && rxbuf.Value() == model.rx && txbuf.Value() == model.tx && Ier(dreie, threie) == model.ier
      && rxWaiters == model.readers.Keys && txWaiters == model.writers.Keys
      && rxWoken == model.wokenReaders.Keys && txWoken == model.wokenWriters.Keys
    }

    ghost predicate Valid()
      reads this, rxbuf, rxbuf.data, txbuf, txbuf.data
    {
      Coupled() && Reachable(model, steps) && Inv(model)
    }

    /** uart_open. */
    constructor ()
      ensures Valid() && Opened(model)
      ensures fresh(rxbuf) && fresh(txbuf) && fresh(rxbuf.data) && fresh(txbuf.data)
    {
      rxbuf := new RingBuffer();
      txbuf := new RingBuffer();
      dreie, threie := true, false;
      rxWaiters, txWaiters, rxWoken, txWoken := {}, {}, {}, {};
      steps := 0;
      new;
      model := State(rxbuf.Value(), txbuf.Value(), Ier(true, false), 0, Boundary,
                     map[], map[], map[], map[], [], [], [], [], map[]);
      OpenedInv(model);
    }

    /** The model takes the step a. */
    ghost method Did(a: Action)
      requires Reachable(model, steps) && Inv(model) && Enabled(model, a)
      modifies `model, `steps
      ensures InRange(old(model).rx) && InRange(old(model).tx) && model == Next(old(model), a)
      ensures Reachable(model, steps) && Inv(model)
    {
      hide Inv, Enabled, Next;
      BytesInRange(model) by { InvBytes(model); }
      NextKeeps(model, a);
      model := Next(model, a);
      steps := steps + 1;
    }

    /** uart_isr. */
    method Isr(input: Option<Byte>, ready: bool)
      requires Valid()
      modifies this, rxbuf`tpos, rxbuf.data, txbuf`hpos
      ensures Valid() && InRange(old(model).rx) && InRange(old(model).tx)
      ensures model == Uart.Isr(old(model), input, ready)
      ensures BytesOk(old(model))
      ensures if input.Some? && Contents(old(model.rx)) == []
              then rxWaiters == {} && rxWoken == old(rxWoken) + old(rxWaiters)
              else rxWaiters == old(rxWaiters) && rxWoken == old(rxWoken)
      ensures if ready && |Contents(old(model.tx))| == BUFSZ
              then txWaiters == {} && txWoken == old(txWoken) + old(txWaiters)
              else txWaiters == old(txWaiters) && txWoken == old(txWoken)
    {
      hide Inv, Reachable, Contents, Len, Concat, Next, Uart.Isr;
      InvBytes(model);
      InterruptWakes(model, input, ready);
      FullIs(model.rx);
      FullIs(model.tx);
      IsrRings(model, input, ready);
      NextIsIsr(model, input, ready);
      ReceiveInput(input);
      TransmitOutput(ready);
      Did(Interrupt(input, ready));
    }

    method ReceiveInput(input: Option<Byte>)
      requires Apart() && Rings.Valid(rxbuf.Value())
      modifies `dreie, `rxWaiters, `rxWoken, rxbuf`tpos, rxbuf.data
      ensures dreie == if input.Some? && Full(old(rxbuf.Value())) then false else old(dreie)
      ensures if input.Some? && Empty(old(rxbuf.Value())) then rxWaiters == {} && rxWoken == old(rxWoken) + old(rxWaiters)
              else rxWaiters == old(rxWaiters) && rxWoken == old(rxWoken)
      ensures rxbuf.Value() == if input.Some? && !Full(old(rxbuf.Value())) then Put(old(rxbuf.Value()), input.value)
                               else old(rxbuf.Value())
    {
      hide Contents, Len;
      if input.Some? {
        EmptyIs(rxbuf.Value());
        var full := rxbuf.IsFull();
        if !full {
          var empty := rxbuf.IsEmpty();
          if empty { rxWoken, rxWaiters := rxWoken + rxWaiters, {}; }       // broadcast
          rxbuf.Put(input.value);
        } else {
          dreie := false;
        }
      }
    }

    method TransmitOutput(ready: bool)
      requires Apart() && Rings.Valid(txbuf.Value())
      modifies `threie, `txWaiters, `txWoken, txbuf`hpos
      ensures threie == if ready && Empty(old(txbuf.Value())) then false else old(threie)
      ensures if ready && Full(old(txbuf.Value())) then txWaiters == {} && txWoken == old(txWoken) + old(txWaiters)
              else txWaiters == old(txWaiters) && txWoken == old(txWoken)
      ensures txbuf.Value() == if ready && !Empty(old(txbuf.Value())) then Get(old(txbuf.Value())) else old(txbuf.Value())
    {
      if ready {
        EmptyIs(txbuf.Value());
        var empty := txbuf.IsEmpty();
        if !empty {
          var full := txbuf.IsFull();
          if full { txWoken, txWaiters := txWoken + txWaiters, {}; }        // broadcast
          var c := txbuf.Get();
        } else {
          threie := false;
        }
      }
    }

    /** Interrupts may arrive here, any number of them. */
    method Interrupts()
      requires Valid()
      modifies this, rxbuf`tpos, rxbuf.data, txbuf`hpos
      ensures Valid() && SameThread(old(model), model)
    {
      hide Inv, Reachable;
      var k: nat := *;
      while k > 0
        invariant Valid() && SameThread(old(model), model)
        decreases k
      {
        var input: Option<Byte> := *;
        var ready: bool := *;
        InvBytes(model);
        IsrSameThread(model, input, ready);
        Isr(input, ready);
        k := k - 1;
      }
    }

    // --- uart_read ---

    /** The call with interrupts disabled, up to where it waits (None), and else to its return. */
    method Read(tid: Tid, n: nat) returns (r: Option<seq<Byte>>)
      requires Valid() && model.pc.Boundary? && Free(model, tid) && n > 0
      modifies this, rxbuf, rxbuf.data, txbuf`hpos
      ensures Valid() && model.pc.Boundary?
      ensures match r
              case None => Empty(old(model.rx)) && rxWaiters == old(rxWaiters) + {tid} && model.rx == old(model.rx)
              case Some(got) => 1 <= |got| <= n && model.returned == old(model.returned) + [got]
    {
      hide Inv, Reachable, Contents, Len, Next, MicroStep, EnterRead;
      InvBytes(model);
      EmptyIs(model.rx);
      EnterReadIs(model, tid, n);
      var empty := rxbuf.IsEmpty();
      if empty {
        rxWaiters := rxWaiters + {tid};
        Did(Action.Read(tid, n));
        return None;
      }
      Did(Action.Read(tid, n));
      var got := TakeBytes(n);
      return Some(got);
    }

    /** The loop of uart_read, and the store that enables interrupts. */
    method TakeBytes(n: nat) returns (got: seq<Byte>)
      requires Valid() && model.pc == ReadTest(n, []) && n > 0
      modifies this, rxbuf, rxbuf.data, txbuf`hpos
      ensures Valid() && model.pc.Boundary? && 1 <= |got| <= n && model.returned == old(model.returned) + [got]
    {
      hide Inv, Reachable, Contents, Len;
      got := [];
      while true
        invariant Valid() && model.pc == ReadTest(n, got) && |got| <= n && model.returned == old(model.returned)
        decreases n - |got|
      {
        Interrupts();
        InvBytes(model);
        EmptyIs(model.rx);
        var empty := rxbuf.IsEmpty();
        if empty || |got| >= n { break; }
        var hpos, c := LoadByte(n, got);
        Interrupts();
        StoreHeadPos(n, got, hpos, c);
        got := got + [c];
      }
      Did(Micro);
      ReadIerHas(model);
      Interrupts();
      EnableReceive(got);
    }

    method LoadByte(ghost n: nat, ghost got: seq<Byte>) returns (hpos: nat, c: Byte)
      requires Valid() && model.pc == ReadTest(n, got) && |got| < n && !Empty(model.rx)
      modifies `model, `steps
      ensures Valid() && model == old(model).(pc := ReadStore(n, got, hpos, c))
    {
      hide Inv, Reachable, Contents;
      InvBytes(model);
      hpos := rxbuf.hpos;
      c := rxbuf.data[hpos % BUFSZ];
      Did(Micro);
    }

    method StoreHeadPos(ghost n: nat, ghost got: seq<Byte>, hpos: nat, ghost c: Byte)
      requires Valid() && model.pc == ReadStore(n, got, hpos, c)
      modifies `model, `steps, rxbuf`hpos
      ensures Valid() && model.pc == ReadTest(n, got + [c]) && model.returned == old(model.returned)
    {
      hide Inv, Reachable, Contents;
      InvBytes(model);
      rxbuf.hpos := (hpos + 1) % TWO_16;
      Did(Micro);
    }

    /** ier |= IER_DREIE: a load, and a store that puts back the other bit as it was loaded. */
    method EnableReceive(ghost got: seq<Byte>)
      requires Valid() && model.pc == ReadIerLoad(got)
      modifies this, rxbuf`tpos, rxbuf.data, txbuf`hpos
      ensures Valid() && model.pc.Boundary? && model.returned == old(model.returned) + [got]
    {
      hide Inv, Reachable, Contents;
      InvBytes(model);
      var loaded := Ier(dreie, threie);
      Did(Micro);
      Interrupts();
      InvBytes(model);
      dreie, threie := true, loaded.threie;
      Did(Micro);
    }

    /** A woken reader checks again. */
    method ResumeRead(tid: Tid, n: nat) returns (r: Option<seq<Byte>>)
      requires Valid() && model.pc.Boundary? && tid in model.wokenReaders && model.wokenReaders[tid] == n
      modifies this, rxbuf, rxbuf.data, txbuf`hpos
      ensures Valid() && model.pc.Boundary?
      ensures match r
              case None => Empty(old(model.rx)) && rxWaiters == old(rxWaiters) + {tid} && model.rx == old(model.rx)
              case Some(got) => 1 <= |got| <= n && model.returned == old(model.returned) + [got]
    {
      hide Inv, Reachable, Contents, Len, Next, Concat;
      InvBytes(model);
      WokenAsks(model, tid);
      EmptyIs(model.rx);
      ResumeReadIs(model, tid);
      rxWoken := rxWoken - {tid};
      var empty := rxbuf.IsEmpty();
      if empty {
        rxWaiters := rxWaiters + {tid};
        Did(Action.ResumeRead(tid));
        return None;
      }
      Did(Action.ResumeRead(tid));
      var got := TakeBytes(n);
      return Some(got);
    }

    // --- uart_write ---

    /** The call up to where it waits (false) or returns. */
    method Write(tid: Tid, text: seq<Byte>) returns (done: bool)
      requires Valid() && model.pc.Boundary? && Free(model, tid)
      modifies this, rxbuf`tpos, rxbuf.data, txbuf, txbuf.data
      ensures Valid() && model.pc.Boundary?
      ensures if done then PutsOf(model.puts, tid) == text else tid in txWaiters && Full(model.tx)
    {
      hide Inv, Reachable, Contents, Len;
      InvBytes(model);
      Did(Action.Write(tid, text));
      done := WriteLoop(tid, text, 0);
    }

    /** The outer loop of uart_write from pos on. */
    method WriteLoop(tid: Tid, text: seq<Byte>, pos: nat) returns (done: bool)
      requires Valid() && model.pc == WriteEnter(Job(text, pos)) && model.tid == tid && pos <= |text|
      modifies this, rxbuf`tpos, rxbuf.data, txbuf, txbuf.data
      ensures Valid() && model.pc.Boundary?
      ensures if done then PutsOf(model.puts, tid) == text else tid in txWaiters && Full(model.tx)
    {
      hide Inv, Reachable, Contents, Len;
      var p := pos;
      while p < |text|
        invariant Valid() && p <= |text| && model.pc == WriteEnter(Job(text, p)) && model.tid == tid
        decreases |text| - p
      {
        Interrupts();
        var waits := WaitForSpace(tid, text, p);
        if waits { return false; }
        p := Burst(tid, text, p);
      }
      WriteReturns(model, steps);
      InvBytes(model);
      Did(Micro);
      return true;
    }

    /** With interrupts disabled: wait while the transmit buffer is full. */
    method WaitForSpace(tid: Tid, text: seq<Byte>, ghost p: nat) returns (waits: bool)
      requires Valid() && model.pc == WriteEnter(Job(text, p)) && model.tid == tid && p < |text|
      modifies `txWaiters, `model, `steps
      ensures Valid()
      ensures if waits then model.pc.Boundary? && tid in txWaiters && Full(model.tx)
              else model.pc == WriteTest(Job(text, p)) && model.tid == tid && !Full(model.tx)
    {
      hide Inv, Reachable, Contents, Len, Next, MicroStep;
      InvBytes(model);
      waits := txbuf.IsFull();
      if waits { txWaiters := txWaiters + {tid}; }
      EnterWriteIs(model);
      Did(Micro);
    }

    /** A woken writer checks again, and goes on where it was. */
    method ResumeWrite(tid: Tid, text: seq<Byte>, pos: nat) returns (done: bool)
      requires Valid() && model.pc.Boundary? && tid in model.wokenWriters && model.wokenWriters[tid] == Job(text, pos)
      modifies this, rxbuf`tpos, rxbuf.data, txbuf, txbuf.data
      ensures Valid() && model.pc.Boundary?
      ensures if done then PutsOf(model.puts, tid) == text else tid in txWaiters && Full(model.tx)
    {
      hide Inv, Reachable, Contents, Len, Next, Concat;
      InvBytes(model);
      WokenHas(model, tid);
      txWoken := txWoken - {tid};
      var full := txbuf.IsFull();
      if full { txWaiters := txWaiters + {tid}; }
      ResumeWriteIs(model, tid);
      Did(Action.ResumeWrite(tid));
      if full { return false; }
      var p := Burst(tid, text, pos);
      done := WriteLoop(tid, text, p);
    }

    /** The inner loop of uart_write, and the store that enables interrupts. */
    method Burst(ghost tid: Tid, text: seq<Byte>, pos: nat) returns (p: nat)
      requires Valid() && model.pc == WriteTest(Job(text, pos)) && pos < |text| && !Full(model.tx) && model.tid == tid
      modifies this, rxbuf`tpos, rxbuf.data, txbuf, txbuf.data
      ensures Valid() && model.tid == tid && pos < p <= |text| && model.pc == WriteEnter(Job(text, p))
    {
      hide Inv, Reachable, Contents, Len, Next, MicroStep;
      p := pos;
      InvBytes(model);
      while true
        invariant Valid() && pos <= p <= |text| && model.pc == WriteTest(Job(text, p)) && model.tid == tid
        invariant Rings.Valid(model.tx) && (p == pos ==> !Full(model.tx))
        decreases |text| - p
      {
        Interrupts();
        InvBytes(model);
        var full := txbuf.IsFull();
        if full || p >= |text| { break; }
        PutByte(text, p);
        p := p + 1;
      }
      LeaveLoopIs(model);
      Did(Micro);
      Interrupts();
      EnableTransmit(Job(text, p));
    }

    /** rbuf_put, with interrupts between its two stores. */
    method PutByte(text: seq<Byte>, p: nat)
      requires Valid() && model.pc == WriteTest(Job(text, p)) && p < |text| && !Full(model.tx)
      modifies this, rxbuf`tpos, rxbuf.data, txbuf, txbuf.data
      ensures Valid() && Rings.Valid(model.tx)
      ensures model.pc == WriteTest(Job(text, p + 1)) && model.tid == old(model.tid)
    {
      hide Inv, Reachable, Contents, Len;
      var tpos := StoreByte(text, p);
      Interrupts();
      StoreTailPos(text, p, tpos);
      InvBytes(model);
    }

    method StoreByte(text: seq<Byte>, p: nat) returns (tpos: nat)
      requires Valid() && model.pc == WriteTest(Job(text, p)) && p < |text| && !Full(model.tx)
      modifies `model, `steps, txbuf.data
      ensures Valid() && model.pc == WriteStore(Job(text, p), tpos) && model.tid == old(model.tid)
    {
      hide Inv, Reachable, Contents, Len;
      InvBytes(model);
      tpos := txbuf.tpos;
      txbuf.data[tpos % BUFSZ] := text[p];
      assert txbuf.data[..] == model.tx.data[tpos % BUFSZ := text[p]];
      Did(Micro);
    }

    method StoreTailPos(ghost text: seq<Byte>, ghost p: nat, tpos: nat)
      requires Valid() && model.pc == WriteStore(Job(text, p), tpos)
      modifies `model, `steps, txbuf`tpos
      ensures Valid() && model.pc == WriteTest(Job(text, p + 1)) && model.tid == old(model.tid)
    {
      hide Inv, Reachable, Contents, Len;
      InvBytes(model);
      txbuf.tpos := (tpos + 1) % TWO_16;
      Did(Micro);
    }

    /** ier |= IER_THREIE, likewise. */
    method EnableTransmit(ghost job: Job)
      requires Valid() && model.pc == WriteIerLoad(job)
      modifies this, rxbuf`tpos, rxbuf.data, txbuf`hpos
      ensures Valid() && model.pc == WriteEnter(job) && model.tid == old(model.tid)
    {
      hide Inv, Reachable, Contents;
      InvBytes(model);
      var loaded := Ier(dreie, threie);
      Did(Micro);
      Interrupts();
      InvBytes(model);
      dreie, threie := loaded.dreie, true;
      Did(Micro);
    }
  }

  /** An interrupt does not move the current thread, and does not fill the transmit buffer. */
  predicate SameThread(s: State, s': State) {
    && s'.pc == s.pc && s'.tid == s.tid && s'.returned == s.returned && s'.puts == s.puts
    && (Rings.Valid(s.tx) && !Full(s.tx) ==> Rings.Valid(s'.tx) && !Full(s'.tx))
  }

  lemma TransmitSameThread(s: State, ready: bool)
    requires InRange(s.tx)
    ensures SameThread(s, Transmit(s, ready))
  {
    hide Len;
    if Rings.Valid(s.tx) && !Empty(s.tx) { HeadStep(s.tx); }
  }

  lemma ReceivedSameThread(s: State, input: Option<Byte>)
    requires InRange(s.rx)
    ensures SameThread(s, Received(s, input))
  {
    hide Put, Len, Full, Rings.Valid;
  }

  lemma IsrSameThread(s: State, input: Option<Byte>, ready: bool)
    requires InRange(s.rx) && InRange(s.tx)
    ensures SameThread(s, Isr(s, input, ready))
  {
    hide Received, Len, Transmit, Full, Rings.Valid;
    ReceivedSameThread(s, input);
    TransmitSameThread(Received(s, input), ready);
  }

  lemma NextIsIsr(s: State, input: Option<Byte>, ready: bool)
    requires InRange(s.rx) && InRange(s.tx)
    ensures Next(s, Interrupt(input, ready)) == Uart.Isr(s, input, ready)
  {
    hide Uart.Isr;
  }

  lemma ReceivedRings(s: State, input: Option<Byte>)
    requires BytesOk(s) && InRange(s.rx)
    ensures var s' := Received(s, input);
      && s'.rx == (if input.Some? && !Full(s.rx) then Put(s.rx, input.value) else s.rx) && s'.tx == s.tx
      && s'.ier == Ier(if input.Some? && Full(s.rx) then false else s.ier.dreie, s.ier.threie)
  {
    hide BytesOk, Put, Full, InRange;
  }

  lemma TransmitRings(s: State, ready: bool)
    requires InRange(s.tx)
    ensures var s' := Transmit(s, ready);
      && s'.tx == (if ready && !Empty(s.tx) then Get(s.tx) else s.tx) && s'.rx == s.rx
      && s'.ier == Ier(s.ier.dreie, if ready && Empty(s.tx) then false else s.ier.threie)
  {
    hide Get, Full, LoadData, InRange;
  }

  /** What the routine does to the two buffers and the enables. */
  lemma IsrRings(s: State, input: Option<Byte>, ready: bool)
    requires BytesOk(s)
    ensures var s' := Uart.Isr(s, input, ready);
      && s'.rx == (if input.Some? && !Full(s.rx) then Put(s.rx, input.value) else s.rx)
      && s'.tx == (if ready && !Empty(s.tx) then Get(s.tx) else s.tx)
      && s'.ier == Ier(if input.Some? && Full(s.rx) then false else s.ier.dreie,
                       if ready && Empty(s.tx) then false else s.ier.threie)
  {
    hide Len, Contents, Concat, Put, Get, Full, Received, Transmit;
    ReceivedRings(s, input);
    TransmitRings(Received(s, input), ready);
  }

  lemma EnterReadIs(s: State, tid: Tid, n: nat)
    requires BytesOk(s) && Enabled(s, Action.Read(tid, n))
    ensures var s' := Next(s, Action.Read(tid, n));
            && s'.rx == s.rx && s'.tx == s.tx && s'.ier == s.ier && s'.writers == s.writers && s'.returned == s.returned
            && s'.wokenReaders == s.wokenReaders && s'.wokenWriters == s.wokenWriters
            && s'.readers.Keys == (if Empty(s.rx) then s.readers.Keys + {tid} else s.readers.Keys)
            && s'.pc == if Empty(s.rx) then Boundary else ReadTest(n, [])
  {
  }

  lemma EnterWriteIs(s: State)
    requires BytesOk(s) && s.pc.WriteEnter? && s.pc.job.pos < |s.pc.job.text|
    ensures var s' := Next(s, Micro);
            && s'.rx == s.rx && s'.tx == s.tx && s'.ier == s.ier && s'.readers == s.readers && s'.tid == s.tid
            && s'.wokenReaders == s.wokenReaders && s'.wokenWriters == s.wokenWriters
            && s'.writers.Keys == (if Full(s.tx) then s.writers.Keys + {s.tid} else s.writers.Keys)
            && s'.pc == if Full(s.tx) then Boundary else WriteTest(s.pc.job)
  {
  }

  lemma LeaveLoopIs(s: State)
    requires BytesOk(s) && s.pc.WriteTest? && (Full(s.tx) || s.pc.job.pos >= |s.pc.job.text|)
    ensures Next(s, Micro) == s.(pc := WriteIerLoad(s.pc.job))
  {
  }

  lemma ResumeReadIs(s: State, tid: Tid)
    requires BytesOk(s) && Enabled(s, Action.ResumeRead(tid))
    ensures var s' := Next(s, Action.ResumeRead(tid));
            && s'.rx == s.rx && s'.tx == s.tx && s'.ier == s.ier && s'.writers == s.writers && s'.returned == s.returned
            && s'.wokenReaders == s.wokenReaders - {tid} && s'.wokenWriters == s.wokenWriters
            && s'.readers.Keys == (if Empty(s.rx) then s.readers.Keys + {tid} else s.readers.Keys)
            && s'.pc == if Empty(s.rx) then Boundary else ReadTest(s.wokenReaders[tid], [])
  {
    hide Empty, Contents, Concat;
  }

  lemma ResumeWriteIs(s: State, tid: Tid)
    requires BytesOk(s) && Enabled(s, Action.ResumeWrite(tid))
    ensures var s' := Next(s, Action.ResumeWrite(tid));
            && s'.rx == s.rx && s'.tx == s.tx && s'.ier == s.ier && s'.readers == s.readers
            && s'.wokenReaders == s.wokenReaders && s'.wokenWriters == s.wokenWriters - {tid}
            && s'.writers.Keys == (if Full(s.tx) then s.writers.Keys + {tid} else s.writers.Keys)
            && (if Full(s.tx) then s'.pc.Boundary? else s'.tid == tid && s'.pc == WriteTest(s.wokenWriters[tid]))
  {
    hide Full, Contents, Concat;
  }

  lemma ReadIerHas(s: State)
    requires Inv(s) && s.pc.ReadIerLoad?
    ensures s.pc.got != []
  {
  }

  lemma WriteReturns(s: State, steps: nat)
    requires Reachable(s, steps) && s.pc.WriteEnter? && s.pc.job.pos >= |s.pc.job.text|
    ensures PutsOf(s.puts, s.tid) == s.pc.job.text
  {
    hide Reachable;
    CallsComplete(s, steps);
  }

  lemma WokenAsks(s: State, tid: Tid)
    requires Inv(s) && tid in s.wokenReaders
    ensures s.wokenReaders[tid] > 0
  {
  }

  lemma WokenHas(s: State, tid: Tid)
    requires Inv(s) && tid in s.wokenWriters
    ensures s.wokenWriters[tid].pos < |s.wokenWriters[tid].text|
  {
  }

  lemma InvBytes(s: State)
    requires Inv(s)
    ensures BytesOk(s)
  {
  }
}
