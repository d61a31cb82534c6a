/** The ring buffers of uart.c: 16-bit positions that wrap around over 64 bytes of data. */
module Rings {
  import opened Bytes

  const BUFSZ: nat := 64        // SERIAL_RBUFSZ
  const TWO_16: nat := 0x1_0000

  datatype Ring = Ring(hpos: nat, tpos: nat, data: seq<Byte>)

  predicate InRange(r: Ring) { r.hpos < TWO_16 && r.tpos < TWO_16 && |r.data| == BUFSZ }

  /** How many bytes are held: the difference of the positions as a uint16_t. */
  function Len(r: Ring): nat
    requires InRange(r)
  {
    (r.tpos + TWO_16 - r.hpos) % TWO_16
  }

  predicate Empty(r: Ring) { r.hpos == r.tpos }

  predicate Full(r: Ring)
    requires InRange(r)
  {
    Len(r) == BUFSZ
  }

  predicate Valid(r: Ring) { InRange(r) && Len(r) <= BUFSZ }

  function Contents(r: Ring): (s: seq<Byte>)
    requires Valid(r)
    ensures |s| == Len(r)
  {
    seq(Len(r), i requires 0 <= i < Len(r) => r.data[((r.hpos + i) % TWO_16) % BUFSZ])
  }

  /** A buffer after rbuf_init, which leaves the data alone. */
  predicate Cleared(r: Ring) { r.hpos == 0 && r.tpos == 0 && |r.data| == BUFSZ }

  // The two stores of rbuf_put, and the load and the store of rbuf_get.

  function StoreData(r: Ring, c: Byte): Ring
    requires InRange(r)
  {
    Ring(r.hpos, r.tpos, r.data[r.tpos % BUFSZ := c])
  }

  function StoreTail(r: Ring, tpos: nat): Ring { Ring(r.hpos, (tpos + 1) % TWO_16, r.data) }

  function LoadData(r: Ring): Byte
    requires InRange(r)
  {
    r.data[r.hpos % BUFSZ]
  }

  function StoreHead(r: Ring, hpos: nat): Ring { Ring((hpos + 1) % TWO_16, r.tpos, r.data) }

  function Put(r: Ring, c: Byte): Ring
    requires InRange(r)
  {
    StoreTail(StoreData(r, c), r.tpos)
  }

  function Get(r: Ring): Ring { StoreHead(r, r.hpos) }

  // --- arithmetic of the positions ---

  lemma SlotIs(hpos: nat, i: nat)
    requires hpos < TWO_16 && i <= BUFSZ
    ensures ((hpos + i) % TWO_16) % BUFSZ == (hpos + i) % BUFSZ
  {
    if hpos + i >= TWO_16 { assert (hpos + i) % TWO_16 == hpos + i - TWO_16; }
  }

  lemma TailIs(r: Ring)
    requires InRange(r)
    ensures r.tpos == (r.hpos + Len(r)) % TWO_16
    ensures Len(r) == if r.hpos <= r.tpos then r.tpos - r.hpos else r.tpos + TWO_16 - r.hpos
  {
  }

  lemma SlotsDiffer(x: nat, i: nat, j: nat)
    requires i < j < i + BUFSZ
    ensures (x + i) % BUFSZ != (x + j) % BUFSZ
  {
  }

  lemma EmptyIs(r: Ring)
    requires InRange(r)
    ensures Empty(r) <==> Len(r) == 0
    ensures Valid(r) ==> (Empty(r) <==> Contents(r) == [])
  {
    TailIs(r);
  }

  lemma ClearedIsEmpty(r: Ring)
    requires Cleared(r)
    ensures Valid(r) && Contents(r) == [] && Empty(r)
  {
  }

  lemma ContentsAt(r: Ring, i: nat)
    requires Valid(r) && i < Len(r)
    ensures Contents(r)[i] == r.data[(r.hpos + i) % BUFSZ]
  {
    SlotIs(r.hpos, i);
  }

  // --- the queue ---

  /** Storing the byte alone does not change the queue. */
  lemma StoreDataKeeps(r: Ring, c: Byte)
    requires Valid(r) && !Full(r)
    ensures var r' := StoreData(r, c); Valid(r') && Contents(r') == Contents(r) && Len(r') == Len(r)
    ensures StoreData(r, c).data[r.tpos % BUFSZ] == c
  {
    hide Contents, Len;
    TailIs(r);
    var r' := StoreData(r, c);
    assert Len(r') == Len(r) by { TailIs(r'); }
    SlotIs(r.hpos, Len(r));
    forall i | 0 <= i < Len(r) ensures Contents(r')[i] == Contents(r)[i] {
      ContentsAt(r, i);
      ContentsAt(r', i);
      SlotsDiffer(r.hpos, i, Len(r));
    }
  }

  /** Storing the index then adds the byte at the end. */
  lemma StoreTailAppends(r: Ring)
    requires Valid(r) && !Full(r)
    ensures var r' := StoreTail(r, r.tpos);
            Valid(r') && Len(r') == Len(r) + 1 && Contents(r') == Contents(r) + [r.data[r.tpos % BUFSZ]]
  {
    hide Contents, Len;
    var r' := StoreTail(r, r.tpos);
    TailIs(r);
    assert Len(r') == Len(r) + 1 by { TailStep(r); }
    SlotIs(r.hpos, Len(r));
    forall i | 0 <= i <= Len(r)
      ensures Contents(r')[i] == (Contents(r) + [r.data[r.tpos % BUFSZ]])[i]
    {
      ContentsAt(r', i);
      if i < Len(r) { ContentsAt(r, i); }
    }
  }

  lemma TailStep(r: Ring)
    requires Valid(r) && !Full(r)
    ensures Len(StoreTail(r, r.tpos)) == Len(r) + 1
  {
    TailIs(r);
    TailIs(StoreTail(r, r.tpos));
  }

  lemma PutAppends(r: Ring, c: Byte)
    requires Valid(r) && !Full(r)
    ensures Valid(Put(r, c)) && Contents(Put(r, c)) == Contents(r) + [c]
  {
    hide Contents, Len;
    StoreDataKeeps(r, c);
    StoreTailAppends(StoreData(r, c));
  }

  lemma HeadStep(r: Ring)
    requires Valid(r) && !Empty(r)
    ensures Len(r) >= 1 && InRange(Get(r)) && Len(Get(r)) == Len(r) - 1
  {
    TailIs(r);
    TailIs(Get(r));
  }

  lemma GetTakesFirst(r: Ring)
    requires Valid(r) && !Empty(r)
    ensures Valid(Get(r)) && Contents(r) == [LoadData(r)] + Contents(Get(r))
  {
    hide Contents, Len;
    HeadStep(r);
    ContentsAt(r, 0);
    forall i | 1 <= i < Len(r) ensures Contents(r)[i] == Contents(Get(r))[i - 1] {
      ContentsAt(r, i);
      ContentsAt(Get(r), i - 1);
      SlotIs(r.hpos, 1);
      HeadSlot(r.hpos, i);
    }
  }

  lemma HeadSlot(h: nat, i: nat)
    requires h < TWO_16 && 1 <= i <= BUFSZ
    ensures (h + i) % BUFSZ == ((h + 1) % TWO_16 + i - 1) % BUFSZ
  {
    if h + 1 >= TWO_16 { assert (h + 1) % TWO_16 == h + 1 - TWO_16; }
  }
}
