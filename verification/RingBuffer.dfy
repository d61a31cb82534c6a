/** The functions rbuf_* of uart.c on a buffer that they update in place. */
module RingBuffers {
  import opened Bytes
  import opened Rings

  class RingBuffer {
    var hpos: nat
    var tpos: nat
    const data: array<Byte>

    ghost function Value(): Ring
      reads this, data
    {
      Ring(hpos, tpos, data[..])
    }

    ghost predicate Ok()
      reads this, data
    {
      Valid(Value())
    }

    constructor ()
      ensures Ok() && Cleared(Value()) && Contents(Value()) == [] && fresh(data)
    {
      hpos, tpos := 0, 0;
      data := new Byte[BUFSZ];
    }

    method Init()
      requires Ok()
      modifies `hpos, `tpos
      ensures Ok() && Cleared(Value()) && Contents(Value()) == []
    {
      hpos, tpos := 0, 0;
    }

    method IsEmpty() returns (b: bool)
      requires Ok()
      ensures b <==> Contents(Value()) == []
    {
      EmptyIs(Value());
      return hpos == tpos;
    }

    method IsFull() returns (b: bool)
      requires Ok()
      ensures b <==> |Contents(Value())| == BUFSZ
    {
      return (tpos + TWO_16 - hpos) % TWO_16 == BUFSZ;
    }

    method Put(c: Byte)
      requires Ok() && |Contents(Value())| < BUFSZ
      modifies `tpos, data
      ensures Ok() && Contents(Value()) == old(Contents(Value())) + [c] && Value() == Rings.Put(old(Value()), c)
    {
      PutAppends(Value(), c);
      ghost var r := Value();
      var t := tpos;
      data[t % BUFSZ] := c;
      assert data[..] == r.data[t % BUFSZ := c];
      tpos := (t + 1) % TWO_16;
    }

    method Get() returns (c: Byte)
      requires Ok() && Contents(Value()) != []
      modifies `hpos
      ensures Ok() && old(Contents(Value())) == [c] + Contents(Value()) && Value() == Rings.Get(old(Value()))
    {
      EmptyIs(Value());
      GetTakesFirst(Value());
      var h := hpos;
      c := data[h % BUFSZ];
      hpos := (h + 1) % TWO_16;
    }
  }
}
