/** io_term: CRLF normalisation of a terminal's input and output. The one-bit machines of the
    comments in io.c are the specification; the methods are the streaming code. */
module Terminal {
  import opened Common

  const CR: char := '\r'
  const LF: char := '\n'

  // --- the input machine ---

  function ReadNext(cr: bool, ch: char): bool { ch == CR }

  function ReadOut(cr: bool, ch: char): string {
    if ch == CR then [LF] else if cr && ch == LF then [] else [ch]
  }

  function ReadState(cr: bool, s: string): bool {
    if s == [] then cr else ReadNext(ReadState(cr, s[..|s| - 1]), s[|s| - 1])
  }

  function ReadNorm(cr: bool, s: string): string {
    if s == [] then []
    else ReadNorm(cr, s[..|s| - 1]) + ReadOut(ReadState(cr, s[..|s| - 1]), s[|s| - 1])
  }

  // --- the output machine ---

  function WriteNext(cr: bool, ch: char): bool { ch == CR }

  function WriteOut(cr: bool, ch: char): string {
    if ch == CR then [CR, LF]
    else if ch == LF then (if cr then [] else [CR, LF])
    else [ch]
  }

  function WriteState(cr: bool, s: string): bool {
    if s == [] then cr else WriteNext(WriteState(cr, s[..|s| - 1]), s[|s| - 1])
  }

  function WriteNorm(cr: bool, s: string): string {
    if s == [] then []
    else WriteNorm(cr, s[..|s| - 1]) + WriteOut(WriteState(cr, s[..|s| - 1]), s[|s| - 1])
  }

  // --- any split into calls ---

  lemma ReadAppend(cr: bool, s: string, ch: char)
    ensures ReadNorm(cr, s + [ch]) == ReadNorm(cr, s) + ReadOut(ReadState(cr, s), ch)
    ensures ReadState(cr, s + [ch]) == ReadNext(ReadState(cr, s), ch)
  {
    hide ReadOut, ReadNext;
    assert (s + [ch])[..|s|] == s;
  }

  lemma WriteAppend(cr: bool, s: string, ch: char)
    ensures WriteNorm(cr, s + [ch]) == WriteNorm(cr, s) + WriteOut(WriteState(cr, s), ch)
    ensures WriteState(cr, s + [ch]) == WriteNext(WriteState(cr, s), ch)
  {
    hide WriteOut, WriteNext;
    assert (s + [ch])[..|s|] == s;
  }

  lemma {:induction false} ReadChunks(cr: bool, s: string, t: string)
    ensures ReadNorm(cr, s + t) == ReadNorm(cr, s) + ReadNorm(ReadState(cr, s), t)
    ensures ReadState(cr, s + t) == ReadState(ReadState(cr, s), t)
  {
    hide ReadOut, ReadNext, ReadNorm, ReadState;
    ReadNothing();
    if t == [] {
      assert s + t == s;
    } else {
      var front, ch := t[..|t| - 1], t[|t| - 1];
      ReadChunks(cr, s, front);
      assert t == front + [ch] && s + t == (s + front) + [ch];
      ReadAppend(cr, s + front, ch);
      ReadAppend(ReadState(cr, s), front, ch);
    }
  }

  lemma {:induction false} WriteChunks(cr: bool, s: string, t: string)
    ensures WriteNorm(cr, s + t) == WriteNorm(cr, s) + WriteNorm(WriteState(cr, s), t)
    ensures WriteState(cr, s + t) == WriteState(WriteState(cr, s), t)
  {
    hide WriteOut, WriteNext, WriteNorm, WriteState;
    WriteNothing();
    if t == [] {
      assert s + t == s;
    } else {
      var front, ch := t[..|t| - 1], t[|t| - 1];
      WriteChunks(cr, s, front);
      assert t == front + [ch] && s + t == (s + front) + [ch];
      WriteAppend(cr, s + front, ch);
      WriteAppend(WriteState(cr, s), front, ch);
    }
  }

  lemma WriteNothing()
    ensures forall cr :: WriteNorm(cr, []) == [] && WriteState(cr, []) == cr
  {
  }

  lemma ReadNothing()
    ensures forall cr :: ReadNorm(cr, []) == [] && ReadState(cr, []) == cr
  {
  }

  /** What successive writes of the texts put on the wire. */
  function WriteCalls(cr: bool, texts: seq<string>): string {
    if texts == [] then []
    else
      var n := |texts| - 1;
      WriteCalls(cr, texts[..n]) + WriteNorm(WriteState(cr, Concat(texts[..n])), texts[n])
  }

  lemma {:induction false} AnySplit(cr: bool, texts: seq<string>)
    ensures WriteCalls(cr, texts) == WriteNorm(cr, Concat(texts))
  {
    if texts != [] {
      var n := |texts| - 1;
      AnySplit(cr, texts[..n]);
      WriteChunks(cr, Concat(texts[..n]), texts[n]);
    }
  }

  // --- what is on the wire ---

  /** Every CR is followed by an LF and every LF preceded by a CR. */
  predicate Paired(w: string) {
    && (forall i :: 0 <= i < |w| && w[i] == CR ==> i + 1 < |w| && w[i + 1] == LF)
    && (forall i :: 0 <= i < |w| && w[i] == LF ==> i > 0 && w[i - 1] == CR)
  }

  lemma {:induction false} WireIsPaired(cr: bool, s: string)
    ensures Paired(WriteNorm(cr, s))
  {
    if s != [] {
      WireIsPaired(cr, s[..|s| - 1]);
    }
  }

  lemma {:induction false} PairedIsFixed(s: string)
    requires Paired(s)
    ensures WriteNorm(false, s) == s && !WriteState(false, s)
  {
    hide WriteNorm, WriteState;
    if s == [] { WriteNothing(); }
    if s != [] {
      var n := |s| - 1;
      var front := s[..n];
      assert s == front + [s[n]];
      WriteAppend(false, front, s[n]);
      if s[n] == LF {
        var start := s[..n - 1];
        assert front == start + [CR];
        assert s[n - 1] == CR;
        forall i | 0 <= i < |start| && start[i] == CR ensures i + 1 < |start| && start[i + 1] == LF {
          assert s[i] == CR && s[i + 1] == LF;
        }
        forall i | 0 <= i < |start| && start[i] == LF ensures i > 0 && start[i - 1] == CR {
          assert s[i] == LF;
        }
        PairedIsFixed(start);
        WriteAppend(false, start, CR);
      } else {
        assert forall i :: 0 <= i < |front| ==> front[i] == s[i];
        PairedIsFixed(front);
      }
    }
  }

  /** Output normalisation changes nothing exactly when the text is normalised already. */
  lemma FixedIffPaired(s: string)
    ensures WriteNorm(false, s) == s <==> Paired(s)
  {
    WireIsPaired(false, s);
    if Paired(s) { PairedIsFixed(s); }
  }

  // --- round trip ---

  /** Both machines remember the same bit, and a reader of the wire is never between CR and LF. */
  lemma {:induction false} ReadAfterWrite(cr: bool, s: string)
    ensures ReadNorm(false, WriteNorm(cr, s)) == ReadNorm(cr, s)
    ensures !ReadState(false, WriteNorm(cr, s)) && ReadState(cr, s) == WriteState(cr, s)
  {
    if s != [] {
      var front, ch := s[..|s| - 1], s[|s| - 1];
      ReadAfterWrite(cr, front);
      var out := WriteOut(WriteState(cr, front), ch);
      ReadChunks(false, WriteNorm(cr, front), out);
      ReadOneChar(WriteState(cr, front), ch);
    }
  }

  lemma ReadOneChar(cr: bool, ch: char)
    ensures ReadNorm(false, WriteOut(cr, ch)) == ReadOut(cr, ch) && !ReadState(false, WriteOut(cr, ch))
  {
    hide ReadNorm, ReadState;
    ReadNothing();
    var out := WriteOut(cr, ch);
    if out != [] {
      ReadAppend(false, [], out[0]);
      assert [] + [out[0]] == [out[0]];
      ReadAppend(false, [out[0]], LF);
      assert ch == CR || ch == LF ==> out == [CR] + [LF];
    }
  }

  /** Only a lone LF after a CR reads as nothing. */
  lemma EmptyRead(cr: bool, s: string)
    requires s != []
    ensures ReadNorm(cr, s) == [] <==> cr && s == [LF]
    ensures ReadNorm(cr, s) == [] ==> !ReadState(cr, s)
  {
    hide ReadNorm, ReadState;
    ReadNothing();
    assert s == [s[0]] + s[1..];
    ReadChunks(cr, [s[0]], s[1..]);
    assert [] + [s[0]] == [s[0]];
    ReadAppend(cr, [], s[0]);
    if |s| > 1 {
      assert s[1..] == [s[1]] + s[2..];
      ReadChunks(ReadState(cr, [s[0]]), [s[1]], s[2..]);
      assert [] + [s[1]] == [s[1]];
      ReadAppend(ReadState(cr, [s[0]]), [], s[1]);
    }
  }

  // --- what the machines are for: line endings ---

  /** The text after the line ending, or other character, that it begins with. */
  function Rest(s: string): string
    requires s != []
  {
    if s[0] == CR && |s| > 1 && s[1] == LF then s[2..] else s[1..]
  }

  /** Each line ending, CR LF, CR or LF, becomes `ending`; every other character stays. */
  function Endings(s: string, ending: string): string {
    if s == [] then [] else (if s[0] == CR || s[0] == LF then ending else [s[0]]) + Endings(Rest(s), ending)
  }

  /** After a CR, an LF belongs to the line ending before. */
  function AfterCr(cr: bool, s: string): string { if cr && s != [] && s[0] == LF then s[1..] else s }

  lemma ReadFirst(cr: bool, s: string)
    requires s != []
    ensures ReadNorm(cr, s) == ReadOut(cr, s[0]) + ReadNorm(s[0] == CR, s[1..])
  {
    hide ReadNorm, ReadState;
    ReadNothing();
    assert s == [s[0]] + s[1..];
    ReadChunks(cr, [s[0]], s[1..]);
    assert [] + [s[0]] == [s[0]];
    ReadAppend(cr, [], s[0]);
  }

  lemma WriteFirst(cr: bool, s: string)
    requires s != []
    ensures WriteNorm(cr, s) == WriteOut(cr, s[0]) + WriteNorm(s[0] == CR, s[1..])
  {
    hide WriteNorm, WriteState;
    WriteNothing();
    assert s == [s[0]] + s[1..];
    WriteChunks(cr, [s[0]], s[1..]);
    assert [] + [s[0]] == [s[0]];
    WriteAppend(cr, [], s[0]);
  }

  /** The input machine turns every line ending into LF. */
  lemma {:induction false} ReadIs(cr: bool, s: string)
    ensures ReadNorm(cr, s) == Endings(AfterCr(cr, s), [LF])
    decreases |s|
  {
    hide ReadNorm;
    ReadNothing();
    if s != [] {
      ReadFirst(cr, s);
      ReadIs(s[0] == CR, s[1..]);
    }
  }

  /** The output machine turns every line ending into CR LF. */
  lemma {:induction false} WriteIs(cr: bool, s: string)
    ensures WriteNorm(cr, s) == Endings(AfterCr(cr, s), [CR, LF])
    decreases |s|
  {
    hide WriteNorm;
    WriteNothing();
    if s != [] {
      WriteFirst(cr, s);
      WriteIs(s[0] == CR, s[1..]);
    }
  }

  /** A text without its line endings. */
  function Plain(s: string): string {
    if s == [] then [] else (if s[0] == CR || s[0] == LF then [] else [s[0]]) + Plain(s[1..])
  }

  lemma {:induction false} PlainAppend(s: string, t: string)
    ensures Plain(s + t) == Plain(s) + Plain(t)
  {
    if s == [] {
      assert s + t == t;
    } else {
      assert (s + t)[1..] == s[1..] + t;
      PlainAppend(s[1..], t);
    }
  }

  /** Neither machine loses, changes or moves a character that is not part of a line ending. */
  lemma {:induction false} PlainIsKept(cr: bool, s: string)
    ensures Plain(ReadNorm(cr, s)) == Plain(s) && Plain(WriteNorm(cr, s)) == Plain(s)
    decreases |s|
  {
    hide ReadNorm, WriteNorm;
    ReadNothing();
    WriteNothing();
    if s != [] {
      ReadFirst(cr, s);
      WriteFirst(cr, s);
      PlainIsKept(s[0] == CR, s[1..]);
      PlainAppend(ReadOut(cr, s[0]), ReadNorm(s[0] == CR, s[1..]));
      PlainAppend(WriteOut(cr, s[0]), WriteNorm(s[0] == CR, s[1..]));
      PlainOut(cr, s[0]);
    }
  }

  lemma PlainOut(cr: bool, ch: char)
    ensures Plain(ReadOut(cr, ch)) == Plain(WriteOut(cr, ch)) == if ch == CR || ch == LF then [] else [ch]
  {
    assert WriteOut(cr, ch) == [CR, LF] ==> WriteOut(cr, ch)[1..] == [LF];
  }

  /** What is read has no CR, and a text without CR is read as it came, but for an LF that belongs to
      the ending before it. */
  lemma {:induction false} ReadHasNoCr(cr: bool, s: string)
    ensures CR !in ReadNorm(cr, s)
    ensures CR !in s ==> ReadNorm(cr, s) == AfterCr(cr, s)
    decreases |s|
  {
    hide ReadNorm;
    ReadNothing();
    if s != [] {
      ReadFirst(cr, s);
      ReadHasNoCr(s[0] == CR, s[1..]);
      assert s == [s[0]] + s[1..];
    }
  }

  /** What a reader of the raw text gets: no CR, every other character that is not part of a line
      ending in its place, and a text without CR as it came. */
  predicate ReadsAs(cr: bool, text: string, got: string) {
    && CR !in got && Plain(got) == Plain(text)
    && (CR !in text && !(cr && text != [] && text[0] == LF) ==> got == text)
  }

  lemma ReadNormReads(cr: bool, s: string)
    ensures ReadsAs(cr, s, ReadNorm(cr, s))
  {
    hide ReadNorm, Plain;
    PlainIsKept(cr, s);
    ReadHasNoCr(cr, s);
  }

  // --- iowrite on top of a terminal ---

  /** A terminal does not count the LF that it skips at the start of a text. */
  predicate SkipsFirst(cr: bool, s: string) { cr && s != [] && s[0] == LF }

  /** What iowrite puts on the wire a second time: it goes on until the count is complete. */
  function Again(cr: bool, s: string): string {
    if SkipsFirst(cr, s) && |s| >= 2 then WriteNorm(WriteState(cr, s), s[|s| - 1..]) else []
  }

  /** One character is always counted, after a text that it ends. */
  lemma LastIsCounted(cr: bool, s: string)
    requires s != []
    ensures !SkipsFirst(WriteState(cr, s), s[|s| - 1..])
    ensures WriteNorm(WriteState(cr, s), s[|s| - 1..]) != []
    ensures WriteState(WriteState(cr, s), s[|s| - 1..]) == WriteState(cr, s)
  {
    var last := s[|s| - 1..];
    assert last[..|last| - 1] == [];
  }

  /** A text goes out once if and only if it does not begin with an LF that is skipped and go on
      after that. */
  lemma WrittenOnceIff(cr: bool, s: string)
    ensures Again(cr, s) == [] <==> !(cr && |s| >= 2 && s[0] == LF)
  {
    if s != [] { LastIsCounted(cr, s); }
  }

  /** For example, x is written twice when a text that ended in CR is followed by LF and x. */
  lemma TwiceWritten()
    ensures WriteNorm(true, [LF, 'x']) == "x" && Again(true, [LF, 'x']) == "x"
  {
    var s := [LF, 'x'];
    assert s[..1] == [LF] && s[1..] == "x" && [LF][..0] == [] && "x"[..0] == [];
    assert WriteNorm(true, []) == [];
    assert WriteNorm(true, [LF]) == [];
    assert !WriteState(true, s) && WriteNorm(false, []) == [];
    assert WriteNorm(false, "x") == "x";
  }

  // --- ioterm_read and ioterm_write over a raw I/O object ---

  /** A raw terminal: an endless input of which a read takes at least one character, and a wire
      that accepts everything written, in one or several transfers. */
  class Raw {
    const input: nat -> char
    var taken: nat
    var wire: string

    constructor (input: nat -> char)
      ensures this.input == input && taken == 0 && wire == []
    {
      this.input, taken, wire := input, 0, [];
    }

    function Slice(from: nat, to: nat): (s: string)
      requires from <= to
      ensures |s| == to - from && forall i :: 0 <= i < |s| ==> s[i] == input(from + i)
    {
      seq(to - from, i requires 0 <= i => input(from + i))
    }

    /** How many characters are ready is the device's choice. */
    method Read(buf: array<char>, len: nat) returns (cnt: nat)
      requires 1 <= len <= buf.Length
      modifies `taken, buf
      ensures 1 <= cnt <= len && taken == old(taken) + cnt
      ensures buf[..cnt] == Slice(old(taken), taken)
    {
      cnt :| 1 <= cnt <= len;
      forall i | 0 <= i < cnt { buf[i] := input(taken + i); }
      taken := taken + cnt;
      assert forall i :: 0 <= i < cnt ==> buf[i] == input(old(taken) + i);
    }

    /** One transfer: at least one character, not necessarily all. */
    method Transfer(data: string) returns (cnt: nat)
      modifies `wire
      ensures cnt <= |data| && (data != [] ==> cnt > 0)
      ensures wire == old(wire) + data[..cnt]
    {
      if data == [] { return 0; }
      cnt :| 1 <= cnt <= |data|;
      wire := wire + data[..cnt];
    }

    /** iowrite: transfers until everything is written. */
    method Write(data: string) returns (acc: nat)
      modifies `wire
      ensures acc == |data| && wire == old(wire) + data
    {
      acc := 0;
      while acc < |data|
        invariant acc <= |data| && wire == old(wire) + data[..acc]
      {
        var cnt := Transfer(data[acc..]);
        assert data[..acc] + data[acc..][..cnt] == data[..acc + cnt];
        acc := acc + cnt;
      }
      assert data[..acc] == data;
    }
  }

  class Term {
    const raw: Raw
    var crOut: bool
    var crIn: bool

    constructor (raw: Raw)
      ensures this.raw == raw && !crOut && !crIn
    {
      this.raw, crOut, crIn := raw, false, false;
    }

    /** ioterm_read: the buffer is filled raw and compacted in place; at most two raw reads. */
    method Read(buf: array<char>, len: nat) returns (cnt: nat, ghost rounds: nat)
      requires 1 <= len <= buf.Length
      modifies `crIn, raw`taken, buf
      ensures 1 <= rounds <= 2
      ensures 1 <= cnt <= len && old(raw.taken) < raw.taken
      ensures buf[..cnt] == ReadNorm(old(crIn), raw.Slice(old(raw.taken), raw.taken))
      ensures crIn == ReadState(old(crIn), raw.Slice(old(raw.taken), raw.taken))
      ensures ReadsAs(old(crIn), raw.Slice(old(raw.taken), raw.taken), buf[..cnt])
    {
      hide ReadNorm, ReadState, ReadsAs;
      ghost var cr, start := crIn, raw.taken;
      ReadNothing();
      cnt, rounds := 0, 0;
      var first := true;
      while first || cnt == 0
        invariant (first <==> rounds == 0) && (first ==> cnt == 0)
        invariant rounds <= 2 && cnt <= len && start <= raw.taken && (!first ==> start < raw.taken)
        invariant cnt == 0 && rounds > 0 ==> !crIn
        invariant rounds == 2 ==> cnt > 0
        invariant buf[..cnt] == ReadNorm(cr, raw.Slice(start, raw.taken))
        invariant crIn == ReadState(cr, raw.Slice(start, raw.taken))
        decreases 2 - rounds
      {
        assert buf[..0] == [];
        cnt := Refill(buf, len, cr, start);
        first, rounds := false, rounds + 1;
      }
      ReadNormReads(cr, raw.Slice(start, raw.taken));
    }

    /** One raw read, when all that was read since start was normalised to nothing. */
    method Refill(buf: array<char>, len: nat, ghost cr: bool, ghost start: nat) returns (cnt: nat)
      requires 1 <= len <= buf.Length && start <= raw.taken
      requires ReadNorm(cr, raw.Slice(start, raw.taken)) == [] && crIn == ReadState(cr, raw.Slice(start, raw.taken))
      modifies `crIn, raw`taken, buf
      ensures cnt <= len && old(raw.taken) < raw.taken && (cnt == 0 ==> old(crIn) && !crIn)
      ensures buf[..cnt] == ReadNorm(cr, raw.Slice(start, raw.taken))
      ensures crIn == ReadState(cr, raw.Slice(start, raw.taken))
    {
      hide ReadNorm, ReadState;
      ghost var before, seen := crIn, raw.Slice(start, raw.taken);
      var filled := raw.Read(buf, len);
      ghost var chunk := buf[..filled];
      assert seen + chunk == raw.Slice(start, raw.taken);
      cnt := Compact(buf, filled);
      ReadChunks(cr, seen, chunk);
      EmptyRead(before, chunk);
    }

    /** The inner loop: rp reads ahead of wp, which never passes it. */
    method Compact(buf: array<char>, cnt: nat) returns (wp: nat)
      requires cnt <= buf.Length
      modifies `crIn, buf
      ensures wp <= cnt
      ensures buf[..wp] == ReadNorm(old(crIn), old(buf[..cnt])) && crIn == ReadState(old(crIn), old(buf[..cnt]))
      ensures buf[..wp] == Endings(AfterCr(old(crIn), old(buf[..cnt])), [LF])
    {
      hide ReadNorm, ReadState, Endings, AfterCr;
      ghost var chunk := buf[..cnt];
      wp := 0;
      var rp := 0;
      ReadNothing();
      while rp < cnt
        invariant wp <= rp <= cnt
        invariant buf[..wp] == ReadNorm(old(crIn), chunk[..rp]) && crIn == ReadState(old(crIn), chunk[..rp])
        invariant forall i :: rp <= i < cnt ==> buf[i] == chunk[i]
      {
        OneMoreRead(old(crIn), chunk, rp);
        var ch := buf[rp];
        rp := rp + 1;
        if crIn {
          if ch == CR {
            buf[wp] := LF;
            wp := wp + 1;
          } else if ch == LF {
            crIn := false;
          } else {
            crIn := false;
            buf[wp] := ch;
            wp := wp + 1;
          }
        } else {
          if ch == CR {
            crIn := true;
            buf[wp] := LF;
            wp := wp + 1;
          } else {
            buf[wp] := ch;
            wp := wp + 1;
          }
        }
      }
      assert chunk[..rp] == chunk;
      ReadIs(old(crIn), chunk);
    }

    /** ioterm_write: text that needs no change is gathered between wp and rp and written in one go.
        A skipped LF is not counted. */
    method Write(buf: string) returns (acc: nat)
      modifies `crOut, raw`wire
      ensures raw.wire == old(raw.wire) + WriteNorm(old(crOut), buf)
      ensures raw.wire == old(raw.wire) + Endings(AfterCr(old(crOut), buf), [CR, LF])
      ensures crOut == WriteState(old(crOut), buf)
      ensures acc == |buf| - if old(crOut) && buf != [] && buf[0] == LF then 1 else 0
    {
      hide WriteNorm, WriteState, Sent, Endings, AfterCr;
      WriteIs(crOut, buf);
      ghost var start := raw.wire;
      var wp, rp := 0, 0;
      acc := 0;
      WriteNothing();
      SentNothing(raw.wire, buf, 0);
      while rp < |buf|
        invariant 0 <= wp <= rp <= |buf|
        invariant crOut && 0 < rp < |buf| ==> buf[rp] != LF
        invariant Sent(raw.wire, buf, wp, rp) == start + WriteNorm(old(crOut), buf[..rp])
        invariant crOut == WriteState(old(crOut), buf[..rp])
        invariant crOut ==> wp == rp
        invariant acc == wp - if rp > 0 && old(crOut) && buf[0] == LF then 1 else 0
      {
        var ch := buf[rp];
        OneMore(start, old(crOut), buf, rp);
        SentOneMore(raw.wire, buf, wp, rp);
        rp := rp + 1;
        if ch == CR {
          if rp < |buf| && buf[rp] == LF {
            OneMore(start, old(crOut), buf, rp);
            SentOneMore(raw.wire, buf, wp, rp);
            crOut := false;
            rp := rp + 1;
          } else {
            SentFlush(raw.wire, buf, wp, rp, [LF]);
            var cnt := raw.Write(buf[wp..rp]);
            acc := acc + cnt;
            wp := wp + cnt;
            cnt := raw.Write([LF]);
            crOut := true;
          }
        } else if ch == LF {
          if crOut {
            SentNothing(raw.wire, buf, wp);
            SentNothing(raw.wire, buf, rp);
            crOut := false;
            wp := wp + 1;
          } else {
            SentFlush(raw.wire, buf, wp, rp - 1, [CR]);
            if wp != rp - 1 {
              var cnt := raw.Write(buf[wp..rp - 1]);
              acc := acc + cnt;
              wp := wp + cnt;
            }
            var cnt := raw.Write([CR]);
            SentOneMore(raw.wire, buf, wp, rp - 1);
            crOut := false;
          }
        } else {
          crOut := false;
        }
      }
      assert buf[..rp] == buf;
      SentFlush(raw.wire, buf, wp, rp, []);
      if rp != wp {
        var cnt := raw.Write(buf[wp..rp]);
        acc := acc + cnt;
      }
    }

    /** iowrite on this terminal: writes of what is not counted yet, until a write counts nothing. */
    method IoWrite(buf: string) returns (acc: nat)
      modifies `crOut, raw`wire
      ensures raw.wire == old(raw.wire) + WriteNorm(old(crOut), buf) + Again(old(crOut), buf)
      ensures acc == if old(crOut) && buf == [LF] then 0 else |buf|
      ensures crOut == WriteState(old(crOut), buf)
    {
      hide WriteNorm, WriteState;
      acc := 0;
      if buf == [] {
        WriteNothing();
        return;
      }
      LastIsCounted(crOut, buf);
      ghost var cr, start := crOut, raw.wire;
      while acc < |buf|
        invariant acc <= |buf|
        invariant acc == 0 ==> crOut == cr && raw.wire == start
        invariant acc > 0 ==> crOut == WriteState(cr, buf) && !(cr && buf == [LF])
        invariant 0 < acc < |buf| ==> SkipsFirst(cr, buf) && acc == |buf| - 1
        invariant 0 < acc < |buf| ==> raw.wire == start + WriteNorm(cr, buf)
        invariant acc == |buf| ==> raw.wire == start + WriteNorm(cr, buf) + Again(cr, buf)
        decreases |buf| - acc
      {
        assert buf[0..] == buf;
        var cnt := Write(buf[acc..]);
        if cnt == 0 {
          assert buf == [LF];
          return;
        }
        acc := acc + cnt;
      }
    }
  }

  /** The wire as it will be once the gathered text is written. */
  function Sent(wire: string, buf: string, wp: nat, rp: nat): string
    requires wp <= rp <= |buf|
  {
    wire + buf[wp..rp]
  }

  lemma SentNothing(wire: string, buf: string, wp: nat)
    requires wp <= |buf|
    ensures Sent(wire, buf, wp, wp) == wire
  {
  }

  lemma SentOneMore(wire: string, buf: string, wp: nat, rp: nat)
    requires wp <= rp < |buf|
    ensures Sent(wire, buf, wp, rp + 1) == Sent(wire, buf, wp, rp) + [buf[rp]]
  {
  }

  lemma SentFlush(wire: string, buf: string, wp: nat, rp: nat, extra: string)
    requires wp <= rp <= |buf|
    ensures wire + buf[wp..rp] == Sent(wire, buf, wp, rp)
    ensures Sent(wire + buf[wp..rp] + extra, buf, rp, rp) == Sent(wire, buf, wp, rp) + extra
    ensures wp == rp ==> wire + buf[wp..rp] == wire
  {
  }

  lemma OneMoreRead(cr: bool, buf: string, i: nat)
    requires i < |buf|
    ensures ReadNorm(cr, buf[..i + 1]) == ReadNorm(cr, buf[..i]) + ReadOut(ReadState(cr, buf[..i]), buf[i])
    ensures ReadState(cr, buf[..i + 1]) == ReadNext(ReadState(cr, buf[..i]), buf[i])
  {
    assert buf[..i + 1] == buf[..i] + [buf[i]];
    ReadAppend(cr, buf[..i], buf[i]);
  }

  lemma OneMore(start: string, cr: bool, buf: string, i: nat)
    requires i < |buf|
    ensures start + WriteNorm(cr, buf[..i + 1]) ==
            start + WriteNorm(cr, buf[..i]) + WriteOut(WriteState(cr, buf[..i]), buf[i])
    ensures buf[i] == CR ==>
      start + WriteNorm(cr, buf[..i + 1]) == start + WriteNorm(cr, buf[..i]) + [CR] + [LF]
    ensures WriteState(cr, buf[..i + 1]) == WriteNext(WriteState(cr, buf[..i]), buf[i])
  {
    assert buf[..i + 1] == buf[..i] + [buf[i]];
    WriteAppend(cr, buf[..i], buf[i]);
  }
}
