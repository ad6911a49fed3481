/**
  The rewinding reader: what it has read from the raw reader while buffering can be read again.
  Module Tapes describes it on values and holds the laws; the class is proved to follow it.
*/
module Tapes {
  import opened Basics

  /** The raw stream with its position, and the fields of the reader. */
  datatype Tape = Tape(
    data: seq<Byte>,
    pos: nat,
    buf: seq<Byte>,
    idx: nat,
    rewound: bool,
    buffering: bool,
    size: int)
  {
    predicate Valid() {
      pos <= |data| && idx <= |buf| && (buffering ==> size > 0)
    }

    /** Bytes of the buffer that are still to be delivered a second time. */
    function Unread(): seq<Byte>
      requires Valid()
    {
      if rewound then buf[idx..] else []
    }

    /** Everything further reads will deliver. */
    function Future(): seq<Byte>
      requires Valid()
    {
      Unread() + data[pos..]
    }
  }

  /** A read of at most `want` bytes when the raw reader has `offered` ready. */
  function Read(t: Tape, want: nat, offered: nat): (r: (Tape, seq<Byte>))
    requires t.Valid()
    ensures r.0.Valid()
  {
    if t.rewound && |t.buf| > t.idx then
      var n := Min(want, |t.buf| - t.idx);
      (t.(idx := t.idx + n), t.buf[t.idx..t.idx + n])
    else
      var n := Min(Min(want, offered), |t.data| - t.pos);
      var got := t.data[t.pos..t.pos + n];
      (t.(rewound := false, pos := t.pos + n, buf := if t.buffering then t.buf + got else t.buf), got)
  }

  function Rewind(t: Tape): Tape {
    t.(rewound := true, idx := 0)
  }

  function Stop(t: Tape): Tape {
    t.(buffering := false)
  }

  function Resize(t: Tape, size: int): Tape {
    t.(buffering := size != 0, buf := [], idx := 0, size := size)
  }

  /** No read loses, repeats or reorders a byte, whatever the buffer holds. */
  lemma ReadDeliversFuture(t: Tape, want: nat, offered: nat)
    requires t.Valid()
    ensures var (t', got) := Read(t, want, offered);
      got + t'.Future() == t.Future() && |got| <= want
  {
    var (t', got) := Read(t, want, offered);
    if t.rewound && |t.buf| > t.idx {
      assert t.buf[t.idx..] == got + t'.buf[t'.idx..];
    } else {
      assert t.data[t.pos..] == got + t.data[t'.pos..];
    }
  }

  /**
    How much a read delivers: while a replay is unfinished as much of it as the caller has room for, and
    nothing is taken from the raw reader; else what that offers. So a read that has room delivers
    something unless nothing is left to replay and nothing is offered.
  */
  lemma ReadDeliversEnough(t: Tape, want: nat, offered: nat)
    requires t.Valid()
    ensures
      var (t', got) := Read(t, want, offered);
      && |got| == (if t.Unread() != [] then Min(want, |t.Unread()|) else Min(Min(want, offered), |t.data| - t.pos))
      && t'.pos == t.pos + (if t.Unread() != [] then 0 else |got|)
      && (got == [] <==> want == 0 || (t.Unread() == [] && (offered == 0 || t.pos == |t.data|)))
      && t'.buffering == t.buffering
  {
    assert t.rewound ==> |t.Unread()| == |t.buf| - t.idx;
  }

  /** Setting the buffer size, to any value, loses exactly the replayed bytes not yet read again. */
  lemma ResizeLosesUnread(t: Tape, size: int)
    requires t.Valid() && size >= 0
    ensures Resize(t, size).Valid()
    ensures Resize(t, size).Future() == t.Future() <==> t.Unread() == []
  {
    assert |t.Future()| == |t.Unread()| + |t.data[t.pos..]|;
    assert |Resize(t, size).Future()| == |t.data[t.pos..]|;
  }

  // ------------------------------------------------- histories

  datatype Op = DoRead(want: nat, offered: nat) | DoRewind | DoStop

  function Step(t: Tape, op: Op): (r: Tape)
    requires t.Valid()
    ensures r.Valid()
  {
    match op
    case DoRead(want, offered) => Read(t, want, offered).0
    case DoRewind => Rewind(t)
    case DoStop => Stop(t)
  }

  function After(t: Tape, ops: seq<Op>): (r: Tape)
    requires t.Valid()
    ensures r.Valid()
  {
    if ops == [] then t else Step(After(t, ops[..|ops| - 1]), ops[|ops| - 1])
  }

  /** The bytes delivered since the last Rewind, or since the start if there was none. */
  function Delivered(t: Tape, ops: seq<Op>): seq<Byte>
    requires t.Valid()
  {
    if ops == [] then []
    else
      var before, op := ops[..|ops| - 1], ops[|ops| - 1];
      match op
      case DoRead(want, offered) => Delivered(t, before) + Read(After(t, before), want, offered).1
      case DoRewind => []
      case DoStop => Delivered(t, before)
  }

  /** Buffering was switched on with nothing left to replay: the stream position is where replay starts. */
  ghost predicate Armed(t: Tape) {
    t.Valid() && t.buffering && t.buf == [] && t.Unread() == []
  }

  /** Every byte taken from the raw reader since position s is in the buffer. */
  predicate Complete(t: Tape, s: nat) {
    |t.buf| + s == t.pos
  }

  /** The buffer is always a stretch of the stream from s on; while buffering it is complete. */
  ghost predicate Buffers(t: Tape, s: nat) {
    && t.Valid()
    && s + |t.buf| <= t.pos
    && t.buf == t.data[s..s + |t.buf|]
    && (t.buffering ==> Complete(t, s))
  }

  lemma ReadBuffers(t: Tape, want: nat, offered: nat, s: nat)
    requires Buffers(t, s)
    ensures Buffers(Read(t, want, offered).0, s)
  {
    var (t', got) := Read(t, want, offered);
    if t.buffering && t'.buf != t.buf {
      assert t.data[s..t'.pos] == t.data[s..t.pos] + got;
    }
  }

  lemma {:induction false} AlwaysBuffers(t: Tape, ops: seq<Op>)
    requires Armed(t)
    ensures Buffers(After(t, ops), t.pos) && After(t, ops).data == t.data
  {
    if ops != [] {
      var r, op := After(t, ops[..|ops| - 1]), ops[|ops| - 1];
      AlwaysBuffers(t, ops[..|ops| - 1]);
      if op.DoRead? {
        ReadBuffers(r, op.want, op.offered, t.pos);
      }
    }
  }

  /** The history up to its first StopBuffering. */
  function UntilStop(ops: seq<Op>): seq<Op> {
    if ops == [] then []
    else if DoStop in ops[..|ops| - 1] then UntilStop(ops[..|ops| - 1])
    else if ops[|ops| - 1].DoStop? then ops[..|ops| - 1] else ops
  }

  /** A read or a rewind adds to the buffer, while buffering, what it takes from the raw reader. */
  lemma StepGrows(t: Tape, op: Op)
    requires t.Valid()
    ensures
      var t' := Step(t, op);
      && t'.buffering == (t.buffering && !op.DoStop?)
      && (t.buffering ==> t'.pos - t.pos == |t'.buf| - |t.buf|)
      && (!t.buffering || op.DoStop? ==> t'.buf == t.buf)
      && (op.DoStop? ==> t'.pos == t.pos)
  {
  }

  /** From the first StopBuffering on the buffer stays as it was. */
  lemma {:induction false} BufferUntilStop(t: Tape, ops: seq<Op>)
    requires Armed(t)
    ensures After(t, ops).buffering <==> DoStop !in ops
    ensures t.pos + |After(t, ops).buf| == After(t, UntilStop(ops)).pos
    ensures After(t, ops).buffering ==> After(t, UntilStop(ops)).pos == After(t, ops).pos
  {
    if ops != [] {
      var before, op := ops[..|ops| - 1], ops[|ops| - 1];
      BufferUntilStop(t, before);
      StepGrows(After(t, before), op);
      assert ops == before + [op];
      assert DoStop !in before ==> UntilStop(before) == before by {
        if DoStop !in before {
          NoStop(before);
        }
      }
    }
  }

  lemma {:induction false} NoStop(ops: seq<Op>)
    requires DoStop !in ops
    ensures UntilStop(ops) == ops
  {
  }

  /** A Rewind takes the reader back to s if and only if no raw byte was taken since the first StopBuffering. */
  lemma RewindExactly(t: Tape, ops: seq<Op>)
    requires Armed(t)
    ensures Rewind(After(t, ops)).Future() == t.data[t.pos..] <==>
              After(t, ops).pos == After(t, UntilStop(ops)).pos
  {
    BufferUntilStop(t, ops);
    CompleteExactly(t, ops);
  }

  lemma CompleteExactly(t: Tape, ops: seq<Op>)
    requires Armed(t)
    ensures Rewind(After(t, ops)).Future() == t.data[t.pos..] <==> Complete(After(t, ops), t.pos)
  {
    AlwaysBuffers(t, ops);
    hide After, Armed;
    BufferComplete(t, After(t, ops));
  }

  lemma BufferComplete(t: Tape, r: Tape)
    requires t.Valid() && Buffers(r, t.pos) && r.data == t.data
    ensures Rewind(r).Future() == t.data[t.pos..] <==> Complete(r, t.pos)
  {
    var rest := r.data[r.pos..];
    assert Rewind(r).Future() == r.buf + rest;
    assert |t.data[t.pos..]| == r.pos - t.pos + |rest|;
    if Complete(r, t.pos) {
      assert r.data[t.pos..] == r.data[t.pos..r.pos] + rest;
    }
  }

  /** Every Rewind of the history happens before a raw byte is taken after StopBuffering. */
  ghost predicate RewindsInTime(t: Tape, ops: seq<Op>)
    requires t.Valid()
  {
    ops == [] ||
    (var before := ops[..|ops| - 1];
     RewindsInTime(t, before) && (ops[|ops| - 1].DoRewind? ==> After(t, before).pos == After(t, UntilStop(before)).pos))
  }

  lemma {:induction false} BufferingLasts(t: Tape, ops: seq<Op>)
    requires Armed(t) && DoStop !in ops
    ensures After(t, ops).buffering && RewindsInTime(t, ops)
  {
    if ops != [] {
      var before := ops[..|ops| - 1];
      assert DoStop !in before;
      BufferingLasts(t, before);
      NoStop(before);
    }
  }

  /**
    Replay. From the moment buffering is switched on at stream position s, after any reads and
    rewinds, what was delivered since the last Rewind followed by what is still to come is the
    stream from s on: nothing is missing and nothing comes twice, before StopBuffering and after.
  */
  lemma {:induction false} ReplayExact(t: Tape, ops: seq<Op>)
    requires Armed(t) && RewindsInTime(t, ops)
    ensures Delivered(t, ops) + After(t, ops).Future() == t.data[t.pos..]
  {
    if ops != [] {
      var before, op := ops[..|ops| - 1], ops[|ops| - 1];
      var r := After(t, before);
      ReplayExact(t, before);
      match op
      case DoRead(want, offered) =>
        ReadDeliversFuture(r, want, offered);
        var (r', got) := Read(r, want, offered);
        assert Delivered(t, before) + (got + r'.Future()) == (Delivered(t, before) + got) + r'.Future();
      case DoRewind =>
        RewindExactly(t, before);
        assert [] + Rewind(r).Future() == Rewind(r).Future();
      case DoStop =>
    }
  }

  /** In particular after any reads and rewinds made before StopBuffering, and any reads made after it. */
  lemma ReplayThenRest(t: Tape, ops: seq<Op>, rest: seq<Op>)
    requires Armed(t) && DoStop !in ops && forall op :: op in rest ==> op.DoRead?
    ensures Delivered(t, ops + [DoStop] + rest) + After(t, ops + [DoStop] + rest).Future() == t.data[t.pos..]
  {
    BufferingLasts(t, ops);
    assert (ops + [DoStop])[..|ops|] == ops;
    InTimeReads(t, ops + [DoStop], rest);
    ReplayExact(t, ops + [DoStop] + rest);
  }

  lemma {:induction false} InTimeReads(t: Tape, ops: seq<Op>, rest: seq<Op>)
    requires Armed(t) && RewindsInTime(t, ops) && forall op :: op in rest ==> op.DoRead?
    ensures RewindsInTime(t, ops + rest)
  {
    if rest == [] {
      assert ops + rest == ops;
    } else {
      var front := rest[..|rest| - 1];
      InTimeReads(t, ops, front);
      assert (ops + rest)[..|ops + rest| - 1] == ops + front;
      assert (ops + rest)[|ops + rest| - 1] == rest[|rest| - 1];
      assert rest[|rest| - 1] in rest;
    }
  }
}

module RewindReaders {
  import opened Basics
  import opened Tapes

  /** A reader that hands out a stream in portions of its own choosing. */
  class RawReader {
    const data: seq<Byte>
    var pos: nat

    constructor (data: seq<Byte>)
      ensures this.data == data && pos == 0
    {
      this.data, pos := data, 0;
    }

    /** `offered` is how many bytes happen to be ready, `failing` whether an error comes with them. */
    method Read(p: array<Byte>, offered: nat, failing: bool) returns (n: nat, err: bool)
      requires pos <= |data|
      modifies this, p
      ensures n == Min(Min(p.Length, offered), |data| - old(pos)) && err == failing
      ensures pos == old(pos) + n && p[..n] == data[old(pos)..pos] && p[n..] == old(p[..])[n..]
    {
      n := Min(Min(p.Length, offered), |data| - pos);
      forall i | 0 <= i < n {
        p[i] := data[pos + i];
      }
      pos := pos + n;
      err := failing;
    }
  }

  class RewindReader {
    const rawReader: RawReader
    var buf: seq<Byte>
    var bufReadIdx: nat
    var rewound: bool
    var buffering: bool
    var bufferSize: int

    ghost function Tape(): Tape
      reads this, rawReader
    {
      Tapes.Tape(rawReader.data, rawReader.pos, buf, bufReadIdx, rewound, buffering, bufferSize)
    }

    ghost predicate Valid()
      reads this, rawReader
    {
      Tape().Valid()
    }

    constructor (raw: RawReader)
      requires raw.pos <= |raw.data|
      ensures Valid() && rawReader == raw && Tape() == Tapes.Tape(raw.data, raw.pos, [], 0, false, false, 0)
    {
      rawReader := raw;
      buf, bufReadIdx, rewound, buffering, bufferSize := [], 0, false, false, 0;
    }

    method Read(p: array<Byte>, offered: nat, failing: bool) returns (n: nat, err: bool)
      requires Valid()
      modifies this, rawReader, p
      ensures Valid() && n <= p.Length
      ensures (Tape(), p[..n]) == Tapes.Read(old(Tape()), p.Length, offered)
      ensures p[n..] == old(p[..])[n..]
      ensures err == (failing && old(Tape().Unread()) == [])
    {
      if rewound {
        if |buf| > bufReadIdx {
          n := Min(p.Length, |buf| - bufReadIdx);
          forall i | 0 <= i < n {
            p[i] := buf[bufReadIdx + i];
          }
          assert p[..n] == buf[bufReadIdx..bufReadIdx + n];
          bufReadIdx := bufReadIdx + n;
          return n, false;
        }
        rewound := false;
      }
      n, err := rawReader.Read(p, offered, failing);
      if buffering {
        buf := buf + p[..n];
      }
    }

    /** Panics in the source when no buffer was ever set. */
    method Rewind()
      requires Valid() && bufferSize != 0
      modifies this
      ensures Valid() && Tape() == Tapes.Rewind(old(Tape()))
    {
      rewound := true;
      bufReadIdx := 0;
    }

    method StopBuffering()
      requires Valid()
      modifies this
      ensures Valid() && Tape() == Stop(old(Tape()))
    {
      buffering := false;
    }

    /** Panics in the source when it would switch off what is off or on what is on. */
    method SetBufferSize(size: int)
      requires Valid() && size >= 0 && (size == 0 <==> buffering)
      modifies this
      ensures Valid() && Tape() == Resize(old(Tape()), size)
      ensures size > 0 && old(Tape().Unread()) == [] ==> Armed(Tape())
    {
      if size == 0 {
        buffering := false;
        buf := [];
        bufReadIdx := 0;
        bufferSize := 0;
      } else {
        buffering := true;
        bufReadIdx := 0;
        bufferSize := size;
        buf := [];
      }
    }
  }
}
