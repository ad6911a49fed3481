/**
  Reading a SOCKS address from a stream that hands out its bytes in whatever amounts it likes.
*/
module SocksReader {
  import opened Basics
  import opened Options
  import opened SocksAddr

  /** Failed(code) is any error of the stream itself. */
  datatype ReadError = Eof | UnexpectedEof | ShortBuffer | AddressNotSupported | Failed(code: int)

  /** The buffer with `bytes` written over it from `at` on. */
  function Over(buffer: seq<Byte>, at: nat, bytes: seq<Byte>): (r: seq<Byte>)
    requires at + |bytes| <= |buffer|
    ensures |r| == |buffer|
  {
    buffer[..at] + bytes + buffer[at + |bytes|..]
  }

  lemma OverTwice(buffer: seq<Byte>, at: nat, stream: seq<Byte>, i: nat, j: nat)
    requires i <= j <= |stream| && at + j <= |buffer|
    ensures Over(Over(buffer, at, stream[..i]), at + i, stream[i..][..j - i]) == Over(buffer, at, stream[..j])
  {
    assert stream[..j] == stream[..i] + stream[i..][..j - i];
  }

  lemma OverNothing(buffer: seq<Byte>, at: nat)
    requires at <= |buffer|
    ensures Over(buffer, at, []) == buffer
  {
  }

  class Reader {
    /** What the stream reports once it has no more bytes: its end, or an error. */
    const fate: ReadError
    /** The bytes the stream has yet to deliver. */
    var left: seq<Byte>
    /** How often it will still deliver nothing without reporting anything. */
    var idle: nat

    constructor (bytes: seq<Byte>, fate: ReadError, idle: nat)
      ensures left == bytes && this.fate == fate && this.idle == idle
    {
      this.fate := fate;
      left, this.idle := bytes, idle;
    }

    /** Delivers some bytes into b[lo..hi]; with the last ones, or after them, the stream's fate. */
    method Read(b: array<Byte>, lo: nat, hi: nat) returns (n: nat, err: Option<ReadError>)
      requires lo < hi <= b.Length
      modifies this, b
      ensures n <= hi - lo && n <= |old(left)| && left == old(left)[n..]
      ensures b[..] == Over(old(b[..]), lo, old(left)[..n])
      ensures n > 0 || err.Some? || idle < old(idle)
      ensures err.Some? ==> left == [] && err == Some(fate)
    {
      n, err := 0, None;
      var pause, ends := *, *;
      if pause && idle > 0 {
        idle := idle - 1;
      } else if left != [] {
        n :| 1 <= n <= |left| && n <= hi - lo;
      } else {
        ends := true;
      }
      Fill(b, lo, left[..n]);
      left := left[n..];
      if ends && left == [] {
        err := Some(fate);
      }
    }
  }

  method Fill(b: array<Byte>, at: nat, bytes: seq<Byte>)
    requires at + |bytes| <= b.Length
    modifies b
    ensures b[..] == Over(old(b[..]), at, bytes)
  {
    hide Over;
    OverNothing(b[..], at);
    for i := 0 to |bytes|
      invariant b[..] == Over(old(b[..]), at, bytes[..i])
    {
      OverTwice(old(b[..]), at, bytes, i, i + 1);
      assert bytes[i..][..1] == [bytes[i]];
      WriteOne(b, at + i, bytes[i]);
    }
    assert bytes[..|bytes|] == bytes;
  }

  method WriteOne(b: array<Byte>, at: nat, byte: Byte)
    requires at < b.Length
    modifies b
    ensures b[..] == Over(old(b[..]), at, [byte])
  {
    b[at] := byte;
  }

  /** What filling `want` bytes from a stream reports: an end that comes in the middle is unexpected. */
  function FullError(available: nat, want: nat, fate: ReadError): Option<ReadError> {
    if available >= want then None else if available > 0 && fate == Eof then Some(UnexpectedEof) else Some(fate)
  }

  /** The io package's ReadFull into b[lo..hi]: reads until that is full or the stream gives up. */
  method ReadFull(r: Reader, b: array<Byte>, lo: nat, hi: nat) returns (err: Option<ReadError>)
    requires lo < hi <= b.Length
    modifies r, b
    ensures
      var got := Min(hi - lo, |old(r.left)|);
      && r.left == old(r.left)[got..]
      && b[..] == Over(old(b[..]), lo, old(r.left)[..got])
    ensures err == FullError(|old(r.left)|, hi - lo, r.fate)
    ensures err == None <==> |old(r.left)| >= hi - lo
    ensures err.Some? && r.fate == Eof ==> err == Some(if old(r.left) == [] then Eof else UnexpectedEof)
    ensures err.Some? && r.fate != Eof ==> err == Some(r.fate)
  {
    hide Over;
    var n: nat := 0;
    err := None;
    OverNothing(b[..], lo);
    while lo + n < hi && err == None
      invariant lo + n <= hi && n <= |old(r.left)| && r.left == old(r.left)[n..]
      invariant b[..] == Over(old(b[..]), lo, old(r.left)[..n])
      invariant err.Some? ==> r.left == [] && err == Some(r.fate)
      decreases hi - lo - n, err == None, r.idle
    {
      var nn;
      nn, err := r.Read(b, lo + n, hi);
      OverTwice(old(b[..]), lo, old(r.left), n, n + nn);
      n := n + nn;
    }
    if lo + n >= hi {
      err := None;
    } else if n > 0 && err == Some(Eof) {
      err := Some(UnexpectedEof);
    }
  }

  /** How many bytes an address of type t takes, if its length byte is `domain`. */
  function AddrLen(t: Byte, domain: Byte): nat {
    if t == DOMAIN_NAME then 1 + 1 + (domain as int) + 2 else if t == IPV4 then 1 + 4 + 2 else 1 + 16 + 2
  }

  predicate Supported(t: Byte) {
    t == DOMAIN_NAME || t == IPV4 || t == IPV6
  }

  /** What ReadAddr reports, how many bytes it takes, and how much of the buffer it hands back. */
  datatype Outcome = Outcome(err: Option<ReadError>, taken: nat, slice: Option<nat>)

  /**
    The outcome for the bytes in a stream. Go hands the slice back with an error as well when the
    stream gives up inside the host or the port.
  */
  function Expected(input: seq<Byte>, fate: ReadError): Outcome {
    if input == [] then Outcome(Some(fate), 0, None)
    else if !Supported(input[0]) then Outcome(Some(AddressNotSupported), 1, None)
    else if input[0] == DOMAIN_NAME && |input| == 1 then Outcome(Some(fate), 1, None)
    else
      var header := if input[0] == DOMAIN_NAME then 2 else 1;
      var n := AddrLen(input[0], if |input| > 1 then input[1] else 0);
      Outcome(FullError(|input| - header, n - header, fate), Min(n, |input|), Some(n))
  }

  /** ReadAddr succeeds just where SplitAddr finds an address, and then takes and hands back exactly that. */
  lemma ReadsWhatSplitFinds(input: seq<Byte>, fate: ReadError)
    ensures Expected(input, fate).taken <= |input|
    ensures Expected(input, fate).err == None <==> SplitAddr(input).Some?
    ensures SplitAddr(input).Some? ==>
              var a := SplitAddr(input).value;
              a == input[..Expected(input, fate).taken] && Expected(input, fate).slice == Some(|a|)
  {
  }

  /** So an address written by one side and followed by anything is read back, and no more. */
  lemma ReadsWhatWasEncoded(h: Host, p: Port, rest: seq<Byte>, fate: ReadError)
    requires Valid(h)
    ensures Expected(Encode(h, p) + rest, fate) == Outcome(None, |Encode(h, p)|, Some(|Encode(h, p)|))
  {
    SplitEncoded(h, p, rest);
    ReadsWhatSplitFinds(Encode(h, p) + rest, fate);
  }

  /** Reads an address into the caller's buffer; what is handed back is b[..addr]. */
  method ReadAddr(r: Reader, b: array<Byte>) returns (addr: Option<nat>, err: Option<ReadError>)
    modifies r, b
    ensures b.Length < MAX_ADDR_LEN ==>
              err == Some(ShortBuffer) && addr == None && r.left == old(r.left) && b[..] == old(b[..])
    ensures b.Length >= MAX_ADDR_LEN ==>
              var o := Expected(old(r.left), r.fate);
              && err == o.err && addr == o.slice && o.taken <= |old(r.left)|
              && (addr.Some? ==> addr.value <= b.Length)
              && r.left == old(r.left)[o.taken..]
              && b[..] == Over(old(b[..]), 0, old(r.left)[..o.taken])
    ensures b.Length >= MAX_ADDR_LEN && err == None ==>
              && SplitAddr(old(r.left)).Some? && addr.Some?
              && b[..addr.value] == SplitAddr(old(r.left)).value
  {
    if b.Length < MAX_ADDR_LEN {
      return None, Some(ShortBuffer);
    }
    hide Over, FullError, SplitAddr, Min;
    ghost var input, before := r.left, b[..];
    OverNothing(before, 0);
    err := ReadOn(r, b, input, before, 0, 1);
    StreamEnds(input, 0, 1, r.fate);
    if err.Some? {
      return None, err;
    }
    OverAt(before, input, 1, 0);
    addr, err := ReadBody(r, b, input, before);
    if err == None {
      TakesAddress(input, before, addr.value, r.fate);
    }
  }

  /** The rest of an address whose type is in b[0]. */
  method ReadBody(r: Reader, b: array<Byte>, ghost input: seq<Byte>, ghost before: seq<Byte>)
    returns (addr: Option<nat>, err: Option<ReadError>)
    requires MAX_ADDR_LEN <= b.Length == |before| && 1 <= |input|
    requires r.left == input[1..] && b[..] == Over(before, 0, input[..1]) && b[0] == input[0]
    modifies r, b
    ensures
      var o := Expected(input, r.fate);
      && err == o.err && addr == o.slice && o.taken <= |input|
      && r.left == input[o.taken..] && b[..] == Over(before, 0, input[..o.taken])
    ensures err == None ==> addr == Some(AddrLen(input[0], if |input| > 1 then input[1] else 0))
  {
    hide Over, FullError;
    var t := b[0];
    if t == DOMAIN_NAME {
      err := ReadOn(r, b, input, before, 1, 2);
      StreamEnds(input, 1, 2, r.fate);
      if err.Some? {
        return None, err;
      }
      OverAt(before, input, 2, 1);
      var domainLength := b[1] as int;
      err := ReadOn(r, b, input, before, 2, 2 + domainLength + 2);
      addr := Some(1 + 1 + domainLength + 2);
    } else if t == IPV4 {
      err := ReadOn(r, b, input, before, 1, 1 + 4 + 2);
      addr := Some(1 + 4 + 2);
    } else if t == IPV6 {
      err := ReadOn(r, b, input, before, 1, 1 + 16 + 2);
      addr := Some(1 + 16 + 2);
    } else {
      addr, err := None, Some(AddressNotSupported);
    }
  }

  /** ReadFull into the next part of the buffer. */
  method ReadOn(r: Reader, b: array<Byte>, ghost input: seq<Byte>, ghost before: seq<Byte>, lo: nat, hi: nat)
    returns (err: Option<ReadError>)
    requires lo < hi <= b.Length == |before| && lo <= |input|
    requires r.left == input[lo..] && b[..] == Over(before, 0, input[..lo])
    modifies r, b
    ensures var got := Min(hi, |input|); r.left == input[got..] && b[..] == Over(before, 0, input[..got])
    ensures err == FullError(|input| - lo, hi - lo, r.fate)
  {
    hide Over, FullError;
    err := ReadFull(r, b, lo, hi);
    OverTwice(before, 0, input, lo, Min(hi, |input|));
  }

  lemma OverAt(buffer: seq<Byte>, input: seq<Byte>, n: nat, i: nat)
    requires i < n <= |input| && n <= |buffer|
    ensures Over(buffer, 0, input[..n])[i] == input[i]
  {
  }

  lemma StreamEnds(input: seq<Byte>, lo: nat, hi: nat, fate: ReadError)
    requires lo + 1 == hi && lo <= |input|
    ensures FullError(|input| - lo, hi - lo, fate) == if lo == |input| then Some(fate) else None
  {
  }

  lemma TakesAddress(input: seq<Byte>, buffer: seq<Byte>, n: nat, fate: ReadError)
    requires Expected(input, fate).err == None && n <= |buffer| && Expected(input, fate).taken <= |buffer|
    requires |input| > 0 && n == AddrLen(input[0], if |input| > 1 then input[1] else 0)
    ensures SplitAddr(input).Some? && n == Expected(input, fate).taken == |SplitAddr(input).value|
    ensures Over(buffer, 0, input[..n])[..n] == SplitAddr(input).value
  {
  }
}
