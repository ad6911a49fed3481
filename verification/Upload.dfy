/** The body of one upload request, and the digest that is announced for it. */
module Upload {
  import opened Basics

  const BLOCK := 32 * 1024

  function Zeros(n: nat): (z: seq<Byte>)
    ensures |z| == n
  {
    if n == 0 then [] else Zeros(n - 1) + [0]
  }

  lemma {:induction false} ZerosAdd(m: nat, n: nat)
    ensures Zeros(m) + Zeros(n) == Zeros(m + n)
  {
    if n > 0 {
      ZerosAdd(m, n - 1);
    }
  }

  lemma {:induction false} ZerosAt(n: nat)
    ensures forall i :: 0 <= i < n ==> Zeros(n)[i] == 0
  {
    if n > 0 {
      ZerosAt(n - 1);
    }
  }

  lemma OnlyZeros(s: seq<Byte>)
    requires forall i :: 0 <= i < |s| ==> s[i] == 0
    ensures s == Zeros(|s|)
  {
    ZerosAt(|s|);
  }

  /** How many bytes a body of so many remaining bytes gives to a buffer of `size`. */
  function Given(remaining: int, size: nat): nat {
    if remaining <= 0 then 0 else Min(size, remaining)
  }

  /** Copies the zero block over and over until the first n bytes are filled. */
  method CopyZeros(p: array<Byte>, n: nat)
    requires n <= p.Length
    modifies p
    ensures p[..] == Zeros(n) + old(p[n..])
  {
    hide Zeros;
    ghost var tail := p[n..];
    var i := 0;
    while i < n
      invariant i <= n <= p.Length
      invariant forall k :: 0 <= k < i ==> p[k] == 0
      invariant forall k :: n <= k < p.Length ==> p[k] == tail[k - n]
    {
      var m := Min(n - i, BLOCK);
      forall k | i <= k < i + m {
        p[k] := 0;
      }
      i := i + m;
    }
    OnlyZeros(p[..n]);
    assert p[n..] == tail;
    assert p[..] == p[..n] + p[n..];
  }

  class UploadBody {
    var sent: nat
    var remaining: int

    constructor (chunk: int)
      ensures sent == 0 && remaining == chunk
    {
      sent, remaining := 0, chunk;
    }

    /** Fills p with zeros as far as the chunk reaches; the end of the body once it is sent or cancelled. */
    method Read(p: array<Byte>, cancelled: bool) returns (n: nat, eof: bool)
      modifies this, p
      ensures eof <==> cancelled || old(remaining) <= 0
      ensures n == if cancelled then 0 else Given(old(remaining), p.Length)
      ensures p[..] == Zeros(n) + old(p[n..])
      ensures sent == old(sent) + n && remaining == old(remaining) - n
    {
      n, eof := 0, true;
      if cancelled || remaining <= 0 {
        assert p[..] == Zeros(0) + p[0..];
        return;
      }
      n, eof := p.Length, false;
      if n > remaining {
        n := remaining;
      }
      CopyZeros(p, n);
      remaining := remaining - n;
      sent := sent + n;
    }
  }

  /** What reads into buffers of the given sizes deliver, one after the other, and what remains. */
  function Delivered(remaining: int, sizes: seq<nat>): (seq<Byte>, int)
    decreases |sizes|
  {
    if sizes == [] then ([], remaining)
    else
      var n := Given(remaining, sizes[0]);
      var (rest, left) := Delivered(remaining - n, sizes[1..]);
      (Zeros(n) + rest, left)
  }

  function Total(sizes: seq<nat>): nat {
    if sizes == [] then 0 else sizes[0] + Total(sizes[1..])
  }

  /** Whatever the sizes, the body is the chunk's zeros as far as the buffers reach, and nothing is lost. */
  lemma {:induction false} DeliveredIsZeros(chunk: int, sizes: seq<nat>)
    ensures
      var (bytes, left) := Delivered(chunk, sizes);
      && bytes == Zeros(Given(chunk, Total(sizes)))
      && |bytes| + left == chunk
      && (chunk >= 0 ==> left >= 0)
    decreases |sizes|
  {
    hide Zeros;
    if sizes == [] {
      assert Delivered(chunk, sizes) == ([], chunk);
    } else {
      var n, m := Given(chunk, sizes[0]), Total(sizes[1..]);
      DeliveredIsZeros(chunk - n, sizes[1..]);
      hide Delivered, Total;
      ZerosAdd(n, Given(chunk - n, m));
      assert n + Given(chunk - n, m) == Given(chunk, sizes[0] + m);
    }
  }

  /** The digests computed so far, by size. */
  class DigestCache {
    var digests: map<int, string>

    /** Every cached digest is the hash of that many zeros. */
    ghost predicate Valid(hash: seq<Byte> -> string)
      reads this
    {
      forall size :: size in digests ==> digests[size] == hash(Zeros(if size < 0 then 0 else size))
    }

    constructor ()
      ensures digests == map[]
    {
      digests := map[];
    }

    method Digest(hash: seq<Byte> -> string, size: int) returns (sum: string)
      requires Valid(hash)
      modifies this
      ensures Valid(hash)
      ensures sum == hash(Zeros(if size < 0 then 0 else size))
      ensures digests == old(digests)[size := sum]
    {
      if size in digests {
        assert digests[size := digests[size]] == digests;
        return digests[size];
      }
      var written: seq<Byte> := [];
      var remaining := size;
      while remaining > 0
        invariant remaining <= size && digests == old(digests)
        invariant written == Zeros(if size < 0 then 0 else size - remaining) && (size >= 0 ==> remaining >= 0)
      {
        var n := BLOCK;
        if n > remaining {
          n := remaining;
        }
        ZerosAdd(size - remaining, n);
        written := written + Zeros(n);
        remaining := remaining - n;
      }
      sum := hash(written);
      digests := digests[size := sum];
    }
  }

  /** A body read to its end is the string that was hashed for it, and its length the one announced. */
  lemma BodyMatchesDigest(hash: seq<Byte> -> string, chunk: int, sizes: seq<nat>)
    requires chunk >= 0
    ensures
      var (bytes, left) := Delivered(chunk, sizes);
      Total(sizes) >= chunk <==> left == 0
    ensures
      var (bytes, left) := Delivered(chunk, sizes);
      left == 0 ==> |bytes| == chunk && hash(bytes) == hash(Zeros(chunk))
  {
    DeliveredIsZeros(chunk, sizes);
  }
}
