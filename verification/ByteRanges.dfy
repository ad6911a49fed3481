/** Splitting a file into byte ranges and asking for them, section 14.1.2 of RFC 9110. */
module ByteRanges {
  datatype Range = Range(rangeFrom: int, rangeTo: int)

  /** What a Range header says: bytes=first-last, with an inclusive end, or bytes=first-. */
  datatype Header = Closed(first: int, last: int) | Open(first: int)

  function ToHeader(r: Range, contentLength: int): Header {
    if r.rangeTo != contentLength then Closed(r.rangeFrom, r.rangeTo) else Open(r.rangeFrom)
  }

  /** Go's division, which rounds towards zero. */
  function Quotient(a: int, b: int): int
    requires b > 0
  {
    if a >= 0 then a / b else -(-a / b)
  }

  /** Range j of `part`. */
  function RangeAt(part: int, length: int, j: nat): Range
    requires j < part
  {
    var q := Quotient(length, part);
    Range(q * j, if j < part - 1 then q * (j + 1) - 1 else length)
  }

  method CalcRange(part: int, length: int) returns (ret: seq<Range>)
    ensures |ret| == if part > 0 then part else 0
    ensures forall j :: 0 <= j < |ret| ==> ret[j] == RangeAt(part, length, j)
  {
    ret := [];
    var j := 0;
    while j < part
      invariant |ret| == j && (part > 0 ==> j <= part) && (part <= 0 ==> j == 0)
      invariant forall i :: 0 <= i < j ==> ret[i] == RangeAt(part, length, i)
    {
      var q := Quotient(length, part);
      var from := q * j;
      var to := if j < part - 1 then q * (j + 1) - 1 else length;
      ret := ret + [Range(from, to)];
      j := j + 1;
    }
  }

  /** The bytes of a file that a header selects, from the first up to one past the last. */
  predicate Selects(h: Header, length: int, from: int, to: int) {
    match h
    case Closed(first, last) => 0 <= first <= last < length && from == first && to == last + 1
    case Open(first) => 0 <= first < length && from == first && to == length
  }

  /** The cuts of a file at which the ranges begin, and its end. */
  function Cut(part: int, length: int, j: nat): int
    requires j <= part && part > 0
  {
    if j == part then length else Quotient(length, part) * j
  }

  /** The headers select stretches that follow each other from the first byte to the last. */
  ghost predicate Tile(headers: seq<Header>, length: int, cuts: seq<int>) {
    && |cuts| == |headers| + 1 && cuts[0] == 0 && cuts[|headers|] == length
    && forall j :: 0 <= j < |headers| ==> Selects(headers[j], length, cuts[j], cuts[j + 1])
  }

  function Headers(part: int, length: int): seq<Header>
    requires part > 0
  {
    seq(part, j requires 0 <= j < part => ToHeader(RangeAt(part, length, j), length))
  }

  lemma Multiples(q: int, part: int, length: int, j: int)
    requires part > 0 && q >= 1 && q * part <= length && 0 <= j < part - 1
    ensures 0 <= q * j <= q * (j + 1) - 1 < q * (j + 1) < length
  {
    assert q * (j + 1) == q * j + q;
    var k := part - (j + 1);
    assert q * part == q * (j + 1) + q * k;
    assert q * k >= q;
  }

  lemma HeaderAt(part: int, length: int, j: nat)
    requires part >= 1 && length >= part && j < part
    ensures Selects(Headers(part, length)[j], length, Cut(part, length, j), Cut(part, length, j + 1))
    ensures Headers(part, length)[j].Open? <==> j == part - 1
  {
    var q := Quotient(length, part);
    WholeParts(part, length);
    if j < part - 1 {
      Multiples(q, part, length, j);
    } else if j > 0 {
      Multiples(q, part, length, j - 1);
    }
  }

  lemma WholeParts(part: int, length: int)
    requires part >= 1
    ensures length >= part <==> Quotient(length, part) >= 1
    ensures length >= part ==> Quotient(length, part) * part <= length
  {
    if length >= 0 {
      var q, r := length / part, length % part;
      assert length == part * q + r;
      if q >= 1 {
        assert part * q >= part;
      } else {
        assert part * q <= 0;
      }
    }
  }

  lemma NoFirst(part: int, length: int, from: int, to: int)
    requires part >= 1 && length < part && Quotient(length, part) < 1
    ensures !Selects(Headers(part, length)[0], length, from, to)
  {
  }

  /** The ranges tile the file exactly when it has a byte for each of them; only the last is open. */
  lemma TilesExactly(part: int, length: int)
    requires part >= 1
    ensures (exists cuts :: Tile(Headers(part, length), length, cuts)) <==> length >= part
    ensures length >= part ==> forall j: nat :: j < part ==> (Headers(part, length)[j].Open? <==> j == part - 1)
  {
    var headers := Headers(part, length);
    if length >= part {
      var cuts := seq(part + 1, j requires 0 <= j <= part => Cut(part, length, j));
      forall j: nat | j < part
        ensures Selects(headers[j], length, cuts[j], cuts[j + 1]) && (headers[j].Open? <==> j == part - 1)
      {
        HeaderAt(part, length, j);
      }
      assert Quotient(length, part) * 0 == 0;
      assert Tile(headers, length, cuts);
    } else {
      WholeParts(part, length);
      forall cuts | |cuts| == |headers| + 1
        ensures !Tile(headers, length, cuts)
      {
        NoFirst(part, length, cuts[0], cuts[1]);
      }
    }
  }

  /** The parts are even: each but the last has the whole quotient, the last that and less than a byte a part more. */
  lemma PartsEven(part: int, length: int, j: nat, from: int, to: int)
    requires 1 <= part <= length && j < part && Selects(Headers(part, length)[j], length, from, to)
    ensures from == length / part * j
    ensures if j < part - 1 then to - from == length / part else length / part <= to - from < length / part + part
  {
    var q := length / part;
    HeaderAt(part, length, j);
    assert length == part * q + length % part;
    assert q * (j + 1) == q * j + q;
    if j == part - 1 {
      assert q * j + q == q * part;
    }
  }

  predicate Has(h: Header, length: int, x: int) {
    match h
    case Closed(first, last) => first <= x <= last && x < length
    case Open(first) => first <= x < length
  }

  lemma {:induction false} CutsAscend(headers: seq<Header>, length: int, cuts: seq<int>, i: nat, j: nat)
    requires Tile(headers, length, cuts) && i <= j <= |headers|
    ensures cuts[i] <= cuts[j]
  {
    if i < j {
      CutsAscend(headers, length, cuts, i, j - 1);
      assert Selects(headers[j - 1], length, cuts[j - 1], cuts[j - 1 + 1]);
    }
  }

  /** Tiling headers fetch each byte of the file once. */
  lemma {:induction false} EachByteOnce(headers: seq<Header>, length: int, cuts: seq<int>, x: int, n: nat) returns (i: nat)
    requires Tile(headers, length, cuts) && 1 <= n <= |headers| && 0 <= x < cuts[n]
    ensures i < n && forall j :: 0 <= j < |headers| ==> (Has(headers[j], length, x) <==> j == i)
    decreases n
  {
    assert Selects(headers[n - 1], length, cuts[n - 1], cuts[n - 1 + 1]);
    if n > 1 && x < cuts[n - 1] {
      i := EachByteOnce(headers, length, cuts, x, n - 1);
    } else {
      i := n - 1;
      forall j | 0 <= j < |headers|
        ensures Has(headers[j], length, x) <==> j == i
      {
        assert Selects(headers[j], length, cuts[j], cuts[j + 1]);
        if j < i {
          CutsAscend(headers, length, cuts, j + 1, i);
        } else if i < j {
          CutsAscend(headers, length, cuts, i + 1, j);
        }
      }
    }
  }
}
