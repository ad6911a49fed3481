/** What the bytes of an address look like, how many there can be, and how reading one can fail. */
module SocksLaws {
  import opened Basics
  import opened Options
  import opened SocksAddr
  import opened SocksReader

  /** Section 5 of RFC 1928, byte by byte: the type, the length of a name, the host, the port with its high byte first. */
  lemma BytesPrescribed(h: Host, p: Port)
    requires Valid(h)
    ensures
      var a := Encode(h, p);
      && |a| >= 4 && p == 256 * (a[|a| - 2] as int) + a[|a| - 1] as int
      && match h
         case V4(ip) => |a| == 7 && a[0] == 1 && a[1..5] == ip
         case V6(ip) => |a| == 19 && a[0] == 4 && a[1..17] == ip
         case Domain(name) => |a| == |name| + 4 && a[0] == 3 && a[1] == |name| && a[2..2 + |name|] == name
  {
  }

  /** MAX_ADDR_LEN is the length of the longest address there is. */
  lemma LongestAddress()
    ensures forall a :: WellFormed(a) ==> 4 <= |a| <= MAX_ADDR_LEN
    ensures exists a :: WellFormed(a) && |a| == MAX_ADDR_LEN
  {
    forall a | WellFormed(a)
      ensures 4 <= |a| <= MAX_ADDR_LEN
    {
      var h, p :| Valid(h) && a == Encode(h, p);
      BytesPrescribed(h, p);
    }
    var h := Domain(seq(255, _ => 0));
    var a := Encode(h, 0);
    assert Valid(h) && WellFormed(a) && |a| == MAX_ADDR_LEN;
  }

  /** The bytes are the beginning of an address, and not the whole of it. */
  ghost predicate Unfinished(input: seq<Byte>) {
    exists a :: WellFormed(a) && input < a
  }

  lemma AddressLength(input: seq<Byte>, a: seq<Byte>)
    requires WellFormed(a) && (input <= a || a <= input) && input != []
    requires input[0] == 3 ==> |input| >= 2
    ensures |a| == AddrLen(input[0], if |input| > 1 then input[1] else 0)
  {
    SplitExactly(a, a);
    LongestAddress();
    assert a[0] == input[0] && (|input| > 1 ==> a[1] == input[1]);
  }

  /** Bytes that show a known type and end too soon can be completed to an address. */
  lemma CanFinish(input: seq<Byte>) returns (a: seq<Byte>)
    requires input != [] ==> input[0] in {1, 3, 4}
    requires SplitAddr(input).None?
    ensures WellFormed(a) && input < a
  {
    var start := if input == [] then [1] else if input[0] == 3 && |input| == 1 then [3, 0] else input;
    var n := AddrLen(start[0], if |start| > 1 then start[1] else 0);
    a := start + seq(n - |start|, _ => 0);
    assert a[0] == start[0] && (|start| > 1 ==> a[1] == start[1]) && a[..n] == a;
    assert SplitAddr(a) == Some(a);
    SplitExactly(a, a);
  }

  /**
    Every input is of one kind: it begins with an address, or with a type that is none, or it is an
    address cut short. In the last case all of it is taken, and the error is the stream's own, but for an
    end behind the type or the length byte, which is unexpected.
  */
  lemma OutcomeExactly(input: seq<Byte>, fate: ReadError)
    ensures
      var o := Expected(input, fate);
      && (o.err == None <==> exists a :: WellFormed(a) && a <= input)
      && (input != [] && input[0] !in {1, 3, 4} ==> o == Outcome(Some(AddressNotSupported), 1, None))
      && ((input == [] || input[0] in {1, 3, 4}) && o.err != None ==>
            && Unfinished(input) && o.taken == |input|
            && (o.err == Some(UnexpectedEof) || o.err == Some(fate))
            && (fate == Eof ==>
                  (o.err == Some(UnexpectedEof) <==> input != [] && |input| > if input[0] == 3 then 2 else 1))
            && (fate != Eof ==> o.err == Some(fate)))
  {
    ReadsWhatSplitFinds(input, fate);
    if Expected(input, fate).err == None {
      SplitExactly(input, SplitAddr(input).value);
    }
    if a :| WellFormed(a) && a <= input {
      SplitExactly(input, a);
    }
    if (input == [] || input[0] in {1, 3, 4}) && SplitAddr(input).None? {
      var a := CanFinish(input);
    }
  }

  /** A slice that is handed back, with an error or without, has the length of the address that began. */
  lemma SliceIsAddress(input: seq<Byte>, fate: ReadError, a: seq<Byte>)
    requires Expected(input, fate).slice.Some? && WellFormed(a) && (input <= a || a <= input)
    ensures Expected(input, fate).slice == Some(|a|)
  {
    AddressLength(input, a);
  }
}
