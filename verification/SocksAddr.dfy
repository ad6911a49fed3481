/**
  SOCKS addresses, sections 5 and 7 of RFC 1928: a type byte, a host whose length the type or a
  length byte gives, and a port of two bytes, the higher first.
*/
module SocksAddr {
  import opened Basics
  import opened Options

  const IPV4: Byte := 1
  const DOMAIN_NAME: Byte := 3
  const IPV6: Byte := 4

  const MAX_ADDR_LEN := 1 + 1 + 255 + 2

  datatype Host = V4(ip: seq<Byte>) | V6(ip: seq<Byte>) | Domain(name: seq<Byte>)

  /** The hosts a SOCKS address can name. */
  ghost predicate Valid(h: Host) {
    match h
    case V4(ip) => |ip| == 4
    case V6(ip) => |ip| == 16
    case Domain(name) => |name| <= 255
  }

  type Port = p: int | 0 <= p < 0x1_0000

  // ------------------------------------------------- taking an address off the front

  function SplitAddr(b: seq<Byte>): Option<seq<Byte>> {
    if |b| < 1 then None
    else if b[0] == DOMAIN_NAME && |b| < 2 then None
    else if b[0] != DOMAIN_NAME && b[0] != IPV4 && b[0] != IPV6 then None
    else
      var addrLen: nat :=
        if b[0] == DOMAIN_NAME then 1 + 1 + (b[1] as int) + 2
        else if b[0] == IPV4 then 1 + 4 + 2
        else 1 + 16 + 2;
      if |b| < addrLen then None else Some(b[..addrLen])
  }

  // ------------------------------------------------- what the bytes mean

  function PortBytes(p: Port): seq<Byte> {
    [p / 256, p % 256]
  }

  function PortOf(high: Byte, low: Byte): Port {
    256 * (high as int) + low as int
  }

  /** The bytes section 5 of RFC 1928 prescribes for a host and a port. */
  function Encode(h: Host, p: Port): seq<Byte> {
    match h
    case V4(ip) => [IPV4] + ip + PortBytes(p)
    case V6(ip) => [IPV6] + ip + PortBytes(p)
    case Domain(name) => [DOMAIN_NAME] + [if |name| < 256 then |name| else 255] + name + PortBytes(p)
  }

  /** The byte strings that encode a host and a port. */
  ghost predicate WellFormed(a: seq<Byte>) {
    exists h, p :: Valid(h) && a == Encode(h, p)
  }

  /** The host and the port that an address shows, as its String method reads them. */
  function Decode(a: seq<Byte>): (Host, Port)
    requires SplitAddr(a) == Some(a)
  {
    if a[0] == DOMAIN_NAME then
      var hostLen := a[1] as int;
      (Domain(a[2..2 + hostLen]), PortOf(a[2 + hostLen], a[2 + hostLen + 1]))
    else if a[0] == IPV4 then
      (V4(a[1..1 + 4]), PortOf(a[1 + 4], a[1 + 4 + 1]))
    else
      (V6(a[1..1 + 16]), PortOf(a[1 + 16], a[1 + 16 + 1]))
  }

  lemma SplitEncoded(h: Host, p: Port, rest: seq<Byte>)
    requires Valid(h)
    ensures SplitAddr(Encode(h, p) + rest) == Some(Encode(h, p))
  {
    var a := Encode(h, p);
    assert (a + rest)[..|a|] == a;
    assert (a + rest)[0] == a[0];
    if h.Domain? {
      assert (a + rest)[1] == a[1] == |h.name|;
    }
  }

  /** Host and port come back from the bytes that ParseAddr writes. */
  lemma DecodeEncode(h: Host, p: Port)
    requires Valid(h)
    ensures SplitAddr(Encode(h, p)) == Some(Encode(h, p))
    ensures Decode(Encode(h, p)) == (h, p)
  {
    var a := Encode(h, p);
    SplitEncoded(h, p, []);
    assert a + [] == a;
    match h
    case V4(ip) => assert a[1..1 + 4] == ip;
    case V6(ip) => assert a[1..1 + 16] == ip;
    case Domain(name) => assert a[2..2 + |name|] == name;
  }

  lemma PortBytesOf(high: Byte, low: Byte)
    ensures PortBytes(PortOf(high, low)) == [high, low]
  {
  }

  lemma Sizes(a: seq<Byte>)
    requires SplitAddr(a) == Some(a)
    ensures
      || (a[0] == IPV4 && |a| == 1 + 4 + 2)
      || (a[0] == IPV6 && |a| == 1 + 16 + 2)
      || (a[0] == DOMAIN_NAME && |a| >= 2 && |a| == 1 + 1 + (a[1] as int) + 2)
  {
  }

  /** A string cut into a head, a middle and two bytes at the end. */
  lemma Cut(a: seq<Byte>, n: nat)
    requires n + 2 <= |a|
    ensures a == a[..n] + a[n..|a| - 2] + [a[|a| - 2], a[|a| - 1]]
  {
  }

  lemma EncodeFixed(a: seq<Byte>)
    requires SplitAddr(a) == Some(a) && a[0] != DOMAIN_NAME
    ensures var (h, p) := Decode(a); Valid(h) && Encode(h, p) == a
  {
    Sizes(a);
    hide SplitAddr, PortBytes, PortOf;
    PortBytesOf(a[|a| - 2], a[|a| - 1]);
    Cut(a, 1);
    assert a[..1] == [a[0]];
  }

  lemma EncodeDomain(a: seq<Byte>)
    requires SplitAddr(a) == Some(a) && a[0] == DOMAIN_NAME
    ensures var (h, p) := Decode(a); Valid(h) && Encode(h, p) == a
  {
    Sizes(a);
    hide SplitAddr, PortBytes, PortOf;
    PortBytesOf(a[|a| - 2], a[|a| - 1]);
    Cut(a, 2);
    assert a[..2] == [a[0]] + [a[1]];
  }

  /** And the bytes come back from the host and the port that they show. */
  lemma EncodeDecode(a: seq<Byte>)
    requires SplitAddr(a) == Some(a)
    ensures var (h, p) := Decode(a); Valid(h) && Encode(h, p) == a
  {
    if a[0] == DOMAIN_NAME {
      EncodeDomain(a);
    } else {
      EncodeFixed(a);
    }
  }

  lemma SplitKeepsItself(b: seq<Byte>)
    ensures SplitAddr(b).Some? ==>
              var a := SplitAddr(b).value; a <= b && SplitAddr(a) == Some(a)
  {
    if SplitAddr(b).Some? {
      var a := SplitAddr(b).value;
      assert a[..|a|] == a;
    }
  }

  /** SplitAddr finds an address exactly when the bytes begin with one, and it is that one. */
  lemma SplitExactly(b: seq<Byte>, a: seq<Byte>)
    ensures SplitAddr(b) == Some(a) <==> WellFormed(a) && a <= b
  {
    SplitKeepsItself(b);
    if SplitAddr(b) == Some(a) {
      EncodeDecode(a);
      var (h, p) := Decode(a);
      assert Valid(h) && a == Encode(h, p);
    }
    if WellFormed(a) && a <= b {
      var h, p :| Valid(h) && a == Encode(h, p);
      SplitEncoded(h, p, b[|a|..]);
      assert a + b[|a|..] == b;
    }
  }

  /** No address is the beginning of another: bytes have one reading as address and rest. */
  lemma SelfDelimiting(a: seq<Byte>, rest: seq<Byte>, a': seq<Byte>, rest': seq<Byte>)
    requires WellFormed(a) && WellFormed(a') && a + rest == a' + rest'
    ensures a == a' && rest == rest'
  {
    var b := a + rest;
    assert a <= b && a' <= b;
    SplitExactly(b, a);
    SplitExactly(b, a');
    assert rest == b[|a|..] && rest' == b[|a'|..];
  }

  // ------------------------------------------------- datagrams

  /** The packet, or the error for an address that is nil. */
  function EncodeUDPPacket(addr: Option<seq<Byte>>, payload: seq<Byte>): Option<seq<Byte>> {
    match addr
    case None => None
    case Some(a) => Some([0, 0, 0] + a + payload)
  }

  /** Section 7 of RFC 1928: two reserved bytes, a fragment number, an address, the data. */
  function Unpack(packet: seq<Byte>): Option<(seq<Byte>, seq<Byte>)> {
    if |packet| < 3 || packet[2] != 0 then None
    else
      match SplitAddr(packet[3..])
      case None => None
      case Some(a) => if a <= packet[3..] then Some((a, packet[3 + |a|..])) else None
  }

  /** EncodeUDPPacket takes any bytes for an address; its packets read back just for those that are one. */
  lemma PacketReadsBackExactly(a: seq<Byte>, payload: seq<Byte>)
    ensures
      var packet := EncodeUDPPacket(Some(a), payload);
      && packet.Some? && [0, 0, 0] <= packet.value
      && (Unpack(packet.value) == Some((a, payload)) <==> WellFormed(a))
  {
    var packet := [0, 0, 0] + a + payload;
    assert packet[3..] == a + payload;
    assert packet[3 + |a|..] == payload;
    assert a <= a + payload;
    SplitExactly(a + payload, a);
  }

  // ------------------------------------------------- writing an address

  /** What the net package makes of the host part: not an address, or one with 4 or 16 bytes. */
  datatype Literal = NotLiteral | Literal4(ip: seq<Byte>) | Literal6(ip: seq<Byte>)

  ghost predicate Sized(l: Literal) {
    match l
    case NotLiteral => true
    case Literal4(ip) => |ip| == 4
    case Literal6(ip) => |ip| == 16
  }

  function Named(hostname: seq<Byte>, l: Literal): Host {
    match l
    case NotLiteral => Domain(hostname)
    case Literal4(ip) => V4(ip)
    case Literal6(ip) => V6(ip)
  }

  /** copy(addr[at..], from) */
  method Copy(addr: array<Byte>, at: nat, from: seq<Byte>)
    requires at + |from| <= addr.Length
    modifies addr
    ensures addr[..] == old(addr[..at]) + from + old(addr[at + |from|..])
  {
    for i := 0 to |from|
      invariant addr[..at] == old(addr[..at])
      invariant addr[at..at + i] == from[..i]
      invariant addr[at + |from|..] == old(addr[at + |from|..])
    {
      addr[at + i] := from[i];
      assert addr[at..at + i + 1] == addr[at..at + i] + [from[i]];
    }
    assert from[..|from|] == from;
    assert addr[..] == addr[..at] + addr[at..at + |from|] + addr[at + |from|..];
  }

  /** A new address with its type and IP address written; the port is yet to come. */
  method StartFixed(t: Byte, ip: seq<Byte>) returns (b: array<Byte>)
    ensures fresh(b) && b.Length == 1 + |ip| + 2 && b[..b.Length - 2] == [t] + ip
  {
    b := new Byte[1 + |ip| + 2];
    b[0] := t;
    Copy(b, 1, ip);
    assert b[..1] == [t];
  }

  method StartDomain(host: seq<Byte>) returns (b: array<Byte>)
    requires |host| <= 255
    ensures fresh(b) && b.Length == 1 + 1 + |host| + 2 && b[..b.Length - 2] == [DOMAIN_NAME] + [|host|] + host
  {
    b := new Byte[1 + 1 + |host| + 2];
    b[0] := DOMAIN_NAME;
    b[1] := |host|;
    Copy(b, 2, host);
    assert b[..2] == [DOMAIN_NAME] + [|host|];
  }

  method WritePort(b: array<Byte>, portnum: Port)
    requires b.Length >= 2
    modifies b
    ensures b[..] == old(b[..b.Length - 2]) + PortBytes(portnum)
  {
    b[b.Length - 2], b[b.Length - 1] := portnum / 256, portnum % 256;
  }

  /**
    The address for a host and a port text that has been split: nil when the split or the port is
    bad or the name too long, and otherwise the encoding, which section 5 of RFC 1928 prescribes.
  */
  method ParseAddr(split: Option<seq<Byte>>, literal: Literal, port: Option<Port>) returns (addr: array?<Byte>)
    requires Sized(literal)
    ensures addr == null <==> split == None || port == None || !Valid(Named(split.value, literal))
    ensures addr != null ==> fresh(addr) && addr[..] == Encode(Named(split.value, literal), port.value)
  {
    addr := null;
    if split == None {
      return;
    }
    var host := split.value;
    var b: array<Byte>;
    match literal {
      case Literal4(ip) => b := StartFixed(IPV4, ip);
      case Literal6(ip) => b := StartFixed(IPV6, ip);
      case NotLiteral =>
        if |host| > 255 {
          return;
        }
        b := StartDomain(host);
    }
    if port == None {
      return;
    }
    WritePort(b, port.value);
    addr := b;
  }
}
