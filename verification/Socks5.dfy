/** The SOCKS5 side of the client: the two requests of RFC 1928 read from a socket into fixed buffers, and the address
    record that turns what was asked for into a query and a resolver's answer into an address. */
module Socks5 {

  import Framing
  import Tunnel

  type Byte = Framing.Byte
  type Bytes = Framing.Bytes

  const SIZE_T := 0x1_0000_0000_0000_0000

  // Messages of RFC 1928

  function UpToNul(n: Bytes): Bytes
  {
    var r := Tunnel.ReadCString(n + [0] + []);
    if r.Terminated? then r.text else []
  }

  datatype Target = IPv4(bytes: Bytes) | IPv6(bytes: Bytes) | Domain(name: Bytes) {
    predicate Encodable()
    {
      match this
      case IPv4(b) => |b| == 4
      case IPv6(b) => |b| == 16
      case Domain(n) => |n| < 256
    }

    /** A domain is read as a C string. */
    function AsRead(): Target
    {
      match this
      case Domain(n) => Domain(UpToNul(n))
      case _ => this
    }
  }

  /** A target is read as it was sent exactly when it is not a domain with a NUL in it. */
  lemma ReadAsSent(t: Target)
    ensures t.AsRead() == t <==> (t.Domain? ==> 0 !in t.name)
  {
    if t.Domain? {
      Tunnel.ReadCStringUpToNul(t.name, []);
    }
  }

  function Atyp(t: Target): Byte { match t case IPv4(_) => 1 case Domain(_) => 3 case IPv6(_) => 4 }

  function Address(t: Target): Bytes
    requires t.Encodable()
  {
    match t case IPv4(b) => b case IPv6(b) => b case Domain(n) => [|n|] + n
  }

  function PortBytes(port: nat): Bytes
    requires port < 0x1_0000
  {
    [port / 0x100, port % 0x100]
  }

  /** The layout shared by the request of section 4 and the reply of section 6 of RFC 1928. */
  function Message(code: Byte, reserved: Byte, t: Target, port: nat): Bytes
    requires t.Encodable() && port < 0x1_0000
  {
    [5, code, reserved, Atyp(t)] + Address(t) + PortBytes(port)
  }

  lemma MessageParts(c: Byte, r: Byte, t: Target, p: nat, rest: Bytes)
    requires t.Encodable() && p < 0x1_0000
    ensures var s, n := Message(c, r, t, p) + rest, 4 + |Address(t)|;
            && |s| >= n + 2
            && s[1] == c && s[2] == r && s[3] == Atyp(t) && s[4] == Address(t)[0] && s[4..n] == Address(t)
            && 0x100 * s[n] as int + s[n + 1] as int == p && s[n + 2..] == rest
  {}

  /** Requests as RFC 1928 lays them out: 127.0.0.1 port 80, a.b port 443, */
  lemma KnownRequests()
    ensures Message(1, 0, IPv4([127, 0, 0, 1]), 80) == [5, 1, 0, 1, 127, 0, 0, 1, 0, 80]
    ensures Message(1, 0, Domain([97, 46, 98]), 443) == [5, 1, 0, 3, 3, 97, 46, 98, 1, 187]
  {}

  /** and ::1 port 22. */
  lemma KnownIPv6Request()
    ensures Message(1, 0, IPv6([0, 0, 0, 0, 0, 0, 0, 0, 0, 0, 0, 0, 0, 0, 0, 1]), 22) ==
            [5, 1, 0, 4, 0, 0, 0, 0, 0, 0, 0, 0, 0, 0, 0, 0, 0, 0, 0, 1, 0, 22]
  {}

  /** No message is an initial part of another: a stream is split into messages in one way only. */
  lemma MessagesArePrefixFree(c: Byte, r: Byte, t: Target, p: nat, rest: Bytes,
                              c': Byte, r': Byte, t': Target, p': nat, rest': Bytes)
    requires t.Encodable() && t'.Encodable() && p < 0x1_0000 && p' < 0x1_0000
    requires Message(c, r, t, p) + rest == Message(c', r', t', p') + rest'
    ensures c == c' && r == r' && t == t' && p == p' && rest == rest'
  {
    var s, s' := Message(c, r, t, p) + rest, Message(c', r', t', p') + rest';
    var n := 4 + |Address(t)|;
    MessageParts(c, r, t, p, rest);
    MessageParts(c', r', t', p', rest');
    hide Message, PortBytes;
    assert |Address(t)| == |Address(t')|;
    if t.Domain? {
      assert Address(t)[1..] == t.name && Address(t')[1..] == t'.name;
    }
  }

  // The address record

  datatype Kind = NullAddress | V4Address | V6Address | DomainAddress

  /** Sum of the bytes. */
  function Sum(s: Bytes): int { if s == [] then 0 else Sum(s[..|s| - 1]) + s[|s| - 1] }

  class AddrInfo {
    var kind: Kind
    var data: Bytes
    var port: nat

    ghost predicate Valid()
      reads this
    {
      && (kind.V4Address? ==> |data| == 4)
      && (kind.V6Address? ==> |data| == 16)
      && port < 0x1_0000
    }

    /** What the record stands for; nothing before one of the setters was called. */
    ghost predicate Denotes(t: Target)
      reads this
    {
      match t
      case IPv4(b) => kind.V4Address? && data == b
      case IPv6(b) => kind.V6Address? && data == b
      case Domain(n) => kind.DomainAddress? && data == n
    }

    constructor ()
      ensures Valid() && kind.NullAddress? && port == 0
    {
      kind, data, port := NullAddress, [], 0;
    }

    method Set(t: Target)
      requires Valid() && t.Encodable()
      modifies this`kind, this`data
      ensures Valid() && Denotes(t)
    {
      match t {
        case IPv4(b) => kind, data := V4Address, b;
        case IPv6(b) => kind, data := V6Address, b;
        case Domain(n) => kind, data := DomainAddress, n;
      }
    }

    method SetPort(port: nat)
      requires Valid() && port < 0x1_0000
      modifies this`port
      ensures Valid() && this.port == port
    {
      this.port := port;
    }

    /** operator!: the bytes are added up in a char. */
    method IsUnset() returns (r: bool)
      ensures r <==> kind.NullAddress? || Sum(data) % 256 == 0
    {
      var sum := 0;
      for i := 0 to |data|
        invariant sum == Sum(data[..i]) % 256
      {
        assert data[..i + 1][..i] == data[..i];
        var b: int := data[i];
        sum := (sum + b) % 256;
      }
      assert data[..|data|] == data;
      r := sum == 0 || kind.NullAddress?;
    }

    /** An IPv6 address that is four bytes followed by zeros becomes those four bytes. */
    method Try6to4() returns (ok: bool)
      requires Valid()
      modifies this
      ensures Valid() && port == old(port)
      ensures ok <==> old(kind).V6Address?
      ensures old(kind).V6Address? && Tunnel.ZeroTail(old(data)) ==> Denotes(IPv4(old(data)[..4]))
      ensures !(old(kind).V6Address? && Tunnel.ZeroTail(old(data))) ==> kind == old(kind) && data == old(data)
    {
      if !kind.V6Address? {
        return false;
      }
      var convertible := true;
      for i := 4 to |data|
        invariant convertible <==> forall j | 4 <= j < i :: data[j] == 0
      {
        if data[i] != 0 {
          convertible := false;
        }
      }
      if convertible {
        data, kind := data[..4], V4Address;
      }
      ok := true;
    }

    /** The query that data for this address travels in; refused for an unresolved name and for port 0. */
    method ToQueryTemplate() returns (ok: bool, q: Tunnel.Query)
      requires Valid()
      ensures ok <==> (kind.V4Address? || kind.V6Address?) && port != 0
      ensures ok ==> q.port == port && q.ip == (if kind.V4Address? then data + Tunnel.Zeros(12) else data)
    {
      q := Tunnel.Query(Tunnel.Zeros(16), port, []);
      if kind.NullAddress? || kind.DomainAddress? || port == 0 {
        return false, q;
      }
      var n := if kind.V4Address? then 4 else 16;
      q := q.(ip := data[..n] + Tunnel.Zeros(16 - n));
      ok := true;
    }
  }

  /** An address goes through its 16-byte form: it comes back exactly when it is an IPv4 address or an IPv6 address
      that does not look like an embedded one. */
  method ThroughSixteenBytes(a: AddrInfo) returns (ok: bool, b: AddrInfo)
    requires a.Valid()
    ensures ok <==> (a.kind.V4Address? || a.kind.V6Address?) && a.port != 0
    ensures ok ==> fresh(b) && b.Valid() && b.port == a.port
    ensures ok ==>
              (b.kind == a.kind && b.data == a.data <==> a.kind.V4Address? || !Tunnel.ZeroTail(a.data))
  {
    b := new AddrInfo();
    var q;
    ok, q := a.ToQueryTemplate();
    if ok {
      b.SetPort(q.port);
      b.Set(IPv6(q.ip));
      var _ := b.Try6to4();
      assert a.kind.V4Address? ==> q.ip[..4] == a.data;
    }
  }

  /** What is made of the resolver's answer in its 16-byte form: a failure when its bytes add up to a multiple of 256,
      else the address it embeds. */
  method AcceptResolved(ip: Tunnel.Ip, port: nat) returns (ok: bool, a: AddrInfo)
    requires port < 0x1_0000
    ensures ok <==> Sum(ip) % 256 != 0
    ensures ok ==> fresh(a) && a.Valid() && a.port == port
    ensures ok ==> a.Denotes(if Tunnel.ZeroTail(ip) then IPv4(ip[..4]) else IPv6(ip))
  {
    a := new AddrInfo();
    a.SetPort(port);
    a.Set(IPv6(ip));
    var unset := a.IsUnset();
    if unset {
      return false, a;
    }
    var _ := a.Try6to4();
    ok := true;
  }

  lemma EmbeddedAddress(address: Tunnel.Address)
    ensures address.V4? ==> Tunnel.ZeroTail(Tunnel.Embedded(address)) && Tunnel.Embedded(address)[..4] == address.bytes
    ensures address.V6? ==> Tunnel.Embedded(address) == address.bytes
  {}

  /** An address as the server's resolver finds it, sent as 16 bytes and taken back by the client: an IPv4 address
      arrives as itself, and so does an IPv6 address that does not look like an embedded one. */
  method Resolve(address: Tunnel.Address, port: nat) returns (ok: bool, a: AddrInfo)
    requires port < 0x1_0000
    ensures ok <==> Sum(Tunnel.Embedded(address)) % 256 != 0
    ensures ok && address.V4? ==> a.Denotes(IPv4(address.bytes)) && a.port == port
    ensures ok && address.V6? ==>
              a.port == port &&
              a.Denotes(if Tunnel.ZeroTail(address.bytes) then IPv4(address.bytes[..4]) else IPv6(address.bytes))
  {
    EmbeddedAddress(address);
    ok, a := AcceptResolved(Tunnel.Embedded(address), port);
  }

  lemma {:induction false} SumOfZeros(s: Bytes, n: nat)
    ensures Sum(s + Tunnel.Zeros(n)) == Sum(s)
    decreases n
  {
    if n == 0 {
      assert s + Tunnel.Zeros(0) == s;
    } else {
      assert (s + Tunnel.Zeros(n))[..|s| + n - 1] == s + Tunnel.Zeros(n - 1);
      SumOfZeros(s, n - 1);
    }
  }

  /** A resolved IPv4 address is taken for a failure exactly when its four bytes add up to 0, 256, 512 or 768. */
  lemma ResolvedV4Refused(a: Byte, b: Byte, c: Byte, d: Byte)
    ensures Sum(Tunnel.Embedded(Tunnel.V4([a, b, c, d]))) % 256 == 0 <==>
            a as int + b as int + c as int + d as int in {0, 256, 512, 768}
  {
    SumOfZeros([a, b, c, d], 12);
    assert [a, b, c, d][..3] == [a, b, c] && [a, b, c][..2] == [a, b] && [a, b][..1] == [a] && [a][..0] == [];
    assert Sum([a]) == a as int;
    assert Sum([a, b]) == a as int + b as int;
  }

  /** For instance 128.128.0.0, which is not the unspecified address. */
  lemma RefusedAddressExists()
    ensures Sum(Tunnel.Embedded(Tunnel.V4([128, 128, 0, 0]))) % 256 == 0
  {
    ResolvedV4Refused(128, 128, 0, 0);
  }

  // Reading requests

  /** A length byte is read through a signed char and widened to size_t. */
  function Widened(b: Byte): nat { if b < 128 then b else SIZE_T - 256 + b }

  /** Copies bytes into a buffer. */
  method Fill(buf: array<Byte>, at: nat, s: Bytes)
    requires at + |s| <= buf.Length
    modifies buf
    ensures buf[..] == old(buf[..at]) + s + old(buf[at + |s|..])
  {
    for i := 0 to |s|
      invariant forall j | 0 <= j < i :: buf[at + j] == s[j]
      invariant forall j | 0 <= j < buf.Length && !(at <= j < at + i) :: buf[j] == old(buf[j])
    {
      buf[at + i] := s[i];
    }
  }

  /** How a step ended: it went on, an exception was thrown, or memory outside a buffer was touched. */
  datatype Outcome = Done | Died | Overrun

  ghost predicate Suffix(now: Bytes, was: Bytes) { |now| <= |was| && was[|was| - |now|..] == now }

  /** Copies bytes behind those already received. */
  method Append(buf: array<Byte>, at: nat, got: nat, data: Bytes)
    requires at + got + |data| <= buf.Length
    modifies buf
    ensures buf[..at] == old(buf[..at]) && buf[at..at + got + |data|] == old(buf[at..at + got]) + data
  {
    ghost var before := buf[..];
    Fill(buf, at + got, data);
    assert buf[..at] == buf[..][..at] == before[..at];
    assert buf[at..at + got + |data|] == buf[..][at..at + got + |data|];
  }

  /** What comes of asking for n bytes with room for fewer or more, when this many will arrive. */
  function Received(arriving: nat, n: nat, room: nat): Outcome
  {
    if n <= room then if n <= arriving then Done else Died
    else if arriving > room then Overrun else Died
  }

  /** recvn_ex into a buffer: the kernel writes whatever arrives, up to the number of bytes asked for, whether or
      not there is room for it. */
  method RecvInto(s: Framing.Socket, buf: array<Byte>, at: nat, n: nat) returns (outcome: Outcome)
    requires at <= buf.Length
    modifies s`incoming, s`script, buf
    ensures old(s.NoFailure()) ==> s.NoFailure() && outcome == Received(|old(s.incoming)|, n, buf.Length - at)
    ensures outcome != Died ==> outcome == Received(|old(s.incoming)|, n, buf.Length - at)
    ensures Suffix(s.incoming, old(s.incoming))
    ensures buf[..at] == old(buf[..at])
    ensures outcome == Done ==> s.incoming == old(s.incoming)[n..] && buf[at..at + n] == old(s.incoming)[..n]
  {
    var nleft: nat, got: nat := n, 0;
    while nleft > 0
      invariant nleft + got == n && at + got <= buf.Length && got <= |old(s.incoming)|
      invariant s.incoming == old(s.incoming)[got..]
      invariant buf[..at] == old(buf[..at]) && buf[at..at + got] == old(s.incoming)[..got]
      invariant old(s.NoFailure()) ==> s.NoFailure()
      decreases nleft + |s.script|
    {
      var r := s.Recv(nleft);
      if r.Error? || (r.Moved? && r.data == []) {
        return Died;
      }
      if r.Moved? {
        if at + got + |r.data| > buf.Length {
          return Overrun;
        }
        Append(buf, at, got, r.data);
        assert old(s.incoming)[..got] + r.data == old(s.incoming)[..got + |r.data|];
        got, nleft := got + |r.data|, nleft - |r.data|;
      }
    }
    outcome := Done;
  }

  /** The buffer holds a request with an address type and a length that can be read. */
  predicate Readable(buf: Bytes)
  {
    |buf| == 263 && buf[0] == 5 && buf[3] in {1, 3, 4} && (buf[3] == 3 ==> buf[4] < 128)
  }

  /** The targets that can be read: lengths are signed bytes. */
  predicate Fits(t: Target) { t.Encodable() && (t.Domain? ==> |t.name| < 128) }

  function TargetIn(buf: Bytes): (t: Target)
    requires Readable(buf)
    ensures Fits(t)
  {
    if buf[3] == 1 then IPv4(buf[4..8]) else if buf[3] == 4 then IPv6(buf[4..20]) else Domain(buf[5..5 + buf[4]])
  }

  function BigEndian(high: Byte, low: Byte): (port: nat)
    ensures port < 0x1_0000 && PortBytes(port) == [high, low]
  {
    0x100 * high + low
  }

  function PortIn(buf: Bytes): (port: nat)
    requires Readable(buf)
    ensures port < 0x1_0000
  {
    var n := 4 + |Address(TargetIn(buf))|;
    BigEndian(buf[n], buf[n + 1])
  }

  lemma Slices(s: Bytes, a: nat, b: nat, c: nat)
    requires a <= b <= c <= |s|
    ensures s[..c] == s[..a] + s[a..b] + s[b..c]
  {}

  /** Decoding inverts the message format. */
  lemma DecodedIsMessage(buf: Bytes)
    requires Readable(buf)
    ensures Message(buf[1], buf[2], TargetIn(buf), PortIn(buf)) <= buf
  {
    var t := TargetIn(buf);
    var n := 4 + |Address(t)|;
    if t.Domain? {
      assert buf[4..n] == [buf[4]] + buf[5..n];
    }
    assert Address(t) == buf[4..n];
    Slices(buf, 4, n, n + 2);
  }

  lemma DecodedIsOnlyMessage(buf: Bytes, c: Byte, r: Byte, t: Target, port: nat)
    requires |buf| == 263 && Fits(t) && port < 0x1_0000 && Message(c, r, t, port) <= buf
    ensures Readable(buf) && t == TargetIn(buf) && port == PortIn(buf) && c == buf[1] && r == buf[2]
  {
    var m := Message(c, r, t, port);
    assert buf[3] == m[3] && buf[4] == m[4] == Address(t)[0];
    DecodedIsMessage(buf);
    var m' := Message(buf[1], buf[2], TargetIn(buf), PortIn(buf));
    MessagesArePrefixFree(c, r, t, port, buf[|m|..], buf[1], buf[2], TargetIn(buf), PortIn(buf), buf[|m'|..]);
  }

  /** unpackConnectionPacket. */
  method UnpackConnectionPacket(pkg: array<Byte>) returns (outcome: Outcome, cmd: Byte, info: AddrInfo)
    requires pkg.Length == 263
    ensures fresh(info) && info.Valid()
    ensures cmd == pkg[1]
    ensures outcome == Overrun <==> pkg[0] == 5 && pkg[3] == 3 && pkg[4] >= 128
    ensures outcome == Died <==> pkg[0] != 5 || pkg[3] !in {1, 3, 4}
    ensures outcome == Done ==>
              Readable(pkg[..]) && info.Denotes(TargetIn(pkg[..]).AsRead()) && info.port == PortIn(pkg[..])
  {
    info := new AddrInfo();
    cmd := pkg[1];
    var atyp := pkg[3];
    if pkg[0] != 5 {
      return Died, cmd, info;
    }
    var port;
    if atyp == 1 {
      info.Set(IPv4(pkg[4..8]));
      port := BigEndian(pkg[8], pkg[9]);
    } else if atyp == 4 {
      info.Set(IPv6(pkg[4..20]));
      port := BigEndian(pkg[20], pkg[21]);
    } else if atyp == 3 {
      var addrlen := Widened(pkg[4]);
      if addrlen > 263 - 7 {
        return Overrun, cmd, info;
      }
      port := BigEndian(pkg[5 + addrlen], pkg[6 + addrlen]);
      Tunnel.ReadCStringUpToNul(pkg[5..5 + addrlen], []);
      info.Set(Domain(UpToNul(pkg[5..5 + addrlen])));
    } else {
      return Died, cmd, info;
    }
    info.SetPort(port);
    outcome := Done;
  }

  /** The stream begins with a request for a connection that can be read. */
  ghost predicate BeginsWith(stream: Bytes, code: Byte, reserved: Byte, t: Target, port: nat)
  {
    Fits(t) && port < 0x1_0000 && Message(code, reserved, t, port) <= stream
  }

  ghost predicate HugeDomain(stream: Bytes) { |stream| >= 5 && stream[3] == 3 && stream[4] >= 128 }

  /** The signed length byte makes the program leave its buffers. Up to 253 it asks for an enormous number of bytes,
      which does harm when more arrive than there is room for, and otherwise ends in an exception when the stream
      does. Lengths of 254 and 255 wrap around to a short read; the harm is done after the version check. */
  ghost predicate Overruns(stream: Bytes)
  {
    && HugeDomain(stream)
    && if stream[4] < 254 then |stream| > 263 else stream[0] == 5 && |stream| >= 5 + (stream[4] - 254)
  }

  function AddressLength(atyp: Byte, b: Byte): nat
  {
    if atyp == 1 then 4 else if atyp == 4 then 16 else b as int + 1
  }

  /** The stream brings all the bytes its first five ask for. */
  ghost predicate Complete(stream: Bytes)
  {
    && |stream| >= 5 && stream[3] in {1, 3, 4} && !HugeDomain(stream)
    && |stream| >= 6 + AddressLength(stream[3], stream[4])
  }

  lemma RequestIsComplete(stream: Bytes, code: Byte, reserved: Byte, t: Target, port: nat)
    requires BeginsWith(stream, code, reserved, t, port)
    ensures Complete(stream)
    ensures |Message(code, reserved, t, port)| == 6 + AddressLength(stream[3], stream[4])
  {
    var m := Message(code, reserved, t, port);
    assert stream[3] == m[3] == Atyp(t) && stream[4] == m[4] == Address(t)[0];
  }

  /** The length of the address as the program computes it. */
  function AddrLen(atyp: Byte, b: Byte): nat
  {
    if atyp == 1 then 4 else if atyp == 4 then 16 else (Widened(b) + 1) % SIZE_T
  }

  /** The number of bytes it then asks for. */
  function Wanted(atyp: Byte, b: Byte): nat { (AddrLen(atyp, b) + 1) % SIZE_T }

  lemma WantedValues(atyp: Byte, b: Byte)
    requires atyp in {1, 3, 4}
    ensures !(atyp == 3 && b >= 128) ==> AddrLen(atyp, b) == AddressLength(atyp, b) == Wanted(atyp, b) - 1
    ensures Wanted(atyp, b) > 258 <==> atyp == 3 && 128 <= b < 254
    ensures atyp == 3 && b >= 254 ==> Wanted(atyp, b) == b - 254
  {}

  /** How far the program reads a stream that brings these bytes. */
  ghost function Fate(stream: Bytes): Outcome
  {
    if |stream| < 5 || stream[3] !in {1, 3, 4} then Died
    else
      Received(|stream| - 5, Wanted(stream[3], stream[4]), 258)
  }

  /** The choice of the address length. */
  method LengthOf(atyp: Byte, b: Byte) returns (known: bool, addrlen: nat)
    ensures known <==> atyp in {1, 3, 4}
    ensures known ==> addrlen == AddrLen(atyp, b)
  {
    known, addrlen := true, 0;
    if atyp == 1 {
      addrlen := 4;
    } else if atyp == 3 {
      addrlen := (Widened(b) + 1) % SIZE_T;
    } else if atyp == 4 {
      addrlen := 16;
    } else {
      known := false;
    }
  }

  lemma SuffixTwice(now: Bytes, mid: Bytes, was: Bytes)
    requires Suffix(now, mid) && Suffix(mid, was)
    ensures Suffix(now, was)
  {}

  lemma TwoReads(stream: Bytes, buf: Bytes, n: nat)
    requires 5 + n <= |stream| && 5 + n <= |buf| && buf[..5] == stream[..5] && buf[5..5 + n] == stream[5..][..n]
    ensures buf[..5 + n] == stream[..5 + n] && stream[5..][n..] == stream[5 + n..]
  {
    Slices(buf, 0, 5, 5 + n);
    Slices(stream, 0, 5, 5 + n);
  }

  /** The reading part of connect_pkgs: five bytes, then as many as they call for. */
  method ReadRequest(s: Framing.Socket, buf: array<Byte>) returns (outcome: Outcome, addrlen: nat)
    requires buf.Length == 263
    modifies s`incoming, s`script, buf
    ensures old(s.NoFailure()) ==> s.NoFailure() && outcome == Fate(old(s.incoming))
    ensures outcome != Died ==> outcome == Fate(old(s.incoming))
    ensures Suffix(s.incoming, old(s.incoming))
    ensures outcome == Done ==>
              var n := 5 + Wanted(buf[3], buf[4]);
              && n <= |old(s.incoming)| && n <= 263
              && buf[..n] == old(s.incoming)[..n] && s.incoming == old(s.incoming)[n..]
              && addrlen == AddrLen(buf[3], buf[4])
  {
    hide AddrLen;
    addrlen := 0;
    outcome := RecvInto(s, buf, 0, 5);
    if outcome != Done {
      return;
    }
    ghost var stream, head, rest := old(s.incoming), buf[..5], s.incoming;
    assert head[3] == buf[3] && head[4] == buf[4];
    var known;
    known, addrlen := LengthOf(buf[3], buf[4]);
    if !known {
      return Died, addrlen;
    }
    var wanted := (addrlen + 1) % SIZE_T;
    outcome := RecvInto(s, buf, 5, wanted);
    assert buf[..5] == head && head[3] == buf[3] && head[4] == buf[4];
    SuffixTwice(s.incoming, rest, stream);
    if outcome == Done {
      TwoReads(stream, buf[..], wanted);
    }
  }

  lemma FateOf(stream: Bytes)
    ensures Fate(stream) == Overrun ==> Overruns(stream)
    ensures Overruns(stream) ==> Fate(stream) == if stream[4] < 254 then Overrun else Done
    ensures forall reserved, t, port | BeginsWith(stream, 1, reserved, t, port) :: Fate(stream) == Done
  {
    if |stream| >= 5 && stream[3] in {1, 3, 4} {
      WantedValues(stream[3], stream[4]);
    }
    forall reserved, t, port | BeginsWith(stream, 1, reserved, t, port) ensures Fate(stream) == Done {
      RequestIsComplete(stream, 1, reserved, t, port);
    }
  }

  /** A full buffer holds what the stream began with. */
  lemma WhatWasRead(stream: Bytes, buf: Bytes, rest: Bytes)
    requires Fate(stream) == Done && |buf| == 263
    requires var n := 5 + Wanted(buf[3], buf[4]);
             n <= |stream| && n <= 263 && buf[..n] == stream[..n] && rest == stream[n..]
    ensures HugeDomain(stream) <==> buf[3] == 3 && buf[4] >= 128
    ensures Overruns(stream) <==> HugeDomain(stream) && buf[0] == 5
    ensures !HugeDomain(stream) ==>
              var a := AddressLength(buf[3], buf[4]);
              a == AddrLen(buf[3], buf[4]) && a + 6 <= 263 && stream == buf[..a + 6] + rest
    ensures forall reserved, t, port | BeginsWith(stream, 1, reserved, t, port) ::
              Readable(buf) && buf[1] == 1
  {
    var n := 5 + Wanted(buf[3], buf[4]);
    assert forall i | 0 <= i < 5 :: buf[i] == buf[..n][i] == stream[..n][i];
    WantedValues(buf[3], buf[4]);
    forall reserved, t, port | BeginsWith(stream, 1, reserved, t, port) ensures Readable(buf) && buf[1] == 1 {
      RequestIsComplete(stream, 1, reserved, t, port);
      var m := Message(1, reserved, t, port);
      assert m == stream[..n] == buf[..n];
      assert m <= buf;
      DecodedIsOnlyMessage(buf, 1, reserved, t, port);
    }
  }

  /** The message at the front of a readable buffer, and what it becomes when its code is cleared. */
  lemma ReadMessage(buf: Bytes)
    requires Readable(buf)
    ensures var n, t, port := AddressLength(buf[3], buf[4]) + 6, TargetIn(buf), PortIn(buf);
            && n <= 263
            && buf[..n] == Message(buf[1], buf[2], t, port)
            && buf[..n][1 := 0] == Message(0, buf[2], t, port)
  {
    DecodedIsMessage(buf);
    var t, port := TargetIn(buf), PortIn(buf);
    assert |Address(t)| == AddressLength(buf[3], buf[4]);
    assert Message(buf[1], buf[2], t, port)[1 := 0] == Message(0, buf[2], t, port);
  }

  /** connect_pkgs. */
  method ConnectPkgs(s: Framing.Socket) returns (outcome: Outcome, info: AddrInfo)
    modifies s
    ensures info.Valid()
    // Success: exactly one request was consumed, it was understood, and the reply repeats it with code 0
    ensures outcome == Done ==>
              exists reserved, t, port ::
                && BeginsWith(old(s.incoming), 1, reserved, t, port)
                && old(s.incoming) == Message(1, reserved, t, port) + s.incoming
                && info.Denotes(t.AsRead()) && info.port == port
                && s.outgoing == old(s.outgoing) + Message(0, reserved, t, port)
    // and every such request succeeds
    ensures old(s.NoFailure()) && (exists reserved, t, port :: BeginsWith(old(s.incoming), 1, reserved, t, port)) ==>
              outcome == Done
    // The buffers are left only for domains with a length byte of 128 or more, and then by every one that gets that far
    ensures outcome == Overrun ==> Overruns(old(s.incoming))
    ensures old(s.NoFailure()) && Overruns(old(s.incoming)) ==> outcome == Overrun
    ensures Suffix(s.incoming, old(s.incoming))
  {
    hide Message, TargetIn, PortIn, Widened, Wanted, AddrLen, Fate;
    info := new AddrInfo();
    var buf := new Byte[263];
    var addrlen;
    outcome, addrlen := ReadRequest(s, buf);
    FateOf(old(s.incoming));
    if outcome != Done {
      return;
    }
    WhatWasRead(old(s.incoming), buf[..], s.incoming);
    var cmd;
    outcome, cmd, info := UnpackConnectionPacket(buf);
    if outcome != Done {
      return;
    }
    if cmd != 1 {
      outcome := Died;
      return;
    }
    ghost var request := buf[..addrlen + 6];
    ghost var t, port, reserved := TargetIn(buf[..]), PortIn(buf[..]), buf[2];
    ReadMessage(buf[..]);
    buf[1] := 0;
    assert buf[..addrlen + 6] == request[1 := 0];
    var ok := s.SendN(buf[..addrlen + 6]);
    outcome := if ok then Done else Died;
    assert BeginsWith(old(s.incoming), 1, reserved, t, port);
  }

  ghost predicate OffersMethods(stream: Bytes)
  {
    |stream| >= 2 && stream[0] == 5 && stream[1] < 128 && |stream| >= 2 + stream[1] as int
  }

  /** A count byte of 128 or more, and more bytes than the buffer has room for. */
  ghost predicate TooManyMethods(stream: Bytes) { |stream| > 258 && stream[0] == 5 && stream[1] >= 128 }

  method OffersNoAuth(buf: array<Byte>, n: nat) returns (found: bool)
    requires 2 + n <= buf.Length
    ensures found <==> 0 in buf[2..2 + n]
  {
    found := false;
    for i := 0 to n
      invariant !found && 0 !in buf[2..2 + i]
    {
      if buf[2 + i] == 0 {
        assert buf[2..2 + n][i] == 0;
        return true;
      }
      assert buf[2..2 + (i + 1)] == buf[2..2 + i] + [buf[2 + i]];
    }
  }

  /** handshake_pkgs: version, a list of offered methods, and the choice; without an acceptable method the code 255 is
      sent and the connection goes on all the same. */
  method HandshakePkgs(s: Framing.Socket) returns (outcome: Outcome)
    modifies s
    ensures outcome == Done ==> OffersMethods(old(s.incoming))
    ensures outcome == Done ==>
              var n := 2 + old(s.incoming)[1] as int;
              && s.incoming == old(s.incoming)[n..]
              && s.outgoing == old(s.outgoing) + [5, if 0 in old(s.incoming)[2..n] then 0 else 255]
    ensures old(s.NoFailure() && OffersMethods(s.incoming)) ==> outcome == Done
    ensures outcome == Overrun ==> TooManyMethods(old(s.incoming))
    ensures old(s.NoFailure() && TooManyMethods(s.incoming)) ==> outcome == Overrun
  {
    var buf := new Byte[258];
    outcome := RecvInto(s, buf, 0, 2);
    if outcome != Done {
      return;
    }
    assert buf[..2][0] == buf[0] && buf[..2][1] == buf[1];
    if buf[0] != 5 {
      return Died;
    }
    var n := Widened(buf[1]);
    outcome := RecvInto(s, buf, 2, n);
    if outcome != Done {
      return;
    }
    assert buf[2..2 + n] == old(s.incoming)[2..2 + n];
    var found := OffersNoAuth(buf, n);
    buf[0] := 5;
    buf[1] := if found then 0 else 255;
    assert buf[..2] == [5, if found then 0 else 255];
    var ok := s.SendN(buf[..2]);
    outcome := if ok then Done else Died;
  }

  /** A domain length of 200 does harm in a long stream, and none in a short one. */
  lemma OverrunExists()
    ensures Overruns([5, 1, 0, 3, 200] + Tunnel.Zeros(259)) && Fate([5, 1, 0, 3, 200] + Tunnel.Zeros(259)) == Overrun
    ensures !Overruns([5, 1, 0, 3, 200]) && Fate([5, 1, 0, 3, 200]) == Died
  {
    WantedValues(3, 200);
    var long: Bytes := [5, 1, 0, 3, 200] + Tunnel.Zeros(259);
    assert long[3] == 3 && long[4] == 200;
  }
}
