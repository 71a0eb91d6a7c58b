/** Length-prefixed packets over a byte stream: the loops that move exactly n bytes through a socket whatever the kernel
    does, the C++ and the Go ends built on them, and the proof that packet lists survive every splitting of the
    stream. */
module Framing {

  type Byte = b: int | 0 <= b < 256
  type Bytes = seq<Byte>

  const MAX_PACKET := 64 * 1024 * 1024
  const UINT32 := 0x1_0000_0000

  /** How the kernel treats one call: it may move fewer bytes than asked (but at least one), be interrupted, or fail. */
  datatype Outcome = Partial(n: nat) | Interrupted | Failed

  datatype Moved = Moved(data: Bytes) | Eintr | Error

  function Min(a: nat, b: nat): nat { if a < b then a else b }

  // The wire format

  function Header(n: nat): (h: Bytes)
    requires n < UINT32
    ensures |h| == 4
  {
    [n / 0x100_0000, n / 0x1_0000 % 0x100, n / 0x100 % 0x100, n % 0x100]
  }

  function HeaderValue(h: Bytes): nat
    requires |h| == 4
  {
    var b0: int, b1: int, b2: int, b3: int := h[0], h[1], h[2], h[3];
    0x100_0000 * b0 + 0x1_0000 * b1 + 0x100 * b2 + b3
  }

  /** The most significant byte comes first, as htonl and binary.BigEndian have it. */
  lemma HeaderIsBigEndian(n: nat)
    requires n < UINT32
    ensures Header(n)[0] == n / 0x100_0000 && Header(n)[1] == n / 0x1_0000 % 0x100
    ensures Header(n)[2] == n / 0x100 % 0x100 && Header(n)[3] == n % 0x100
    ensures Header(0x0102_0304) == [1, 2, 3, 4] && HeaderValue([1, 2, 3, 4]) == 0x0102_0304
  {}

  function Frame(p: Bytes): Bytes
    requires |p| < UINT32
  {
    Header(|p|) + p
  }

  datatype Parsed = Packet(data: Bytes, rest: Bytes) | Truncated | TooLarge {
    predicate SameKind(other: Parsed) { (Packet? <==> other.Packet?) && (TooLarge? <==> other.TooLarge?) }
  }

  /** What a receiver makes of a stream that will bring these bytes and then close. */
  function Parse(s: Bytes): Parsed
  {
    if |s| < 4 then Truncated
    else
      var n := HeaderValue(s[..4]);
      if n > MAX_PACKET then TooLarge
      else if |s| < 4 + n then Truncated
      else Packet(s[4..4 + n], s[4 + n..])
  }

  // The two ends

  /** A connected socket: the bytes still to arrive before the peer closes, the bytes handed to the kernel, and the
      misfortunes ahead. When these are used up every call moves as much as it can. */
  class Socket {
    var incoming: Bytes
    var outgoing: Bytes
    var script: seq<Outcome>

    constructor (incoming: Bytes, script: seq<Outcome>)
      ensures this.incoming == incoming && this.script == script && outgoing == []
    {
      this.incoming, this.script, outgoing := incoming, script, [];
    }

    /** The number of bytes a call for n bytes moves when `available` are there. */
    static function Granted(o: Outcome, n: nat, available: nat): nat
    {
      var most := Min(n, available);
      if o.Partial? && 0 < o.n < most then o.n else if o.Partial? && o.n == 0 then Min(1, most) else most
    }

    /** recv: an empty result is end of file. */
    method Recv(n: nat) returns (r: Moved)
      requires n > 0
      modifies this`incoming, this`script
      ensures script == (if old(script) == [] then [] else old(script)[1..])
      ensures r.Moved? ==>
                && |r.data| <= n && old(incoming) == r.data + incoming
                && (r.data == [] <==> old(incoming) == [])
      ensures !r.Moved? ==> incoming == old(incoming)
      ensures r.Eintr? ==> old(script) != []
      ensures r.Error? ==> old(script) != [] && old(script)[0] == Failed
    {
      var o := if script == [] then Partial(n) else script[0];
      script := if script == [] then [] else script[1..];
      match o
      case Interrupted => r := Eintr;
      case Failed => r := Error;
      case Partial(_) =>
        var k := Granted(o, n, |incoming|);
        r := Moved(incoming[..k]);
        incoming := incoming[k..];
    }

    /** send of the whole of a non-empty buffer. */
    method Send(data: Bytes) returns (r: Moved)
      requires data != []
      modifies this`outgoing, this`script
      ensures script == (if old(script) == [] then [] else old(script)[1..])
      ensures r.Moved? ==> r.data <= data && r.data != [] && outgoing == old(outgoing) + r.data
      ensures !r.Moved? ==> outgoing == old(outgoing)
      ensures r.Eintr? ==> old(script) != []
      ensures r.Error? ==> old(script) != [] && old(script)[0] == Failed
    {
      var o := if script == [] then Partial(|data|) else script[0];
      script := if script == [] then [] else script[1..];
      match o
      case Interrupted => r := Eintr;
      case Failed => r := Error;
      case Partial(_) =>
        var k := Granted(o, |data|, |data|);
        r := Moved(data[..k]);
        outgoing := outgoing + data[..k];
    }

    /** Nothing ahead fails outright. */
    ghost predicate NoFailure()
      reads this`script
    {
      Failed !in script
    }

    /** recvn: blocks until n bytes are there; fails on an error or at end of file. */
    method RecvN(n: nat) returns (ok: bool, buffer: Bytes)
      modifies this`incoming, this`script
      ensures old(NoFailure()) ==> NoFailure()
      ensures ok ==> |buffer| == n && old(incoming) == buffer + incoming
      ensures !ok ==> exists read :: |read| < n && old(incoming) == read + incoming
      ensures old(NoFailure()) ==> (ok <==> n <= |old(incoming)|)
    {
      var nleft := n;
      buffer := [];
      while nleft > 0
        invariant 0 <= nleft && nleft + |buffer| == n
        invariant old(incoming) == buffer + incoming
        invariant old(NoFailure()) ==> NoFailure()
        decreases nleft + |script|
      {
        var r := Recv(nleft);
        if !r.Moved? {
          if r.Error? {
            assert |buffer| < n && old(incoming) == buffer + incoming;
            return false, buffer;
          }
        } else if r.data == [] {
          assert |buffer| < n && old(incoming) == buffer + incoming;
          return false, buffer;
        } else {
          nleft := nleft - |r.data|;
          buffer := buffer + r.data;
        }
      }
      ok := true;
    }

    /** sendn: hands all bytes to the kernel or fails after an initial part. */
    method SendN(data: Bytes) returns (ok: bool)
      modifies this`outgoing, this`script
      ensures old(NoFailure()) ==> NoFailure() && ok
      ensures ok ==> outgoing == old(outgoing) + data
      ensures !ok ==> exists sent :: sent <= data && outgoing == old(outgoing) + sent
    {
      var rest := data;
      ghost var sent: Bytes := [];
      while rest != []
        invariant data == sent + rest && outgoing == old(outgoing) + sent
        invariant old(NoFailure()) ==> NoFailure()
        decreases |rest| + |script|
      {
        var r := Send(rest);
        if !r.Moved? {
          if r.Error? {
            assert sent <= data;
            return false;
          }
        } else {
          sent := sent + r.data;
          rest := rest[|r.data|..];
        }
      }
      ok := true;
    }

    /** The C++ sender refuses what the C++ receiver would refuse. */
    method SendLengthAndPacket(data: Bytes) returns (ok: bool)
      requires |data| < UINT32
      modifies this`outgoing, this`script
      ensures old(NoFailure()) ==> NoFailure() && (ok <==> |data| <= MAX_PACKET)
      ensures ok ==> |data| <= MAX_PACKET && outgoing == old(outgoing) + Frame(data)
      ensures |data| > MAX_PACKET ==> outgoing == old(outgoing)
    {
      if |data| > MAX_PACKET {
        return false;
      }
      ok := SendN(Header(|data|));
      if ok {
        ok := SendN(data);
      }
    }

    method RecvLengthAndPacket() returns (r: Parsed)
      modifies this`incoming, this`script
      ensures old(NoFailure()) ==> NoFailure() && r.SameKind(Parse(old(incoming)))
      ensures r.Packet? ==> r == Parse(old(incoming)) && incoming == r.rest
    {
      var ok, n := RecvN(4);
      if !ok {
        return Truncated;
      }
      var length := HeaderValue(n);
      if length > MAX_PACKET {
        return TooLarge;
      }
      var data;
      ok, data := RecvN(length);
      if !ok {
        return Truncated;
      }
      r := Packet(data, incoming);
    }

    /** io.ReadFull of the Go standard library: reads until the buffer is full. An interrupted call is repeated inside
        the runtime. */
    method ReadFull(n: nat) returns (ok: bool, buffer: Bytes)
      modifies this`incoming, this`script
      ensures old(NoFailure()) ==> NoFailure() && (ok <==> n <= |old(incoming)|)
      ensures ok ==> |buffer| == n && old(incoming) == buffer + incoming
    {
      buffer := [];
      ok := true;
      while |buffer| < n && ok
        invariant |buffer| <= n && old(incoming) == buffer + incoming
        invariant old(NoFailure()) ==> NoFailure() && (ok || n > |old(incoming)|)
        decreases n - |buffer| + |script|, ok
      {
        var r := Recv(n - |buffer|);
        if r.Moved? && r.data != [] {
          buffer := buffer + r.data;
        } else if !r.Eintr? {
          ok := false;
        }
      }
      ok := |buffer| == n;
    }

    /** The Go receiver. */
    method ReadB() returns (r: Parsed)
      modifies this`incoming, this`script
      ensures old(NoFailure()) ==> NoFailure() && r.SameKind(Parse(old(incoming)))
      ensures r.Packet? ==> r == Parse(old(incoming)) && incoming == r.rest
    {
      var ok, header := ReadFull(4);
      if !ok {
        return Truncated;
      }
      var size := HeaderValue(header);
      if size > MAX_PACKET {
        return TooLarge;
      }
      var packet;
      ok, packet := ReadFull(size);
      if !ok {
        return Truncated;
      }
      r := Packet(packet, incoming);
    }

    /** The Go sender has no limit of its own, but the length passes through a signed 32-bit integer, and a negative one
        stops the program before anything is sent. */
    method WriteB(data: Bytes) returns (ok: bool)
      requires |data| < UINT32
      modifies this`outgoing, this`script
      ensures old(NoFailure()) ==> NoFailure() && (ok <==> |data| < 0x8000_0000)
      ensures ok ==> outgoing == old(outgoing) + Frame(data)
      ensures |data| >= 0x8000_0000 ==> outgoing == old(outgoing)
    {
      if |data| >= 0x8000_0000 {
        return false;
      }
      ok := SendN(Header(|data|));
      if ok {
        ok := SendN(data);
      }
    }
  }

  // What receivers make of a stream

  lemma HeaderRoundTrip(n: nat)
    requires n < UINT32
    ensures HeaderValue(Header(n)) == n
  {
    var q1, q2, q3 := n / 0x100, n / 0x1_0000, n / 0x100_0000;
    assert q1 == 0x100 * q2 + q1 % 0x100;
    assert q2 == 0x100 * q3 + q2 % 0x100;
  }

  /** The limit is 64 MiB. */
  lemma Limit()
    ensures MAX_PACKET == 67_108_864
  {}

  /** A frame is accepted by either receiver exactly when its packet is within the limit, and then nothing else is
      consumed. */
  lemma ParseFrame(p: Bytes, rest: Bytes)
    requires |p| < UINT32
    ensures Parse(Frame(p) + rest) == if |p| <= MAX_PACKET then Packet(p, rest) else TooLarge
  {
    var s := Frame(p) + rest;
    assert s[..4] == Header(|p|);
    HeaderRoundTrip(|p|);
    if |p| <= MAX_PACKET {
      assert s[4..4 + |p|] == p && s[4 + |p|..] == rest;
    }
  }

  /** A frame that is cut anywhere yields no packet at all. */
  lemma ParseCutFrame(p: Bytes, k: nat)
    requires |p| <= MAX_PACKET && k < 4 + |p|
    ensures Parse(Frame(p)[..k]) == Truncated
  {
    if k >= 4 {
      assert Frame(p)[..k][..4] == Header(|p|);
      HeaderRoundTrip(|p|);
    }
  }

  ghost predicate Sendable(ps: seq<Bytes>) { forall i | 0 <= i < |ps| :: |ps[i]| <= MAX_PACKET }

  function Stream(ps: seq<Bytes>): Bytes
    requires forall i | 0 <= i < |ps| :: |ps[i]| <= MAX_PACKET
  {
    if ps == [] then [] else Frame(ps[0]) + Stream(ps[1..])
  }

  /** All packets a receiver gets before its stream ends or is refused. */
  function ParseAll(s: Bytes): seq<Bytes>
    decreases |s|
  {
    var r := Parse(s);
    if r.Packet? then [r.data] + ParseAll(r.rest) else []
  }

  /** The number of packets whose frames lie wholly within the first k bytes. */
  function Whole(ps: seq<Bytes>, k: nat): (m: nat)
    requires forall i | 0 <= i < |ps| :: |ps[i]| <= MAX_PACKET
    ensures m <= |ps|
  {
    if ps == [] || k < 4 + |ps[0]| then 0 else 1 + Whole(ps[1..], k - (4 + |ps[0]|))
  }

  /** However a stream of packets is cut short, the receiver gets exactly the packets that arrived whole, in order, and
      never a part of one. */
  lemma {:induction false} CutStream(ps: seq<Bytes>, k: nat)
    requires Sendable(ps) && k <= |Stream(ps)|
    ensures ParseAll(Stream(ps)[..k]) == ps[..Whole(ps, k)]
    decreases |ps|
  {
    if ps != [] {
      var f, rest := Frame(ps[0]), Stream(ps[1..]);
      if k < |f| {
        assert Stream(ps)[..k] == f[..k];
        ParseCutFrame(ps[0], k);
      } else {
        assert Stream(ps)[..k] == f + rest[..k - |f|];
        ParseFrame(ps[0], rest[..k - |f|]);
        CutStream(ps[1..], k - |f|);
        assert ps[..Whole(ps, k)] == [ps[0]] + ps[1..][..Whole(ps[1..], k - |f|)];
      }
    }
  }

  lemma {:induction false} WholeStream(ps: seq<Bytes>)
    requires Sendable(ps)
    ensures Whole(ps, |Stream(ps)|) == |ps|
    decreases |ps|
  {
    if ps != [] { WholeStream(ps[1..]); }
  }

  /** The uncut stream gives back exactly the list. */
  lemma StreamRoundTrip(ps: seq<Bytes>)
    requires Sendable(ps)
    ensures ParseAll(Stream(ps)) == ps
  {
    WholeStream(ps);
    CutStream(ps, |Stream(ps)|);
    assert Stream(ps)[..|Stream(ps)|] == Stream(ps) && ps[..|ps|] == ps;
  }

  lemma {:induction false} StreamAppend(ps: seq<Bytes>, i: nat)
    requires Sendable(ps) && i < |ps|
    ensures Stream(ps[..i + 1]) == Stream(ps[..i]) + Frame(ps[i])
    decreases i
  {
    if i == 0 {
      assert ps[..1] == [ps[0]] && ps[..0] == [];
      assert Stream([ps[0]]) == Frame(ps[0]) + Stream([]);
    } else {
      StreamAppend(ps[1..], i - 1);
      assert ps[..i + 1][1..] == ps[1..][..i] && ps[..i][1..] == ps[1..][..i - 1];
    }
  }

  /** From one end to the other with both kernels misbehaving as they like: the receiving end, Go or C++, gets exactly
      the packets that the sending end, Go or C++, was given. */
  method Transfer(sender: Socket, receiver: Socket, ps: seq<Bytes>, goSends: bool, goReceives: bool)
    returns (got: seq<Bytes>)
    requires sender != receiver && Sendable(ps)
    requires sender.outgoing == [] && receiver.incoming == []
    requires sender.NoFailure() && receiver.NoFailure()
    modifies sender, receiver
    ensures got == ps && receiver.incoming == []
  {
    for i := 0 to |ps|
      invariant sender.NoFailure() && receiver.NoFailure()
      invariant sender.outgoing == Stream(ps[..i])
    {
      var ok;
      if goSends {
        ok := sender.WriteB(ps[i]);
      } else {
        ok := sender.SendLengthAndPacket(ps[i]);
      }
      StreamAppend(ps, i);
    }
    assert ps[..|ps|] == ps;
    receiver.incoming := sender.outgoing;
    got := [];
    for i := 0 to |ps|
      invariant receiver.NoFailure()
      invariant got == ps[..i] && receiver.incoming == Stream(ps[i..])
    {
      assert ps[i..][0] == ps[i] && ps[i..][1..] == ps[i + 1..];
      ParseFrame(ps[i], Stream(ps[i + 1..]));
      var r;
      if goReceives {
        r := receiver.ReadB();
      } else {
        r := receiver.RecvLengthAndPacket();
      }
      got := got + [r.data];
    }
  }
}
