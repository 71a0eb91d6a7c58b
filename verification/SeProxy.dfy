/** The encrypting module: the session-key handshake and the packet codec. Multi-byte fields are stored in the
    host's order, taken to be little-endian, and the packet structure has natural alignment: address at 0, port at
    16, payload size at 20, payload at 24, 28 bytes in all. */
module SeProxy {
  import opened AesPadding
  import opened AesModes
  import opened Decimals

  type Bytes = seq<bv8>

  lemma ByteRoundTrip(n: nat)
    requires n < 256
    ensures (n as bv8) as nat == n
  {
    if n < 16 {} else if n < 32 {} else if n < 64 {} else if n < 96 {} else if n < 128 {}
    else if n < 160 {} else if n < 192 {} else if n < 224 {} else {}
  }

  /** A byte as a number. */
  function Value(b: bv8): (n: nat)
    ensures n < 0x100
  {
    b as nat
  }

  function ByteOf(n: nat): (b: bv8)
    requires n < 0x100
    ensures Value(b) == n
  {
    ByteRoundTrip(n);
    n as bv8
  }

  function Text(s: string): Bytes
    requires forall c | c in s :: c < 128 as char
  {
    seq(|s|, i requires 0 <= i < |s| => (assert s[i] in s; ByteOf(s[i] as int)))
  }

  const AUTH_STR: Bytes := Text("SE_PROXYv1")
  const MAGIC_STR: Bytes := Text("SE_MAGIC")

  lemma Literals()
    ensures |AUTH_STR| == 10 && |MAGIC_STR| == 8
  {}

  lemma AuthBytes()
    ensures AUTH_STR == [0x53, 0x45, 0x5f, 0x50, 0x52, 0x4f, 0x58, 0x59, 0x76, 0x31]
  {}

  lemma MagicBytes()
    ensures MAGIC_STR == [0x53, 0x45, 0x5f, 0x4d, 0x41, 0x47, 0x49, 0x43]
  {}

  /** What sprintf writes for a non-negative number. */
  function Decimal(n: nat): (r: Bytes)
    ensures |r| >= 1
  {
    if n < 10 then [ByteOf(48 + n)] else Decimal(n / 10) + [ByteOf(48 + n % 10)]
  }

  lemma DigitByte(d: nat)
    requires d < 10
    ensures "0123456789"[d] as int == 48 + d
  {}

  /** These are the digits of the number. */
  lemma {:induction false} DecimalIsDigits(n: nat)
    ensures |Decimal(n)| == |Digits(n)|
    ensures forall i | 0 <= i < |Digits(n)| :: Digits(n)[i] as int == Value(Decimal(n)[i])
  {
    hide ByteOf, Value;
    var s, b, m := Digits(n), Decimal(n), |Digits(n)| - 1;
    DigitByte(n % 10);
    if n >= 10 {
      DecimalIsDigits(n / 10);
      assert s[..m] == Digits(n / 10) && b[..m] == Decimal(n / 10);
      forall i | 0 <= i < |s| ensures s[i] as int == Value(b[i]) {
        if i < m {
          assert s[i] == s[..m][i] && b[i] == b[..m][i];
        }
      }
    }
  }

  function Underscored(n: nat): Bytes { [95] + Decimal(n) }

  datatype ClientQuery = ClientQuery(ip: Bytes, port: nat, payload: Bytes) {
    predicate Valid() { |ip| == 16 && port < 0x1_0000 && |payload| < UINT32 }
  }

  /** Decoding yields a query, gives up on a packet that is too short, or follows a size field out of the buffer,
      which the program does not detect. */
  datatype Decoded = Query(query: ClientQuery) | TooShort | OutOfBounds

  function Le16(a: bv8, b: bv8): nat { Value(a) + 0x100 * Value(b) }

  function Le32(a: bv8, b: bv8, c: bv8, d: bv8): nat
  {
    Value(a) + 0x100 * Value(b) + 0x1_0000 * Value(c) + 0x100_0000 * Value(d)
  }

  /** The bytes of the packet structure that carry the query; the others are whatever the allocator left there. */
  ghost predicate Image(q: ClientQuery, data: Bytes)
  {
    && q.Valid()
    && |data| == 27 + |q.payload|
    && data[..16] == q.ip
    && Le16(data[16], data[17]) == q.port
    && Le32(data[20], data[21], data[22], data[23]) == |q.payload|
    && data[24..24 + |q.payload|] == q.payload
  }

  lemma BytesOf(a: nat, b: nat, c: nat, d: nat)
    requires a < 0x100 && b < 0x100 && c < 0x100 && d < 0x100
    ensures var n := a + 0x100 * b + 0x1_0000 * c + 0x100_0000 * d;
            n % 0x100 == a && n / 0x100 % 0x100 == b && n / 0x1_0000 % 0x100 == c && n / 0x100_0000 == d
  {}

  lemma Le16Bytes(a: bv8, b: bv8)
    ensures Le16(a, b) % 0x100 == Value(a) && Le16(a, b) / 0x100 == Value(b)
  {
    hide Value;
    BytesOf(Value(a), Value(b), 0, 0);
  }

  lemma Le32Bytes(a: bv8, b: bv8, c: bv8, d: bv8)
    ensures var n := Le32(a, b, c, d);
            && n % 0x100 == Value(a) && n / 0x100 % 0x100 == Value(b)
            && n / 0x1_0000 % 0x100 == Value(c) && n / 0x100_0000 == Value(d)
  {
    hide Value;
    BytesOf(Value(a), Value(b), Value(c), Value(d));
  }

  /** Where the fields are, and the order of their bytes. */
  lemma ImageBytes(q: ClientQuery, data: Bytes)
    requires Image(q, data)
    ensures Value(data[16]) == q.port % 0x100 && Value(data[17]) == q.port / 0x100
    ensures Value(data[20]) == |q.payload| % 0x100 && Value(data[21]) == |q.payload| / 0x100 % 0x100
    ensures Value(data[22]) == |q.payload| / 0x1_0000 % 0x100 && Value(data[23]) == |q.payload| / 0x100_0000
  {
    hide Le16, Le32;
    Le16Bytes(data[16], data[17]);
    Le32Bytes(data[20], data[21], data[22], data[23]);
  }

  /** The length that decryption reports is kept in 32 bits. */
  function DecodeImage(data: Bytes, length: nat): Decoded
  {
    if length % UINT32 <= 24 then TooShort
    else if |data| < 24 then OutOfBounds
    else
      var size := Le32(data[20], data[21], data[22], data[23]);
      if 24 + size > |data| then OutOfBounds
      else Query(ClientQuery(data[..16], Le16(data[16], data[17]), data[24..24 + size]))
  }

  /** Decryption works on a whole block, whatever the size of the buffers. */
  function DecodePacket(session: Bytes, packet: Bytes): Decoded
  {
    if |packet| < 16 then OutOfBounds
    else DecodeImage(FillDecrypted(session, packet), FillDecryptedLength(session, packet))
  }

  /** Whatever the unused bytes of the structure hold, decoding restores address, port and payload of every structure
      that has a 32-bit length. */
  lemma DecodeEncode(session: Bytes, session': Bytes, q: ClientQuery, data: Bytes)
    requires Image(q, data) && |data| < UINT32 && SameKey(session, session')
    ensures DecodePacket(session', FillEncrypted(session, data)) == Query(q)
  {
    hide FillEncrypted, FillDecrypted, NormalKey, Le16, Le32;
    FillRoundTrip(session, session', data);
    var d := FillDecrypted(session', FillEncrypted(session, data));
    assert d[..|data|] == data;
    assert d[..16] == data[..16] && d[24..24 + |q.payload|] == data[24..24 + |q.payload|];
    assert d[16] == data[16] && d[17] == data[17] && d[20] == data[20] && d[21] == data[21];
    assert d[22] == data[22] && d[23] == data[23];
  }

  /** Every packet of a block or more is the encryption of some image. Decoding leaves its buffer if and only if the
      image passes for long enough by its last byte, but is too short for the header or for the size that this
      claims. */
  lemma DecodeLeavesBuffer(session: Bytes, session': Bytes, p: Bytes)
    requires |p| >= 16 && SameKey(session, session')
    ensures DecodePacket(session', EcbEncrypted(NormalKey(session), p)) == OutOfBounds <==>
            && TrimmedLength(|p|, p[|p| - 1]) % UINT32 > 24
            && (|p| < 24 || 24 + Le32(p[20], p[21], p[22], p[23]) > |p|)
    ensures DecodePacket(session', EcbEncrypted(NormalKey(session), p)) == TooShort <==>
            TrimmedLength(|p|, p[|p| - 1]) % UINT32 <= 24
  {
    hide EcbEncrypted, EcbDecrypted, NormalKey, TrimmedLength, Le16, Le32, SameKey;
    NormalKeysAgree(session, session');
    EcbRoundTrip(NormalKey(session), p);
  }

  /** For what a peer pads as it should: if and only if the size field claims more than the padded structure has. */
  lemma DecodeOfPadded(session: Bytes, session': Bytes, data: Bytes)
    requires 24 < |data| < UINT32 && SameKey(session, session')
    ensures DecodePacket(session', FillEncrypted(session, data)) == OutOfBounds <==>
            24 + Le32(data[20], data[21], data[22], data[23]) > RoundUp(|data|, 16)
  {
    hide EcbEncrypted, NormalKey, Le32, FillDecrypted, FillDecryptedLength, RoundUp;
    FillRoundTrip(session, session', data);
    var d := FillDecrypted(session', FillEncrypted(session, data));
    assert d[20] == data[20] && d[21] == data[21] && d[22] == data[22] && d[23] == data[23];
  }

  /** For instance 25 bytes that claim a payload of 200. */
  lemma OutOfBoundsExists(session: Bytes)
    ensures DecodePacket(session, FillEncrypted(session, Zeros(20) + [200, 0, 0, 0, 0])) == OutOfBounds
  {
    var data := Zeros(20) + [200, 0, 0, 0, 0];
    DecodeOfPadded(session, session, data);
    assert data[20] == 200 && data[21] == 0 && data[22] == 0 && data[23] == 0;
    assert Value(200) == 200 && Value(0) == 0;
  }

  /** What the server asks of a client's query: exactly the fixed text. */
  predicate IsAuth(passphrase: Bytes, data: Bytes)
    requires |data| >= 16
  {
    && FillDecryptedLength(passphrase, data) == |AUTH_STR|
    && (Literals(); FillDecrypted(passphrase, data)[..|AUTH_STR|] == AUTH_STR)
  }

  /** The server accepts what a client with its passphrase encrypted if and only if that is the fixed text. */
  lemma AuthExactly(client: Bytes, server: Bytes, p: Bytes)
    requires |p| < SIZE_T && SameKey(client, server)
    ensures |FillEncrypted(client, p)| >= 16 && (IsAuth(server, FillEncrypted(client, p)) <==> p == AUTH_STR)
  {
    hide FillDecrypted, FillDecryptedLength, FillEncrypted, NormalKey, SameKey;
    Literals();
    FillRoundTrip(client, server, p);
  }

  /** The reply was refused, or accepted with a session key, or a buffer was left, which the program does not detect. */
  datatype AuthOutcome = Rejected | Accepted(session: Bytes) | Overrun

  function DealtReply(passphrase: Bytes, reply: Bytes): AuthOutcome
  {
    if |reply| < 16 then Overrun
    else
      var result, n := FillDecrypted(passphrase, reply), FillDecryptedLength(passphrase, reply);
      if result[..8] != MAGIC_STR then Rejected
      else if 8 <= n <= |reply| then Accepted(result[8..n])
      else Overrun
  }

  lemma SignedRange(b: bv8)
    ensures -128 <= Signed(b) < 128
  {}

  /** A reply of a block or more makes the client leave its buffer if and only if its image begins with the magic text
      and its last byte, taken as signed, puts the length before the end of that text or behind the end of the image. */
  lemma ReplyLeavesBuffer(client: Bytes, server: Bytes, p: Bytes)
    requires 16 <= |p| < UINT32 && SameKey(client, server)
    ensures DealtReply(client, EcbEncrypted(NormalKey(server), p)) == Overrun <==>
            MAGIC_STR <= p && !(8 <= |p| - Signed(p[|p| - 1]) <= |p|)
    ensures DealtReply(client, EcbEncrypted(NormalKey(server), p)) == Rejected <==> !(MAGIC_STR <= p)
  {
    hide EcbEncrypted, EcbDecrypted, NormalKey, Signed, SameKey;
    Literals();
    NormalKeysAgree(client, server);
    EcbRoundTrip(NormalKey(server), p);
    SignedRange(p[|p| - 1]);
  }

  /** For instance a single block that claims to be all padding. */
  lemma OverrunExists(passphrase: Bytes)
    ensures DealtReply(passphrase, EcbEncrypted(NormalKey(passphrase), MAGIC_STR + Zeros(7) + [16])) == Overrun
  {
    Literals();
    var p := MAGIC_STR + Zeros(7) + [16];
    ReplyLeavesBuffer(passphrase, passphrase, p);
    assert p[|p| - 1] == 16 && Signed(16) == 16;
    assert MAGIC_STR <= p;
  }

  /** A packet that is shorter than a query's payload does not decode to it. */
  lemma ShortPacket(session: Bytes, packet: Bytes, q: ClientQuery)
    requires |packet| < |q.payload|
    ensures DecodePacket(session, packet) != Query(q)
  {}

  // Helpers over buffers

  method FromSeq(s: Bytes) returns (a: array<bv8>)
    ensures fresh(a) && a[..] == s
  {
    a := new bv8[|s|](i requires 0 <= i < |s| => s[i]);
  }

  /** A buffer of the padded size is encrypted, and as much of it is kept as a 32-bit length can say. */
  method EncryptWhole(src: array<bv8>, key: array<bv8>) returns (packet: array<bv8>)
    ensures fresh(packet) && packet.Length == RoundUp(src.Length, 16) % UINT32
    ensures RoundUp(src.Length, 16) < UINT32 ==> packet[..] == FillEncrypted(key[..], src[..])
  {
    hide EcbEncrypted, NormalKey, RoundUp;
    var n := RoundUp(src.Length, 16);
    var cip := new bv8[n](_ => 0);
    assert src[..src.Length] == src[..] && key[..key.Length] == key[..];
    AesEncrypt(src, key, cip, src.Length, key.Length, false);
    packet := new bv8[n % UINT32];
    Copy(packet, 0, cip, 0, n % UINT32);
    if n < UINT32 {
      assert Padded(src[..])[..n] + Zeros(0) == Padded(src[..]);
      assert packet[..] == cip[..];
    }
  }

  method DecryptWhole(data: array<bv8>, key: array<bv8>) returns (result: array<bv8>, n: nat)
    requires 16 <= data.Length < UINT32
    ensures fresh(result) && result[..] == FillDecrypted(key[..], data[..])
    ensures n == FillDecryptedLength(key[..], data[..])
  {
    hide EcbDecrypted, NormalKey, TrimmedLength;
    result := new bv8[data.Length];
    assert data[..data.Length] + result[data.Length..] == data[..];
    n := AesDecrypt(data, key, result, data.Length, key.Length, false);
    assert data[..data.Length] == data[..] && key[..key.Length] == key[..];
  }

  /** Comparison of two strings with their lengths. */
  method FullCompare(a: array<bv8>, b: Bytes, alen: nat) returns (same: bool)
    requires |b| <= a.Length
    ensures same <==> alen == |b| && a[..|b|] == b
  {
    if alen != |b| {
      return false;
    }
    for i := 0 to alen
      invariant a[..i] == b[..i]
    {
      if a[i] != b[i] {
        assert a[..|b|][i] != b[i];
        return false;
      }
    }
    return true;
  }

  method StoreBytes(buffer: array<bv8>, off: nat, s: Bytes)
    requires off + |s| <= buffer.Length
    modifies buffer
    ensures buffer[..] == old(buffer[..off]) + s + old(buffer[off + |s|..])
  {
    for i := 0 to |s|
      invariant forall j | off <= j < off + i :: buffer[j] == s[j - off]
      invariant forall j | 0 <= j < buffer.Length && !(off <= j < off + i) :: buffer[j] == old(buffer[j])
    {
      buffer[off + i] := s[i];
    }
  }

  lemma FourBytes(n: nat)
    requires n < UINT32
    ensures n / 0x100_0000 < 0x100
    ensures n == n % 0x100 + 0x100 * (n / 0x100 % 0x100) + 0x1_0000 * (n / 0x1_0000 % 0x100) +
                 0x100_0000 * (n / 0x100_0000)
  {
    var q1, q2, q3 := n / 0x100, n / 0x1_0000, n / 0x100_0000;
    assert q1 == 0x100 * q2 + q1 % 0x100;
    assert q2 == 0x100 * q3 + q2 % 0x100;
  }

  method StoreHeader(buffer: array<bv8>, port: nat, size: nat)
    requires buffer.Length >= 27 && port < 0x1_0000 && size < UINT32
    modifies buffer
    ensures buffer[..16] == old(buffer[..16])
    ensures Le16(buffer[16], buffer[17]) == port
    ensures Le32(buffer[20], buffer[21], buffer[22], buffer[23]) == size
  {
    hide ByteOf, Value;
    var b0, b1, b2, b3 := size % 0x100, size / 0x100 % 0x100, size / 0x1_0000 % 0x100, size / 0x100_0000;
    FourBytes(size);
    buffer[16], buffer[17] := ByteOf(port % 0x100), ByteOf(port / 0x100);
    buffer[20], buffer[21], buffer[22], buffer[23] := ByteOf(b0), ByteOf(b1), ByteOf(b2), ByteOf(b3);
  }

  /** The packet structure of a query. */
  method StoreImage(q: ClientQuery) returns (buffer: array<bv8>)
    requires q.Valid()
    ensures fresh(buffer) && buffer.Length == 27 + |q.payload| && Image(q, buffer[..])
  {
    hide Le16, Le32;
    buffer := new bv8[27 + |q.payload|];
    StoreBytes(buffer, 0, q.ip);
    assert buffer[..16] == q.ip;
    StoreHeader(buffer, q.port, |q.payload|);
    ghost var header := buffer[..24];
    StoreBytes(buffer, 24, q.payload);
    assert buffer[..][..24] == header && buffer[..][24..24 + |q.payload|] == q.payload;
    assert buffer[..][..16] == header[..16] == q.ip;
  }

  function Power10(d: nat): nat { if d == 0 then 1 else 10 * Power10(d - 1) }

  lemma {:induction false} DecimalGrowth(n: nat, d: nat)
    requires d > 0 && n < Power10(d)
    ensures |Decimal(n)| <= d
  {
    if n >= 10 {
      DecimalGrowth(n / 10, d - 1);
    }
  }

  /** The longest decimal that rand() can produce has ten digits, so both sprintf targets are large enough. */
  lemma DecimalLength(n: nat)
    requires n < 0x8000_0000
    ensures |Decimal(n)| <= 10
  {
    DecimalGrowth(n, 10);
  }

  class ConnectInfo {
    const passphrase: array<bv8>
    /** The session key, once the handshake has set it. */
    var additionalInfo: array?<bv8>

    constructor (passphrase: array<bv8>)
      ensures this.passphrase == passphrase && additionalInfo == null
    {
      this.passphrase := passphrase;
      additionalInfo := null;
    }

    ghost predicate HasSession(key: Bytes)
      reads this, additionalInfo
    {
      additionalInfo != null && additionalInfo[..] == key
    }

    method ClientMakeAuthQuery() returns (query: array<bv8>)
      modifies this
      ensures additionalInfo == null && fresh(query)
      ensures query[..] == FillEncrypted(passphrase[..], AUTH_STR)
    {
      additionalInfo := null;
      var src := FromSeq(AUTH_STR);
      query := EncryptWhole(src, passphrase);
    }

    /** rnd is the outcome of rand(). A request of less than a block makes decryption leave its buffer; there is no
        reply then. */
    method ServerMakeAuthReply(data: array<bv8>, rnd: nat) returns (reply: array?<bv8>, isClosing: bool)
      requires data.Length < UINT32 && rnd < 0x8000_0000
      modifies this
      ensures reply == null <==> data.Length < 16
      ensures reply == null ==> additionalInfo == old(additionalInfo)
      ensures reply != null ==> fresh(reply) && (isClosing <==> !IsAuth(passphrase[..], data[..]))
      ensures reply != null && isClosing ==> reply[..] == [1] && additionalInfo == old(additionalInfo)
      ensures reply != null && !isClosing ==>
              HasSession(Underscored(rnd)) && reply[..] == FillEncrypted(passphrase[..], MAGIC_STR + Underscored(rnd))
    {
      if data.Length < 16 {
        return null, true;
      }
      Literals();
      var request, rlen := DecryptWhole(data, passphrase);
      var same := FullCompare(request, AUTH_STR, rlen);
      if !same {
        isClosing := true;
        reply := new bv8[1](_ => 1);
        return;
      }
      DecimalLength(rnd);
      var tmpenc := FromSeq(MAGIC_STR + Underscored(rnd));
      reply := EncryptWhole(tmpenc, passphrase);
      additionalInfo := FromSeq(Underscored(rnd));
      isClosing := false;
    }

    method ClientDealAuthReply(serverReply: array<bv8>) returns (outcome: AuthOutcome)
      requires serverReply.Length < UINT32
      modifies this
      ensures outcome == DealtReply(passphrase[..], serverReply[..])
      ensures outcome.Accepted? ==> HasSession(outcome.session) && fresh(additionalInfo)
      ensures !outcome.Accepted? ==> additionalInfo == old(additionalInfo)
    {
      if serverReply.Length < 16 {
        return Overrun;
      }
      Literals();
      var result, rlen := DecryptWhole(serverReply, passphrase);
      if result[..8] != MAGIC_STR {
        return Rejected;
      }
      if !(8 <= rlen <= serverReply.Length) {
        return Overrun;
      }
      additionalInfo := FromSeq(result[8..rlen]);
      outcome := Accepted(result[8..rlen]);
    }

    // The client's and the server's encode and decode have the same bodies.

    /** The packet encrypts a structure that carries the query; its unused bytes are not initialised. The packet
        decodes to the query, under every session key that agrees on the bytes used, if and only if its length fits
        into 32 bits; when it does not, at most 32 bytes are sent. */
    method Encode(q: ClientQuery) returns (packet: array<bv8>)
      requires q.Valid() && additionalInfo != null
      ensures packet.Length == RoundUp(27 + |q.payload|, 16) % UINT32
      ensures |q.payload| <= UINT32 - 44 ==>
                exists data :: Image(q, data) && packet[..] == FillEncrypted(additionalInfo[..], data)
      ensures forall session | SameKey(additionalInfo[..], session) ::
                DecodePacket(session, packet[..]) == Query(q) <==> |q.payload| <= UINT32 - 44
    {
      ghost var data;
      packet, data := EncodeImage(q);
      hide FillEncrypted, NormalKey, DecodePacket, RoundUp;
      forall session | SameKey(additionalInfo[..], session)
        ensures DecodePacket(session, packet[..]) == Query(q) <==> |q.payload| <= UINT32 - 44
      {
        if |q.payload| <= UINT32 - 44 {
          DecodeEncode(additionalInfo[..], session, q, data);
        } else {
          ShortPacket(session, packet[..], q);
        }
      }
    }

    method EncodeImage(q: ClientQuery) returns (packet: array<bv8>, ghost data: Bytes)
      requires q.Valid() && additionalInfo != null
      ensures packet.Length == RoundUp(27 + |q.payload|, 16) % UINT32
      ensures Image(q, data)
      ensures |q.payload| <= UINT32 - 44 ==> packet[..] == FillEncrypted(additionalInfo[..], data)
      ensures |q.payload| > UINT32 - 44 ==> packet.Length <= 32
    {
      hide Image;
      var buffer := StoreImage(q);
      data := buffer[..];
      packet := EncryptWhole(buffer, additionalInfo);
    }

    method Decode(packet: array<bv8>) returns (r: Decoded)
      requires packet.Length < UINT32 && additionalInfo != null
      ensures r == DecodePacket(additionalInfo[..], packet[..])
    {
      hide Le16, Le32, FillDecrypted, FillDecryptedLength;
      if packet.Length < 16 {
        return OutOfBounds;
      }
      var result, length := DecryptWhole(packet, additionalInfo);
      length := length % UINT32;
      if length <= 24 {
        return TooShort;
      }
      if result.Length < 24 {
        return OutOfBounds;
      }
      var size := Le32(result[20], result[21], result[22], result[23]);
      if 24 + size > result.Length {
        return OutOfBounds;
      }
      r := Query(ClientQuery(result[..16], Le16(result[16], result[17]), result[24..24 + size]));
    }
  }

  // The handshake

  lemma UnderscoredLength(rnd: nat)
    requires rnd < 0x8000_0000
    ensures |Underscored(rnd)| <= 11
  {
    DecimalLength(rnd);
  }

  /** With passphrases that agree on the sixteen bytes used, whatever number the server draws, the server accepts the
      client's query, the client accepts the server's reply, and both end with the same session key. */
  lemma HandshakeAgrees(client: Bytes, server: Bytes, rnd: nat)
    requires SameKey(client, server)
    requires rnd < 0x8000_0000
    ensures
      var query := FillEncrypted(client, AUTH_STR);
      |query| >= 16 && FillDecryptedLength(server, query) == |AUTH_STR| &&
      FillDecrypted(server, query)[..|AUTH_STR|] == AUTH_STR
    ensures
      var reply := FillEncrypted(server, MAGIC_STR + Underscored(rnd));
      |reply| >= 16 && DealtReply(client, reply) == Accepted(Underscored(rnd))
  {
    hide FillEncrypted, FillDecrypted, NormalKey, Underscored;
    Literals();
    DecimalLength(rnd);
    FillRoundTrip(client, server, AUTH_STR);
    var m := MAGIC_STR + Underscored(rnd);
    assert |m| < 100 by { UnderscoredLength(rnd); }
    FillRoundTrip(server, client, m);
    var d := FillDecrypted(client, FillEncrypted(server, m));
    assert d[..|m|] == m;
    assert d[..8] == m[..8] == MAGIC_STR;
    assert d[8..|m|] == m[8..] == Underscored(rnd);
  }

  /** The whole exchange between two connections: after the handshake a query encoded on either side is decoded
      unchanged on the other. */
  method HandshakeThenExchange(client: ConnectInfo, server: ConnectInfo, rnd: nat, up: ClientQuery, down: ClientQuery)
    returns (up': Decoded, down': Decoded)
    requires client != server
    requires SameKey(client.passphrase[..], server.passphrase[..])
    requires rnd < 0x8000_0000
    requires up.Valid() && down.Valid()
    modifies client, server
    ensures up' == Query(up) <==> |up.payload| <= UINT32 - 44
    ensures down' == Query(down) <==> |down.payload| <= UINT32 - 44
  {
    hide FillEncrypted, FillDecrypted, FillDecryptedLength, NormalKey, DecodePacket, DealtReply, Underscored, RoundUp;
    HandshakeAgrees(client.passphrase[..], server.passphrase[..], rnd);
    Literals();
    UnderscoredLength(rnd);
    var query := client.ClientMakeAuthQuery();
    var reply, isClosing := server.ServerMakeAuthReply(query, rnd);
    var outcome := client.ClientDealAuthReply(reply);
    var packet := client.Encode(up);
    up' := server.Decode(packet);
    packet := server.Encode(down);
    down' := client.Decode(packet);
  }
}
