/** Encryption of byte strings of any length: key normalisation, the fill mode that pads to whole blocks and records
    the padding length in the last byte, and the less mode that leaves the tail in clear. */
module AesPadding {
  import opened AesSchedule
  import opened AesModes

  const UINT32 := 0x1_0000_0000
  const SIZE_T := 0x1_0000_0000_0000_0000

  function RoundUp(base: nat, mult: nat): (r: nat)
    requires mult > 0
    ensures base < r <= base + mult
  {
    (base / mult) * mult + mult
  }

  function RoundDown(base: nat, mult: nat): (r: nat)
    requires mult > 0
    ensures r <= base < r + mult
  {
    (base / mult) * mult
  }

  /** A multiple that lies between 0 and the modulus is 0. */
  lemma AtLeastOne(k: int, mult: nat, r: nat)
    requires k * mult == r < mult
    ensures r == 0
  {}

  lemma MultipleHasNoRemainder(q: nat, mult: nat)
    requires mult > 0
    ensures q * mult % mult == 0
  {
    var n := q * mult;
    var d, r := n / mult, n % mult;
    assert n == d * mult + r;
    assert (q - d) * mult == q * mult - d * mult;
    AtLeastOne(q - d, mult, r);
  }

  /** With the bounds these functions promise: the least multiple above the base, never the base itself, and the
      greatest multiple that is not above it. */
  lemma RoundsToMultiples(base: nat, mult: nat)
    requires mult > 0
    ensures RoundUp(base, mult) % mult == 0 && RoundDown(base, mult) % mult == 0
    ensures RoundDown(base, mult) == base <==> base % mult == 0
  {
    MultipleHasNoRemainder(base / mult, mult);
    MultipleHasNoRemainder(base / mult + 1, mult);
    assert (base / mult + 1) * mult == base / mult * mult + mult;
  }

  function Zeros(n: nat): (r: seq<bv8>)
    ensures |r| == n
  {
    seq(n, _ => 0)
  }

  /** Short keys are completed with zero bytes, long keys are cut. */
  function NormalKey(key: seq<bv8>): Key
  {
    if |key| < 16 then key + Zeros(16 - |key|) else key[..16]
  }

  /** Byte i of a key, where missing bytes count as zero. */
  function KeyByte(key: seq<bv8>, i: nat): bv8 { if i < |key| then key[i] else 0 }

  /** The keys agree on the sixteen bytes that are used. */
  ghost predicate SameKey(key: seq<bv8>, key': seq<bv8>)
  {
    forall i | 0 <= i < 16 :: KeyByte(key, i) == KeyByte(key', i)
  }

  /** The key that is used has the given key's bytes, so two keys are used alike if and only if they agree on them. */
  lemma NormalKeysAgree(key: seq<bv8>, key': seq<bv8>)
    ensures forall i | 0 <= i < 16 :: NormalKey(key)[i] == KeyByte(key, i)
    ensures NormalKey(key) == NormalKey(key') <==> SameKey(key, key')
  {
    assert forall i | 0 <= i < 16 :: NormalKey(key)[i] == KeyByte(key, i);
    assert forall i | 0 <= i < 16 :: NormalKey(key')[i] == KeyByte(key', i);
  }

  /** The source followed by zero bytes and, last, the number of bytes added. */
  function Padded(src: seq<bv8>): (r: seq<bv8>)
    ensures |r| == RoundUp(|src|, 16) && |r| >= 16
  {
    var delta := RoundUp(|src|, 16) - |src|;
    src + Zeros(delta - 1) + [delta as bv8]
  }

  /** Byte by byte: the source, zeros, and the number of bytes added. */
  lemma PaddedAt(src: seq<bv8>, i: nat)
    requires i < RoundUp(|src|, 16)
    ensures Padded(src)[i] ==
            if i < |src| then src[i] else if i < |Padded(src)| - 1 then 0 else (|Padded(src)| - |src|) as bv8
  {}

  /** A byte read through a signed char. */
  function Signed(b: bv8): int { if b as int < 128 then b as int else b as int - 256 }

  /** The length that decryption reports, in the arithmetic of size_t. */
  function TrimmedLength(length: nat, last: bv8): nat { (length - Signed(last)) % SIZE_T }

  function FillEncrypted(key: seq<bv8>, src: seq<bv8>): (r: seq<bv8>)
    ensures |r| == RoundUp(|src|, 16)
  {
    EcbEncrypted(NormalKey(key), Padded(src))
  }

  function FillDecrypted(key: seq<bv8>, cipher: seq<bv8>): (r: seq<bv8>)
    requires |cipher| >= 16
    ensures |r| == |cipher|
  {
    EcbDecrypted(NormalKey(key), cipher)
  }

  function FillDecryptedLength(key: seq<bv8>, cipher: seq<bv8>): nat
    requires |cipher| >= 16
  {
    TrimmedLength(|cipher|, FillDecrypted(key, cipher)[|cipher| - 1])
  }

  /** Fill mode gives back length and bytes for every source, multiples of 16 included, and for every pair of keys that
      agree on the bytes used. */
  lemma FillRoundTrip(key: seq<bv8>, key': seq<bv8>, src: seq<bv8>)
    requires SameKey(key, key') && |src| < SIZE_T
    ensures FillDecrypted(key', FillEncrypted(key, src)) == Padded(src)
    ensures FillDecryptedLength(key', FillEncrypted(key, src)) == |src|
    ensures FillDecrypted(key', FillEncrypted(key, src))[..|src|] == src
  {
    hide EcbEncrypted, EcbDecrypted, NormalKey, SameKey;
    NormalKeysAgree(key, key');
    EcbRoundTrip(NormalKey(key), Padded(src));
    var delta := RoundUp(|src|, 16) - |src|;
    assert Padded(src)[|Padded(src)| - 1] == delta as bv8;
    assert Signed(delta as bv8) == delta;
  }

  /** Less mode keeps the length; it gives the bytes back whenever there is a whole block to cipher. */
  lemma LessRoundTrip(key: seq<bv8>, key': seq<bv8>, src: seq<bv8>)
    requires SameKey(key, key') && |src| >= 16
    ensures EcbDecrypted(NormalKey(key'), EcbEncrypted(NormalKey(key), src)) == src
  {
    NormalKeysAgree(key, key');
    EcbRoundTrip(NormalKey(key), src);
  }

  method NormalizeKey(key: array<bv8>, keylen: nat) returns (rkey: array<bv8>)
    requires keylen <= key.Length
    ensures fresh(rkey) && rkey.Length == 16 && rkey[..] == NormalKey(key[..keylen])
  {
    rkey := new bv8[16](_ => 0);
    if keylen < 16 {
      Copy(rkey, 0, key, 0, keylen);
    } else {
      Copy(rkey, 0, key, 0, 16);
      assert key[..keylen][..16] == key[..16];
    }
  }

  method EncryptLess(src: array<bv8>, rkey: array<bv8>, cip: array<bv8>, srclen: nat)
    requires srclen <= src.Length && rkey.Length == 16 && cip != src && cip != rkey
    requires srclen <= cip.Length && 16 <= cip.Length
    modifies cip
    ensures cip[..] == old(EcbEncrypted(rkey[..16], src[..srclen] + cip[srclen..]))
  {
    hide EcbEncrypted, RoundDown;
    Copy(cip, 0, src, 0, srclen);
    var n := RoundDown(srclen, 16) % UINT32;
    assert src[..n] + cip[n..] == old(src[..srclen] + cip[srclen..]);
    EcbEncrypt(src, rkey, cip, n);
  }

  /** The padded copy of the source. */
  method PadSource(src: array<bv8>, srclen: nat) returns (rsrc: array<bv8>)
    requires srclen <= src.Length
    ensures fresh(rsrc) && rsrc[..] == Padded(src[..srclen])
  {
    hide RoundUp;
    var up := RoundUp(srclen, 16);
    var delta := (up - srclen) as bv8;
    rsrc := new bv8[up](_ => 0);
    rsrc[up - 1] := delta;
    assert rsrc[srclen..] == Zeros(up - srclen - 1) + [delta];
    Copy(rsrc, 0, src, 0, srclen);
    assert rsrc[..] == src[..srclen] + (Zeros(up - srclen - 1) + [delta]);
  }

  method EncryptFill(src: array<bv8>, rkey: array<bv8>, cip: array<bv8>, srclen: nat)
    requires srclen <= src.Length && rkey.Length == 16 && cip != src && cip != rkey
    requires RoundUp(srclen, 16) <= cip.Length
    modifies cip
    ensures
      var n := RoundUp(srclen, 16) % UINT32;
      cip[..] == old(EcbEncrypted(rkey[..16], Padded(src[..srclen])[..n] + cip[n..]))
  {
    hide EcbEncrypted, RoundUp, Padded;
    var rsrc := PadSource(src, srclen);
    assert rsrc[..] == Padded(src[..srclen]);
    EcbEncrypt(rsrc, rkey, cip, RoundUp(srclen, 16) % UINT32);
  }

  /** The lengths reach the cipher through a 32-bit parameter, so they are cut to 32 bits. */
  method AesEncrypt(src: array<bv8>, key: array<bv8>, cip: array<bv8>, srclen: nat, keylen: nat, less: bool)
    requires srclen <= src.Length && keylen <= key.Length && cip != src && cip != key
    requires less ==> srclen <= cip.Length && 16 <= cip.Length
    requires !less ==> RoundUp(srclen, 16) <= cip.Length
    modifies cip
    ensures less ==>
      cip[..] == old(EcbEncrypted(NormalKey(key[..keylen]), src[..srclen] + cip[srclen..]))
    ensures !less ==>
      var n := RoundUp(srclen, 16) % UINT32;
      cip[..] == old(EcbEncrypted(NormalKey(key[..keylen]), Padded(src[..srclen])[..n] + cip[n..]))
  {
    hide EcbEncrypted, NormalKey, RoundUp, Padded;
    var rkey := NormalizeKey(key, keylen);
    assert rkey[..16] == rkey[..];
    if less {
      EncryptLess(src, rkey, cip, srclen);
    } else {
      EncryptFill(src, rkey, cip, srclen);
    }
  }

  /** The result buffer may be longer than the source. Fill mode reads the last byte of the result, so there must be
      one. */
  method AesDecrypt(src: array<bv8>, key: array<bv8>, result: array<bv8>, srclen: nat, keylen: nat, less: bool)
    returns (n: nat)
    requires srclen <= src.Length && srclen <= result.Length && 16 <= result.Length && keylen <= key.Length
    requires result != src && result != key && (!less ==> srclen > 0)
    modifies result
    ensures less ==>
      result[..] == old(EcbDecrypted(NormalKey(key[..keylen]), src[..srclen] + result[srclen..]))
    ensures !less ==>
      var m := srclen % UINT32;
      result[..] == old(EcbDecrypted(NormalKey(key[..keylen]), src[..m] + result[m..]))
    ensures n == if less then srclen else TrimmedLength(srclen, result[srclen - 1])
  {
    hide EcbDecrypted, NormalKey, RoundDown;
    var rkey := NormalizeKey(key, keylen);
    assert rkey[..16] == rkey[..];
    if less {
      Copy(result, 0, src, 0, srclen);
      var m := RoundDown(srclen, 16) % UINT32;
      assert src[..m] + result[m..] == old(src[..srclen] + result[srclen..]);
      EcbDecrypt(src, rkey, result, m);
      n := srclen;
    } else {
      EcbDecrypt(src, rkey, result, srclen % UINT32);
      n := TrimmedLength(srclen, result[srclen - 1]);
    }
  }
}
