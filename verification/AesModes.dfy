/** The cipher run in place, and the two ways the program applies it to a buffer: the single-block mode, which
    ciphers the first 16 bytes and copies the rest, and cipher block chaining. */
module AesModes {
  import C = AesCipher
  import opened AesInPlace
  import opened AesSchedule

  lemma ReplacedTwice(s: seq<bv8>, off: nat, b: C.State, b': C.State)
    requires off + 16 <= |s|
    ensures Block(Replaced(s, off, b), off) == b
    ensures Replaced(Replaced(s, off, b), off, b') == Replaced(s, off, b')
    ensures |Replaced(s, off, b)| == |s|
    ensures Replaced(s, off, Block(s, off)) == s
  {}

  /** One full round in place. */
  method Round(round: nat, buf: array<bv8>, off: nat, roundKey: array<bv8>)
    requires 0 < round < C.NR && off + 16 <= buf.Length && roundKey.Length == 176 && roundKey != buf
    modifies buf
    ensures
      buf[..] ==
      old(Replaced(buf[..], off,
                   C.AddRoundKey(C.MixColumns(C.ShiftRows(C.SubBytes(Block(buf[..], off)))), roundKey[..], round)))
  {
    hide *;
    ghost var before := buf[..];
    ghost var b1 := C.SubBytes(Block(before, off));
    ghost var b2 := C.ShiftRows(b1);
    ghost var b3 := C.MixColumns(b2);
    ghost var b4 := C.AddRoundKey(b3, roundKey[..], round);
    ReplacedTwice(before, off, b1, b2); ReplacedTwice(before, off, b2, b3); ReplacedTwice(before, off, b3, b4);
    SubBytes(buf, off);
    ShiftRows(buf, off);
    MixColumns(buf, off);
    AddRoundKey(round, buf, off, roundKey);
  }

  method Cipher(buf: array<bv8>, off: nat, roundKey: array<bv8>)
    requires off + 16 <= buf.Length && roundKey.Length == 176 && roundKey != buf
    modifies buf
    ensures buf[..] == old(Replaced(buf[..], off, C.Cipher(Block(buf[..], off), roundKey[..])))
  {
    hide Block, Replaced, C.AddRoundKey, C.SubBytes, C.ShiftRows, C.MixColumns;
    ghost var before, w := buf[..], roundKey[..];
    ghost var block := Block(before, off);
    ReplacedTwice(before, off, block, block);
    AddRoundKey(0, buf, off, roundKey);
    for round := 1 to C.NR
      invariant buf[..] == Replaced(before, off, C.Rounds(block, w, round - 1))
    {
      ghost var b := C.Rounds(block, w, round - 1);
      Round(round, buf, off, roundKey);
      ReplacedTwice(before, off, b, C.AddRoundKey(C.MixColumns(C.ShiftRows(C.SubBytes(b))), w, round));
    }
    ghost var b0 := C.Rounds(block, w, C.NR - 1);
    ghost var b1 := C.SubBytes(b0);
    ghost var b2 := C.ShiftRows(b1);
    ReplacedTwice(before, off, b0, b1); ReplacedTwice(before, off, b1, b2);
    ReplacedTwice(before, off, b2, C.AddRoundKey(b2, w, C.NR));
    SubBytes(buf, off);
    ShiftRows(buf, off);
    AddRoundKey(C.NR, buf, off, roundKey);
  }

  /** One inverse round in place. */
  method InvRound(round: nat, buf: array<bv8>, off: nat, roundKey: array<bv8>)
    requires 0 < round < C.NR && off + 16 <= buf.Length && roundKey.Length == 176 && roundKey != buf
    modifies buf
    ensures buf[..] == old(Replaced(buf[..], off, C.InvRound(Block(buf[..], off), roundKey[..], round)))
  {
    hide Block, Replaced, C.AddRoundKey, C.InvSubBytes, C.InvShiftRows, C.InvMixColumns;
    ghost var before := buf[..];
    ghost var b1 := C.InvShiftRows(Block(before, off));
    ghost var b2 := C.InvSubBytes(b1);
    ghost var b3 := C.AddRoundKey(b2, roundKey[..], round);
    ghost var b4 := C.InvMixColumns(b3);
    ReplacedTwice(before, off, b1, b2); ReplacedTwice(before, off, b2, b3); ReplacedTwice(before, off, b3, b4);
    InvShiftRows(buf, off);
    InvSubBytes(buf, off);
    AddRoundKey(round, buf, off, roundKey);
    InvMixColumns(buf, off);
  }

  method InvCipher(buf: array<bv8>, off: nat, roundKey: array<bv8>)
    requires off + 16 <= buf.Length && roundKey.Length == 176 && roundKey != buf
    modifies buf
    ensures buf[..] == old(Replaced(buf[..], off, C.InvCipher(Block(buf[..], off), roundKey[..])))
  {
    hide Block, Replaced, C.AddRoundKey, C.InvSubBytes, C.InvShiftRows, C.InvRound;
    ghost var before, w := buf[..], roundKey[..];
    ghost var start := C.AddRoundKey(Block(before, off), w, C.NR);
    ghost var b := start;
    AddRoundKey(C.NR, buf, off, roundKey);
    var round := C.NR - 1;
    while round > 0
      invariant 0 <= round < C.NR
      invariant buf[..] == Replaced(before, off, b)
      invariant C.InvRounds(start, w, C.NR - 1) == C.InvRounds(b, w, round)
    {
      ReplacedTwice(before, off, b, C.InvRound(b, w, round));
      InvRound(round, buf, off, roundKey);
      b := C.InvRound(b, w, round);
      round := round - 1;
    }
    ghost var b1 := C.InvShiftRows(b);
    ghost var b2 := C.InvSubBytes(b1);
    ReplacedTwice(before, off, b, b1); ReplacedTwice(before, off, b1, b2);
    ReplacedTwice(before, off, b2, C.AddRoundKey(b2, w, 0));
    InvShiftRows(buf, off);
    InvSubBytes(buf, off);
    AddRoundKey(0, buf, off, roundKey);
  }

  /** memcpy between two different buffers. */
  method Copy(dst: array<bv8>, dstOff: nat, src: array<bv8>, srcOff: nat, n: nat)
    requires dst != src && dstOff + n <= dst.Length && srcOff + n <= src.Length
    modifies dst
    ensures dst[..] == old(dst[..dstOff] + src[srcOff..srcOff + n] + dst[dstOff + n..])
  {
    for i := 0 to n
      invariant forall j | dstOff <= j < dstOff + i :: dst[j] == src[srcOff + (j - dstOff)]
      invariant forall j | 0 <= j < dst.Length && !(dstOff <= j < dstOff + i) :: dst[j] == old(dst[j])
    {
      dst[dstOff + i] := src[srcOff + i];
    }
  }

  // Single-block mode

  function EcbEncrypted(key: Key, data: seq<bv8>): (r: seq<bv8>)
    requires |data| >= 16
    ensures |r| == |data|
  {
    C.Cipher(data[..16], Schedule(key)) + data[16..]
  }

  function EcbDecrypted(key: Key, data: seq<bv8>): (r: seq<bv8>)
    requires |data| >= 16
    ensures |r| == |data|
  {
    C.InvCipher(data[..16], Schedule(key)) + data[16..]
  }

  lemma EcbRoundTrip(key: Key, data: seq<bv8>)
    requires |data| >= 16
    ensures EcbDecrypted(key, EcbEncrypted(key, data)) == data
  {
    hide C.Cipher, C.InvCipher;
    C.InvCipherUndoesCipher(data[..16], Schedule(key));
    var e := EcbEncrypted(key, data);
    assert e[..16] == C.Cipher(data[..16], Schedule(key)) && e[16..] == data[16..];
  }

  method EcbEncrypt(input: array<bv8>, key: array<bv8>, output: array<bv8>, length: nat)
    requires length <= input.Length && length <= output.Length && 16 <= output.Length && 16 <= key.Length
    requires output != input && output != key
    modifies output
    ensures output[..] == old(EcbEncrypted(key[..16], input[..length] + output[length..]))
  {
    hide C.Cipher, Schedule;
    var roundKey := new bv8[176];
    Copy(output, 0, input, 0, length);
    assert output[..] == old(input[..length] + output[length..]);
    KeyExpansion(key, roundKey);
    Cipher(output, 0, roundKey);
  }

  method EcbDecrypt(input: array<bv8>, key: array<bv8>, output: array<bv8>, length: nat)
    requires length <= input.Length && length <= output.Length && 16 <= output.Length && 16 <= key.Length
    requires output != input && output != key
    modifies output
    ensures output[..] == old(EcbDecrypted(key[..16], input[..length] + output[length..]))
  {
    hide C.InvCipher, Schedule;
    var roundKey := new bv8[176];
    Copy(output, 0, input, 0, length);
    assert output[..] == old(input[..length] + output[length..]);
    KeyExpansion(key, roundKey);
    InvCipher(output, 0, roundKey);
  }

  // Cipher block chaining

  function XorBlocks(a: C.State, b: C.State): C.State
  {
    seq(16, k requires 0 <= k < 16 => a[k] ^ b[k])
  }

  /** Section 6.2 of NIST SP 800-38A: each plaintext block is masked with the previous ciphertext block. */
  function CbcEncrypted(w: C.RoundKeys, iv: C.State, plain: seq<bv8>): (r: seq<bv8>)
    requires |plain| % 16 == 0
    ensures |r| == |plain|
    decreases |plain|
  {
    if |plain| == 0 then []
    else
      var c := C.Cipher(XorBlocks(plain[..16], iv), w);
      c + CbcEncrypted(w, c, plain[16..])
  }

  function CbcDecrypted(w: C.RoundKeys, iv: C.State, cipher: seq<bv8>): (r: seq<bv8>)
    requires |cipher| % 16 == 0
    ensures |r| == |cipher|
    decreases |cipher|
  {
    if |cipher| == 0 then []
    else XorBlocks(C.InvCipher(cipher[..16], w), iv) + CbcDecrypted(w, cipher[..16], cipher[16..])
  }

  lemma XorBlocksTwice(a: C.State, b: C.State)
    ensures XorBlocks(XorBlocks(a, b), b) == a
  {
    forall k | 0 <= k < 16 ensures (a[k] ^ b[k]) ^ b[k] == a[k] {}
  }

  /** Chained decryption recovers the plaintext for every key schedule, initial vector and whole number of blocks. */
  lemma {:induction false} CbcRoundTrip(w: C.RoundKeys, iv: C.State, plain: seq<bv8>)
    requires |plain| % 16 == 0
    ensures CbcDecrypted(w, iv, CbcEncrypted(w, iv, plain)) == plain
    decreases |plain|
  {
    hide C.Cipher, C.InvCipher, XorBlocks;
    if |plain| > 0 {
      var m := XorBlocks(plain[..16], iv);
      var c := C.Cipher(m, w);
      C.InvCipherUndoesCipher(m, w);
      XorBlocksTwice(plain[..16], iv);
      CbcRoundTrip(w, c, plain[16..]);
      var e := CbcEncrypted(w, iv, plain);
      assert e[..16] == c && e[16..] == CbcEncrypted(w, c, plain[16..]);
    }
  }

  /** Section 6.2 of NIST SP 800-38A, block by block: each ciphertext block enciphers its plaintext block added to the
      ciphertext block before it, the first to the initial vector. */
  lemma {:induction false} CbcBlock(w: C.RoundKeys, iv: C.State, plain: seq<bv8>, i: nat)
    requires |plain| % 16 == 0 && 16 * i + 16 <= |plain|
    ensures var c := CbcEncrypted(w, iv, plain);
            var mask: C.State := if i == 0 then iv else c[16 * i - 16..16 * i];
            Block(c, 16 * i) == C.Cipher(XorBlocks(Block(plain, 16 * i), mask), w)
    decreases i
  {
    hide C.Cipher, XorBlocks;
    var c := CbcEncrypted(w, iv, plain);
    var first, rest := C.Cipher(XorBlocks(plain[..16], iv), w), plain[16..];
    assert c == first + CbcEncrypted(w, first, rest);
    if i == 0 {
      assert Block(c, 0) == first && Block(plain, 0) == plain[..16];
    } else {
      CbcBlock(w, first, rest, i - 1);
      var c' := CbcEncrypted(w, first, rest);
      assert Block(c, 16 * i) == Block(c', 16 * (i - 1)) && Block(plain, 16 * i) == Block(rest, 16 * (i - 1));
      assert i > 1 ==> c[16 * i - 16..16 * i] == c'[16 * (i - 1) - 16..16 * (i - 1)];
      assert i == 1 ==> c[16 * i - 16..16 * i] == first;
    }
  }

  /** The inverse: each plaintext block is the deciphered block added to the ciphertext block before it. */
  lemma {:induction false} UncbcBlock(w: C.RoundKeys, iv: C.State, cipher: seq<bv8>, i: nat)
    requires |cipher| % 16 == 0 && 16 * i + 16 <= |cipher|
    ensures var mask: C.State := if i == 0 then iv else cipher[16 * i - 16..16 * i];
            Block(CbcDecrypted(w, iv, cipher), 16 * i) == XorBlocks(C.InvCipher(Block(cipher, 16 * i), w), mask)
    decreases i
  {
    hide C.InvCipher, XorBlocks;
    var p := CbcDecrypted(w, iv, cipher);
    var first, rest := cipher[..16], cipher[16..];
    assert p == XorBlocks(C.InvCipher(first, w), iv) + CbcDecrypted(w, first, rest);
    if i == 0 {
      assert Block(cipher, 0) == first;
    } else {
      UncbcBlock(w, first, rest, i - 1);
      var p' := CbcDecrypted(w, first, rest);
      assert Block(p, 16 * i) == Block(p', 16 * (i - 1)) && Block(cipher, 16 * i) == Block(rest, 16 * (i - 1));
      assert i > 1 ==> cipher[16 * i - 16..16 * i] == rest[16 * (i - 1) - 16..16 * (i - 1)];
    }
  }

  method XorWithIv(buf: array<bv8>, off: nat, iv: array<bv8>, ivOff: nat)
    requires buf != iv && off + 16 <= buf.Length && ivOff + 16 <= iv.Length
    modifies buf
    ensures buf[..] == old(Replaced(buf[..], off, XorBlocks(Block(buf[..], off), Block(iv[..], ivOff))))
  {
    ghost var before := buf[..];
    ghost var target := XorBlocks(Block(before, off), Block(iv[..], ivOff));
    ghost var done: set<int> := {};
    for i := 0 to 16
      invariant Partly(before, buf[..], off, target, done)
      invariant forall k | 0 <= k < 16 :: k in done <==> k < i
    {
      buf[off + i] := buf[off + i] ^ iv[ivOff + i];
      done := done + {i};
    }
    Finished(before, buf[..], off, target, done);
  }

  /** The schedule in use: all zero bytes when no key is given. */
  ghost function KeysOf(key: array?<bv8>): C.RoundKeys
    requires key != null ==> key.Length >= 16
    reads key
  {
    if key == null then seq(176, _ => 0) else Schedule(key[..16])
  }

  /** The private data: a zeroed schedule, expanded from the key unless the key is null. */
  method NewRoundKeys(key: array?<bv8>) returns (roundKey: array<bv8>)
    requires key != null ==> key.Length >= 16
    ensures fresh(roundKey) && roundKey.Length == 176 && roundKey[..] == KeysOf(key)
  {
    roundKey := new bv8[176](_ => 0);
    if key != null {
      KeyExpansion(key, roundKey);
    }
  }

  /** What remains to be produced after the blocks already written. */
  ghost predicate CbcProgress(w: C.RoundKeys, iv: C.State, plain: seq<bv8>, done: seq<bv8>, mask: C.State, i: nat)
    requires |plain| % 16 == 0
  {
    && i % 16 == 0 && i <= |plain|
    && CbcEncrypted(w, iv, plain) == done + CbcEncrypted(w, mask, plain[i..])
  }

  lemma CbcStep(w: C.RoundKeys, iv: C.State, plain: seq<bv8>, done: seq<bv8>, mask: C.State, i: nat, c: C.State)
    requires |plain| % 16 == 0 && i < |plain| && CbcProgress(w, iv, plain, done, mask, i)
    requires c == C.Cipher(XorBlocks(plain[i..i + 16], mask), w)
    ensures CbcProgress(w, iv, plain, done + c, c, i + 16)
  {
    hide C.Cipher, XorBlocks;
    var rest := plain[i..];
    assert rest[..16] == plain[i..i + 16] && rest[16..] == plain[i + 16..];
    assert done + (c + CbcEncrypted(w, c, rest[16..])) == (done + c) + CbcEncrypted(w, c, rest[16..]);
  }

  lemma CbcStart(w: C.RoundKeys, iv: C.State, plain: seq<bv8>)
    requires |plain| % 16 == 0
    ensures CbcProgress(w, iv, plain, [], iv, 0)
  {
    assert plain[0..] == plain;
  }

  lemma CbcEnd(w: C.RoundKeys, iv: C.State, plain: seq<bv8>, done: seq<bv8>, mask: C.State, i: nat)
    requires |plain| % 16 == 0 && i == |plain| && CbcProgress(w, iv, plain, done, mask, i)
    ensures CbcEncrypted(w, iv, plain) == done
  {
    assert CbcEncrypted(w, mask, plain[i..]) == [];
  }

  lemma SameBlock(now: seq<bv8>, before: seq<bv8>, length: nat, i: nat)
    requires i + 16 <= length <= |now| == |before| && now[i..] == before[i..]
    ensures Block(now, i) == before[..length][i..i + 16]
  {
    assert forall k | i <= k < i + 16 :: now[k] == now[i..][k - i];
  }

  /** One chaining step of encryption; the mask may lie in the output buffer itself. */
  method CbcEncryptBlock(output: array<bv8>, input: array<bv8>, i: nat, mask: array<bv8>, maskOff: nat,
                         roundKey: array<bv8>)
    requires i + 16 <= input.Length && i + 16 <= output.Length && maskOff + 16 <= mask.Length
    requires output != input && mask != input && roundKey.Length == 176 && roundKey != output && roundKey != input
    modifies output, input
    ensures input[..] == old(Replaced(input[..], i, XorBlocks(Block(input[..], i), Block(mask[..], maskOff))))
    ensures
      output[..] ==
      old(Replaced(output[..], i,
                   C.Cipher(XorBlocks(Block(input[..], i), Block(mask[..], maskOff)), roundKey[..])))
  {
    hide C.Cipher, XorBlocks;
    ghost var m := XorBlocks(Block(input[..], i), Block(mask[..], maskOff));
    XorWithIv(input, i, mask, maskOff);
    assert input[i..i + 16] == m;
    Copy(output, i, input, i, 16);
    assert output[..] == old(Replaced(output[..], i, m));
    ReplacedTwice(old(output[..]), i, m, C.Cipher(m, roundKey[..]));
    Cipher(output, i, roundKey);
  }

  lemma ReplacedParts(s: seq<bv8>, i: nat, b: C.State)
    requires i + 16 <= |s|
    ensures Replaced(s, i, b)[..i + 16] == s[..i] + b
    ensures Replaced(s, i, b)[i + 16..] == s[i + 16..]
  {}

  /** The loop over the blocks. */
  method CbcEncryptBlocks(output: array<bv8>, input: array<bv8>, length: nat, roundKey: array<bv8>, iv: array<bv8>)
    requires length % 16 == 0 && length <= input.Length && length <= output.Length
    requires iv.Length >= 16 && roundKey.Length == 176
    requires output != input && iv != input && iv != output && roundKey != input && roundKey != output
    modifies output, input
    ensures output[..] == old(CbcEncrypted(roundKey[..], iv[..16], input[..length]) + output[length..])
    ensures input[length..] == old(input[length..])
  {
    hide C.Cipher, XorBlocks, Replaced, CbcEncrypted;
    ghost var plain := input[..length];
    ghost var w := roundKey[..];
    var mask, maskOff := iv, 0;
    CbcStart(w, iv[..16], plain);
    var i := 0;
    while i < length
      invariant 0 <= i <= length && i % 16 == 0
      invariant roundKey[..] == w
      invariant mask != input && maskOff + 16 <= mask.Length
      invariant input[i..] == old(input[i..]) && output[i..] == old(output[i..])
      invariant CbcProgress(w, old(iv[..16]), plain, output[..i], Block(mask[..], maskOff), i)
    {
      ghost var in0, out0, m := input[..], output[..], Block(mask[..], maskOff);
      SameBlock(in0, old(input[..]), length, i);
      ghost var c := C.Cipher(XorBlocks(Block(in0, i), m), w);
      CbcEncryptBlock(output, input, i, mask, maskOff, roundKey);
      ReplacedParts(in0, i, XorBlocks(Block(in0, i), m));
      ReplacedParts(out0, i, c);
      CbcStep(w, old(iv[..16]), plain, out0[..i], m, i, c);
      mask, maskOff := output, i;
      assert Block(output[..], i) == c;
      i := i + 16;
    }
    CbcEnd(w, old(iv[..16]), plain, output[..length], Block(mask[..], maskOff), length);
    assert output[..] == output[..length] + output[length..];
  }

  /** The number of bytes in the blocks that the loop goes over: the length, rounded up. */
  function Covered(length: nat): (n: nat)
    ensures length <= n < length + 16 && n % 16 == 0
  {
    (length + 15) / 16 * 16
  }

  /** What becomes of the bytes after the blocks: with a remainder, that many are copied and a whole block of the
      output is run through the cipher on its own. */
  function Tail(output: seq<bv8>, input: seq<bv8>, extra: nat, w: C.RoundKeys, inverse: bool): seq<bv8>
    requires extra < 16 && extra <= |input| && (extra > 0 ==> |output| >= 16)
  {
    if extra == 0 then output
    else
      var block: C.State := input[..extra] + output[extra..16];
      (if inverse then C.InvCipher(block, w) else C.Cipher(block, w)) + output[16..]
  }

  lemma TailBlock(before: seq<bv8>, input: seq<bv8>, mid: seq<bv8>, n: nat, extra: nat)
    requires extra < 16 && n + extra <= |input| && n + 16 <= |before|
    requires mid == before[..n] + input[n..n + extra] + before[n + extra..]
    ensures Block(mid, n) == input[n..][..extra] + before[n..][extra..16]
    ensures |mid| == |before| && mid[..n] == before[..n] && mid[n + extra..] == before[n + extra..]
  {
    var block := input[n..][..extra] + before[n..][extra..16];
    forall k | 0 <= k < 16 ensures mid[n + k] == block[k] {
      if k < extra {
        assert mid[n + k] == input[n + k];
      } else {
        assert mid[n + k] == before[n + k];
      }
    }
  }

  lemma TailOf(before: seq<bv8>, mid: seq<bv8>, n: nat, extra: nat, block: C.State)
    requires extra < 16 && n + 16 <= |before| == |mid|
    requires mid[..n] == before[..n] && mid[n + extra..] == before[n + extra..]
    ensures Replaced(mid, n, block)[..n] == before[..n]
    ensures Replaced(mid, n, block)[n..] == block + before[n..][16..]
  {
    assert mid[n + 16..] == mid[n + extra..][16 - extra..];
    assert before[n + 16..] == before[n + extra..][16 - extra..];
    assert before[n..][16..] == before[n + 16..];
  }

  method FinishTail(output: array<bv8>, input: array<bv8>, n: nat, extra: nat, roundKey: array<bv8>, inverse: bool)
    requires extra < 16 && n + extra <= input.Length && n + (if extra == 0 then 0 else 16) <= output.Length
    requires output != input && roundKey.Length == 176 && roundKey != output
    modifies output
    ensures output[..n] == old(output[..n])
    ensures output[n..] == old(Tail(output[n..], input[n..], extra, roundKey[..], inverse))
  {
    hide C.Cipher, C.InvCipher;
    if extra > 0 {
      ghost var before := output[..];
      Copy(output, n, input, n, extra);
      ghost var mid := output[..];
      ghost var block: C.State := input[n..][..extra] + before[n..][extra..16];
      TailBlock(before, input[..], mid, n, extra);
      if inverse {
        InvCipher(output, n, roundKey);
      } else {
        Cipher(output, n, roundKey);
      }
      ghost var after := if inverse then C.InvCipher(block, roundKey[..]) else C.Cipher(block, roundKey[..]);
      assert output[..] == Replaced(mid, n, after);
      TailOf(before, mid, n, extra, after);
    }
  }

  /** With a partial last block the loop has already gone over it as if it were whole. What follows it is copied in
      part, and one more block is enciphered on its own. */
  method CbcEncryptBuffer(output: array<bv8>, input: array<bv8>, length: nat, key: array?<bv8>, iv: array<bv8>)
    requires Covered(length) + length % 16 <= input.Length
    requires Covered(length) + (if length % 16 == 0 then 0 else 16) <= output.Length
    requires iv.Length >= 16 && (key != null ==> key.Length >= 16)
    requires output != input && iv != input && iv != output && key != input && key != output
    modifies output, input
    ensures output[..Covered(length)] == old(CbcEncrypted(KeysOf(key), iv[..16], input[..Covered(length)]))
    ensures output[Covered(length)..] ==
            old(Tail(output[Covered(length)..], input[Covered(length)..], length % 16, KeysOf(key), false))
    ensures input[Covered(length)..] == old(input[Covered(length)..])
  {
    hide C.Cipher, C.InvCipher, KeysOf, CbcEncrypted;
    var roundKey := NewRoundKeys(key);
    var n, extra := Covered(length), length % 16;
    CbcEncryptBlocks(output, input, n, roundKey, iv);
    FinishTail(output, input, n, extra, roundKey, false);
  }

  ghost predicate UncbcProgress(w: C.RoundKeys, iv: C.State, cipher: seq<bv8>, done: seq<bv8>, mask: C.State, i: nat)
    requires |cipher| % 16 == 0
  {
    && i % 16 == 0 && i <= |cipher|
    && CbcDecrypted(w, iv, cipher) == done + CbcDecrypted(w, mask, cipher[i..])
  }

  lemma UncbcStep(w: C.RoundKeys, iv: C.State, cipher: seq<bv8>, done: seq<bv8>, mask: C.State, i: nat, p: C.State)
    requires |cipher| % 16 == 0 && i < |cipher| && UncbcProgress(w, iv, cipher, done, mask, i)
    requires p == XorBlocks(C.InvCipher(cipher[i..i + 16], w), mask)
    ensures UncbcProgress(w, iv, cipher, done + p, cipher[i..i + 16], i + 16)
  {
    hide C.InvCipher, XorBlocks;
    var rest := cipher[i..];
    assert rest[..16] == cipher[i..i + 16] && rest[16..] == cipher[i + 16..];
    assert done + (p + CbcDecrypted(w, rest[..16], rest[16..])) == (done + p) + CbcDecrypted(w, rest[..16], rest[16..]);
  }

  lemma UncbcStart(w: C.RoundKeys, iv: C.State, cipher: seq<bv8>)
    requires |cipher| % 16 == 0
    ensures UncbcProgress(w, iv, cipher, [], iv, 0)
  {
    assert cipher[0..] == cipher;
  }

  lemma UncbcEnd(w: C.RoundKeys, iv: C.State, cipher: seq<bv8>, done: seq<bv8>, mask: C.State, i: nat)
    requires |cipher| % 16 == 0 && i == |cipher| && UncbcProgress(w, iv, cipher, done, mask, i)
    ensures CbcDecrypted(w, iv, cipher) == done
  {
    assert CbcDecrypted(w, mask, cipher[i..]) == [];
  }

  /** One chaining step of decryption; the mask is the initial vector or the previous input block. */
  method CbcDecryptBlock(output: array<bv8>, input: array<bv8>, i: nat, mask: array<bv8>, maskOff: nat,
                         roundKey: array<bv8>)
    requires i + 16 <= input.Length && i + 16 <= output.Length && maskOff + 16 <= mask.Length
    requires output != input && mask != output && roundKey.Length == 176 && roundKey != output
    modifies output
    ensures
      output[..] ==
      old(Replaced(output[..], i,
                   XorBlocks(C.InvCipher(Block(input[..], i), roundKey[..]), Block(mask[..], maskOff))))
  {
    hide C.InvCipher, XorBlocks;
    ghost var before, b := output[..], Block(input[..], i);
    ghost var p := C.InvCipher(b, roundKey[..]);
    Copy(output, i, input, i, 16);
    assert output[..] == Replaced(before, i, b);
    ReplacedTwice(before, i, b, p);
    ReplacedTwice(before, i, p, XorBlocks(p, Block(mask[..], maskOff)));
    InvCipher(output, i, roundKey);
    XorWithIv(output, i, mask, maskOff);
  }

  method CbcDecryptBlocks(output: array<bv8>, input: array<bv8>, length: nat, roundKey: array<bv8>, iv: array<bv8>)
    requires length % 16 == 0 && length <= input.Length && length <= output.Length
    requires iv.Length >= 16 && roundKey.Length == 176
    requires output != input && iv != output && roundKey != output
    modifies output
    ensures output[..] == old(CbcDecrypted(roundKey[..], iv[..16], input[..length]) + output[length..])
  {
    hide C.InvCipher, XorBlocks, Replaced, CbcDecrypted;
    ghost var cipher := input[..length];
    ghost var w := roundKey[..];
    var mask, maskOff := iv, 0;
    UncbcStart(w, iv[..16], cipher);
    var i := 0;
    while i < length
      invariant 0 <= i <= length && i % 16 == 0
      invariant roundKey[..] == w
      invariant mask != output && maskOff + 16 <= mask.Length
      invariant output[i..] == old(output[i..])
      invariant UncbcProgress(w, old(iv[..16]), cipher, output[..i], Block(mask[..], maskOff), i)
    {
      ghost var out0, m := output[..], Block(mask[..], maskOff);
      assert Block(input[..], i) == cipher[i..i + 16];
      ghost var p := XorBlocks(C.InvCipher(Block(input[..], i), w), m);
      CbcDecryptBlock(output, input, i, mask, maskOff, roundKey);
      ReplacedParts(out0, i, p);
      UncbcStep(w, old(iv[..16]), cipher, out0[..i], m, i, p);
      mask, maskOff := input, i;
      i := i + 16;
    }
    UncbcEnd(w, old(iv[..16]), cipher, output[..length], Block(mask[..], maskOff), length);
    assert output[..] == output[..length] + output[length..];
  }

  method CbcDecryptBuffer(output: array<bv8>, input: array<bv8>, length: nat, key: array?<bv8>, iv: array<bv8>)
    requires Covered(length) + length % 16 <= input.Length
    requires Covered(length) + (if length % 16 == 0 then 0 else 16) <= output.Length
    requires iv.Length >= 16 && (key != null ==> key.Length >= 16)
    requires output != input && iv != output && key != output
    modifies output
    ensures output[..Covered(length)] == old(CbcDecrypted(KeysOf(key), iv[..16], input[..Covered(length)]))
    ensures output[Covered(length)..] ==
            old(Tail(output[Covered(length)..], input[Covered(length)..], length % 16, KeysOf(key), true))
  {
    hide C.Cipher, C.InvCipher, KeysOf, CbcDecrypted;
    var roundKey := NewRoundKeys(key);
    var n, extra := Covered(length), length % 16;
    CbcDecryptBlocks(output, input, n, roundKey, iv);
    FinishTail(output, input, n, extra, roundKey, true);
  }

  /** Both calls on real buffers with room for what they touch: decrypting what encryption left in its output
      restores the first input, for every length. */
  method CbcBothWays(cipher: array<bv8>, result: array<bv8>, input: array<bv8>, length: nat, key: array?<bv8>,
                     iv: array<bv8>)
    requires Covered(length) + length % 16 <= input.Length
    requires Covered(length) + (if length % 16 == 0 then 0 else 16) <= cipher.Length
    requires Covered(length) + (if length % 16 == 0 then 0 else 16) <= result.Length
    requires iv.Length >= 16 && (key != null ==> key.Length >= 16)
    requires cipher != input && iv != input && iv != cipher && key != input && key != cipher
    requires result != cipher && result != input && iv != result && key != result
    modifies cipher, input, result
    ensures result[..length] == old(input[..length])
  {
    hide CbcEncrypted, CbcDecrypted, KeysOf, Tail;
    var n := Covered(length);
    CbcEncryptBuffer(cipher, input, length, key, iv);
    CbcRoundTrip(KeysOf(key), iv[..16], old(input[..n]));
    CbcDecryptBuffer(result, cipher, length, key, iv);
    assert result[..length] == result[..n][..length];
  }
}
