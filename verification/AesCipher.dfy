/** The block cipher: the round steps as section 5 of FIPS 197 defines them on the 16-byte state, the cipher and
    its inverse built from them, and the proof that the inverse cipher undoes the cipher for every block under
    every key schedule. Byte r + 4c of the state is row r of column c. */
module AesCipher {
  import opened AesField
  import opened AesTables

  const NR := 10
  const BLOCK := 16
  const SCHEDULE := 176

  type State = s: seq<bv8> | |s| == 16 witness [0, 0, 0, 0, 0, 0, 0, 0, 0, 0, 0, 0, 0, 0, 0, 0]
  type RoundKeys = w: seq<bv8> | |w| == 176 witness seq(176, _ => 0)

  function AddRoundKey(s: State, w: RoundKeys, round: int): State
    requires 0 <= round <= NR
  {
    seq(16, k requires 0 <= k < 16 => s[k] ^ w[16 * round + k])
  }

  function SubBytes(s: State): State
  {
    seq(16, k requires 0 <= k < 16 => GetSBoxValue(s[k]))
  }

  function InvSubBytes(s: State): State
  {
    seq(16, k requires 0 <= k < 16 => GetSBoxInvert(s[k]))
  }

  function ShiftSource(k: int): (n: int)
    requires 0 <= k < 16
    ensures 0 <= n < 16
  {
    var n := k + 4 * (k % 4);
    if n < 16 then n else n - 16
  }

  /** Row r moves r columns to the left: the byte at row r of column c comes from column c + r, cyclically. */
  function ShiftRows(s: State): State
  {
    seq(16, k requires 0 <= k < 16 => s[ShiftSource(k)])
  }

  function InvShiftSource(k: int): (n: int)
    requires 0 <= k < 16
    ensures 0 <= n < 16
  {
    var n := k - 4 * (k % 4);
    if n >= 0 then n else n + 16
  }

  /** Row r moves r columns to the right. */
  function InvShiftRows(s: State): State
  {
    seq(16, k requires 0 <= k < 16 => s[InvShiftSource(k)])
  }

  /** The index i rows below index k, in the same column and cyclically. */
  function Down(k: int, i: int): (n: int)
    requires 0 <= k < 16 && 0 <= i < 4
    ensures 0 <= n < 16
  {
    if k % 4 + i < 4 then k + i else k + i - 4
  }

  /** The column matrix of section 5.1.3: its rows are the rotations of 02 03 01 01. */
  function MixColumns(s: State): State
  {
    seq(16, k requires 0 <= k < 16 =>
      Sum4(Times(s[k], 0x02), Times(s[Down(k, 1)], 0x03), s[Down(k, 2)], s[Down(k, 3)]))
  }

  /** The column matrix of section 5.3.3: its rows are the rotations of 0e 0b 0d 09. */
  function InvMixColumns(s: State): State
  {
    seq(16, k requires 0 <= k < 16 =>
      Sum4(Times(s[k], 0x0e), Times(s[Down(k, 1)], 0x0b), Times(s[Down(k, 2)], 0x0d), Times(s[Down(k, 3)], 0x09)))
  }

  /** The state after the initial key addition and the first n full rounds. */
  function Rounds(s: State, w: RoundKeys, n: nat): State
    requires n < NR
  {
    if n == 0 then AddRoundKey(s, w, 0)
    else AddRoundKey(MixColumns(ShiftRows(SubBytes(Rounds(s, w, n - 1)))), w, n)
  }

  function Cipher(s: State, w: RoundKeys): State
  {
    AddRoundKey(ShiftRows(SubBytes(Rounds(s, w, NR - 1))), w, NR)
  }

  function InvRound(s: State, w: RoundKeys, n: nat): State
    requires n < NR
  {
    InvMixColumns(AddRoundKey(InvSubBytes(InvShiftRows(s)), w, n))
  }

  /** The inverse rounds n, n - 1, ..., 1, in that order. */
  function InvRounds(s: State, w: RoundKeys, n: nat): State
    requires n < NR
    decreases n
  {
    if n == 0 then s else InvRounds(InvRound(s, w, n), w, n - 1)
  }

  function InvCipher(s: State, w: RoundKeys): State
  {
    AddRoundKey(InvSubBytes(InvShiftRows(InvRounds(AddRoundKey(s, w, NR), w, NR - 1))), w, 0)
  }

  // Each step and its inverse

  lemma AddRoundKeyTwice(s: State, w: RoundKeys, round: int)
    requires 0 <= round <= NR
    ensures AddRoundKey(AddRoundKey(s, w, round), w, round) == s
  {
    forall k | 0 <= k < 16 ensures (s[k] ^ w[16 * round + k]) ^ w[16 * round + k] == s[k] {}
  }

  lemma InvSubBytesUndoes(s: State)
    ensures InvSubBytes(SubBytes(s)) == s
  {
    forall k | 0 <= k < 16 ensures GetSBoxInvert(GetSBoxValue(s[k])) == s[k] { InvertUndoesValue(s[k]); }
  }

  lemma ShiftSourcesInverse(k: int)
    requires 0 <= k < 16
    ensures ShiftSource(InvShiftSource(k)) == k
  {
    var q, r := k / 4, k % 4;
    assert InvShiftSource(k) == 4 * (if q < r then q - r + 4 else q - r) + r;
    assert InvShiftSource(k) % 4 == r;
  }

  lemma InvShiftRowsUndoes(s: State)
    ensures InvShiftRows(ShiftRows(s)) == s
  {
    forall k | 0 <= k < 16 ensures InvShiftRows(ShiftRows(s))[k] == s[k] { ShiftSourcesInverse(k); }
  }

  /** Walking down a column twice is walking down it once. */
  lemma DownOfDown(k: int, i: int, j: int)
    requires 0 <= k < 16 && 0 <= i < 4 && 0 <= j < 4
    ensures Down(Down(k, i), j) == Down(k, if i + j < 4 then i + j else i + j - 4)
    ensures Down(k, 0) == k
  {}

  lemma InvMixColumnsAt(s: State, k: int)
    requires 0 <= k < 16
    ensures InvMixColumns(MixColumns(s))[k] == s[k]
  {
    hide Times, Sum4, Down;
    DownOfDown(k, 1, 1); DownOfDown(k, 1, 2); DownOfDown(k, 1, 3);
    DownOfDown(k, 2, 1); DownOfDown(k, 2, 2); DownOfDown(k, 2, 3);
    DownOfDown(k, 3, 1); DownOfDown(k, 3, 2); DownOfDown(k, 3, 3);
    InvMixedByte(s[k], s[Down(k, 1)], s[Down(k, 2)], s[Down(k, 3)]);
  }

  lemma InvMixColumnsUndoes(s: State)
    ensures InvMixColumns(MixColumns(s)) == s
  {
    hide MixColumns, InvMixColumns;
    forall k | 0 <= k < 16 ensures InvMixColumns(MixColumns(s))[k] == s[k] {
      InvMixColumnsAt(s, k);
    }
  }

  /** One inverse round started from the shifted substitution of round n gives that of round n - 1. */
  lemma InvRoundUndoes(s: State, w: RoundKeys, n: nat)
    requires 0 < n < NR
    ensures
      InvRound(ShiftRows(SubBytes(Rounds(s, w, n))), w, n) == ShiftRows(SubBytes(Rounds(s, w, n - 1)))
  {
    hide ShiftRows, SubBytes, InvShiftRows, InvSubBytes,
      MixColumns, InvMixColumns, AddRoundKey;
    var before := ShiftRows(SubBytes(Rounds(s, w, n - 1)));
    InvShiftRowsUndoes(SubBytes(Rounds(s, w, n)));
    InvSubBytesUndoes(Rounds(s, w, n));
    AddRoundKeyTwice(MixColumns(before), w, n);
    InvMixColumnsUndoes(before);
  }

  lemma {:induction false} InvRoundsUndo(s: State, w: RoundKeys, n: nat)
    requires n < NR
    ensures InvRounds(ShiftRows(SubBytes(Rounds(s, w, n))), w, n) == ShiftRows(SubBytes(Rounds(s, w, 0)))
  {
    hide ShiftRows, SubBytes, InvRound, Rounds;
    if n > 0 {
      InvRoundUndoes(s, w, n);
      InvRoundsUndo(s, w, n - 1);
    }
  }

  /** Decryption undoes encryption on every block, under every key schedule. */
  lemma InvCipherUndoesCipher(s: State, w: RoundKeys)
    ensures InvCipher(Cipher(s, w), w) == s
  {
    hide ShiftRows, SubBytes, InvShiftRows, InvSubBytes,
      AddRoundKey, InvRounds;
    var last := ShiftRows(SubBytes(Rounds(s, w, NR - 1)));
    AddRoundKeyTwice(last, w, NR);
    InvRoundsUndo(s, w, NR - 1);
    InvShiftRowsUndoes(SubBytes(Rounds(s, w, 0)));
    InvSubBytesUndoes(Rounds(s, w, 0));
    AddRoundKeyTwice(s, w, 0);
  }

  // What the rounds depend on

  lemma NextRound(s: State, w: RoundKeys, n: nat)
    requires n < 9
    ensures Rounds(s, w, n + 1) == AddRoundKey(MixColumns(ShiftRows(SubBytes(Rounds(s, w, n)))), w, n + 1)
  {
    hide AddRoundKey, MixColumns, ShiftRows, SubBytes;
  }

  /** The tenth round, which is the last, mixes no columns. */
  lemma LastRound(s: State, w: RoundKeys)
    ensures Cipher(s, w) == AddRoundKey(ShiftRows(SubBytes(Rounds(s, w, 9))), w, 10)
  {
    hide Rounds, AddRoundKey, ShiftRows, SubBytes;
  }

  lemma SameKey(s: State, w: RoundKeys, w': RoundKeys, round: nat)
    requires round <= 10 && w[16 * round..16 * round + 16] == w'[16 * round..16 * round + 16]
    ensures AddRoundKey(s, w, round) == AddRoundKey(s, w', round)
  {
    var m := 16 * round;
    forall k | 0 <= k < 16 ensures AddRoundKey(s, w, round)[k] == AddRoundKey(s, w', round)[k] {
      assert w[m + k] == w[m..m + 16][k] && w'[m + k] == w'[m..m + 16][k];
    }
  }

  /** The schedules agree on the round keys 0 to 9. */
  ghost predicate AgreeBelow(w: RoundKeys, w': RoundKeys)
  {
    forall n | 0 <= n < 10 :: w[16 * n..16 * n + 16] == w'[16 * n..16 * n + 16]
  }

  lemma {:induction false} SameRounds(s: State, w: RoundKeys, w': RoundKeys, n: nat)
    requires n < 10 && AgreeBelow(w, w')
    ensures Rounds(s, w, n) == Rounds(s, w', n)
  {
    hide AddRoundKey, MixColumns, ShiftRows, SubBytes;
    if n == 0 {
      SameKey(s, w, w', 0);
    } else {
      SameRounds(s, w, w', n - 1);
      SameKey(MixColumns(ShiftRows(SubBytes(Rounds(s, w, n - 1)))), w, w', n);
    }
  }

  lemma {:induction false} SameInvRounds(s: State, w: RoundKeys, w': RoundKeys, n: nat)
    requires n < 10 && AgreeBelow(w, w')
    ensures InvRounds(s, w, n) == InvRounds(s, w', n)
    decreases n
  {
    hide AddRoundKey, InvMixColumns, InvShiftRows, InvSubBytes;
    if n > 0 {
      SameKey(InvSubBytes(InvShiftRows(s)), w, w', n);
      SameInvRounds(InvRound(s, w, n), w, w', n - 1);
    }
  }

  lemma AddedTwice(a: bv8, b: bv8)
    ensures (a ^ b) ^ b == a
  {}

  /** The last step of the cipher adds the eleventh round key, bytes 160 to 175 of the schedule, to something that
      depends on the ten others only. */
  lemma LastKey(s: State, w: RoundKeys, w': RoundKeys, k: int)
    requires AgreeBelow(w, w') && 0 <= k < 16
    ensures Cipher(s, w)[k] ^ w[160 + k] == Cipher(s, w')[k] ^ w'[160 + k]
  {
    hide Cipher, ShiftRows, SubBytes, Rounds;
    LastRound(s, w);
    LastRound(s, w');
    SameRounds(s, w, w', 9);
    var before := ShiftRows(SubBytes(Rounds(s, w, 9)));
    AddedTwice(before[k], w[160 + k]);
    AddedTwice(before[k], w'[160 + k]);
  }

  /** And the inverse cipher begins by adding it: blocks that differ as the eleventh round keys do are deciphered
      alike. */
  lemma FirstInvKey(s: State, s': State, w: RoundKeys, w': RoundKeys)
    requires AgreeBelow(w, w') && forall k | 0 <= k < 16 :: s[k] ^ w[160 + k] == s'[k] ^ w'[160 + k]
    ensures InvCipher(s, w) == InvCipher(s', w')
  {
    assert AddRoundKey(s, w, 10) == AddRoundKey(s', w', 10);
    hide AddRoundKey, InvShiftRows, InvSubBytes, InvRounds;
    var t := AddRoundKey(s, w, 10);
    SameInvRounds(t, w, w', 9);
    SameKey(InvSubBytes(InvShiftRows(InvRounds(t, w, 9))), w, w', 0);
  }

  /** Section 5.1.2: row r of column c comes from column c + r, cyclically; and the inverse. */
  lemma RowsMove(s: State, r: nat, c: nat)
    requires r < 4 && c < 4
    ensures ShiftRows(s)[r + 4 * c] == s[r + 4 * ((c + r) % 4)]
    ensures InvShiftRows(s)[r + 4 * ((c + r) % 4)] == s[r + 4 * c]
  {
    assert (r + 4 * c) % 4 == r;
    assert ShiftSource(r + 4 * c) == r + 4 * ((c + r) % 4);
    assert InvShiftSource(r + 4 * ((c + r) % 4)) == r + 4 * c;
  }
}
