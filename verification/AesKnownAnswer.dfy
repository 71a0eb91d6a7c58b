/** The worked example of appendix B of FIPS 197. The general steps are first brought into a form with explicit
    indices, as the standard's figures show them; each round of the example is then one evaluation. */
module AesKnownAnswer {
  import opened AesField
  import opened AesTables
  import C = AesCipher
  import opened AesSchedule
  import opened AesModes

  // The steps with explicit indices

  /** Substitution, then rows moved left by 0, 1, 2 and 3 columns. */
  function Shifted(s: C.State): C.State
  {
    [
      GetSBoxValue(s[0]), GetSBoxValue(s[5]), GetSBoxValue(s[10]), GetSBoxValue(s[15]),
      GetSBoxValue(s[4]), GetSBoxValue(s[9]), GetSBoxValue(s[14]), GetSBoxValue(s[3]),
      GetSBoxValue(s[8]), GetSBoxValue(s[13]), GetSBoxValue(s[2]), GetSBoxValue(s[7]),
      GetSBoxValue(s[12]), GetSBoxValue(s[1]), GetSBoxValue(s[6]), GetSBoxValue(s[11])
    ]
  }

  function Mixed(a: bv8, b: bv8, c: bv8, d: bv8, k: bv8): bv8 { Sum4(Xtime(a), Plus(b, Xtime(b)), c, d) ^ k }

  /** Columns mixed, then the round key added. */
  function MixedWith(s: C.State, k: C.State): C.State
  {
    [
      Mixed(s[0], s[1], s[2], s[3], k[0]), Mixed(s[1], s[2], s[3], s[0], k[1]),
      Mixed(s[2], s[3], s[0], s[1], k[2]), Mixed(s[3], s[0], s[1], s[2], k[3]),
      Mixed(s[4], s[5], s[6], s[7], k[4]), Mixed(s[5], s[6], s[7], s[4], k[5]),
      Mixed(s[6], s[7], s[4], s[5], k[6]), Mixed(s[7], s[4], s[5], s[6], k[7]),
      Mixed(s[8], s[9], s[10], s[11], k[8]), Mixed(s[9], s[10], s[11], s[8], k[9]),
      Mixed(s[10], s[11], s[8], s[9], k[10]), Mixed(s[11], s[8], s[9], s[10], k[11]),
      Mixed(s[12], s[13], s[14], s[15], k[12]), Mixed(s[13], s[14], s[15], s[12], k[13]),
      Mixed(s[14], s[15], s[12], s[13], k[14]), Mixed(s[15], s[12], s[13], s[14], k[15])
    ]
  }

  function KeyWith(s: C.State, k: C.State): C.State
  {
    [
      s[0] ^ k[0], s[1] ^ k[1], s[2] ^ k[2], s[3] ^ k[3], s[4] ^ k[4], s[5] ^ k[5], s[6] ^ k[6], s[7] ^ k[7],
      s[8] ^ k[8], s[9] ^ k[9], s[10] ^ k[10], s[11] ^ k[11], s[12] ^ k[12], s[13] ^ k[13], s[14] ^ k[14], s[15] ^ k[15]
    ]
  }

  /** The next four words of the schedule. */
  function NextWords(a: Word, b: Word, c: Word, d: Word, rc: bv8): C.State
  {
    var w0 := XorWord(a, [GetSBoxValue(d[1]) ^ rc, GetSBoxValue(d[2]), GetSBoxValue(d[3]), GetSBoxValue(d[0])]);
    var w1 := XorWord(b, w0);
    var w2 := XorWord(c, w1);
    w0 + w1 + w2 + XorWord(d, w2)
  }

  function NextKey(k: C.State, rc: bv8): C.State { NextWords(k[0..4], k[4..8], k[8..12], k[12..16], rc) }

  lemma ShiftedAt(s: C.State, i: int)
    requires 0 <= i < 16
    ensures C.ShiftRows(C.SubBytes(s))[i] == GetSBoxValue(s[C.ShiftSource(i)])
  {
    hide GetSBoxValue;
  }

  lemma ShiftedIs(s: C.State)
    ensures C.ShiftRows(C.SubBytes(s)) == Shifted(s)
  {
    hide GetSBoxValue, C.ShiftRows, C.SubBytes;
    ShiftedAt(s, 0); ShiftedAt(s, 1); ShiftedAt(s, 2); ShiftedAt(s, 3);
    ShiftedAt(s, 4); ShiftedAt(s, 5); ShiftedAt(s, 6); ShiftedAt(s, 7);
    ShiftedAt(s, 8); ShiftedAt(s, 9); ShiftedAt(s, 10); ShiftedAt(s, 11);
    ShiftedAt(s, 12); ShiftedAt(s, 13); ShiftedAt(s, 14); ShiftedAt(s, 15);
  }

  lemma MixedByte(a: bv8, b: bv8, c: bv8, d: bv8, k: bv8)
    ensures Sum4(Times(a, 0x02), Times(b, 0x03), c, d) ^ k == Mixed(a, b, c, d, k)
  {
    hide Times, Xtime, Sum4, Plus;
    XtimeIsTimesTwo(a); TimesThree(b);
  }

  lemma MixedAt(s: C.State, w: C.RoundKeys, n: nat, i: int)
    requires n <= 10 && 0 <= i < 16
    ensures C.AddRoundKey(C.MixColumns(s), w, n)[i] ==
            Mixed(s[i], s[C.Down(i, 1)], s[C.Down(i, 2)], s[C.Down(i, 3)], w[16 * n + i])
  {
    hide Times, Sum4, Mixed;
    MixedByte(s[i], s[C.Down(i, 1)], s[C.Down(i, 2)], s[C.Down(i, 3)], w[16 * n + i]);
  }

  lemma MixedIs(s: C.State, w: C.RoundKeys, n: nat)
    requires n <= 10
    ensures C.AddRoundKey(C.MixColumns(s), w, n) == MixedWith(s, w[16 * n..16 * n + 16])
  {
    hide Mixed, C.AddRoundKey, C.MixColumns;
    MixedAt(s, w, n, 0); MixedAt(s, w, n, 1); MixedAt(s, w, n, 2); MixedAt(s, w, n, 3);
    MixedAt(s, w, n, 4); MixedAt(s, w, n, 5); MixedAt(s, w, n, 6); MixedAt(s, w, n, 7);
    MixedAt(s, w, n, 8); MixedAt(s, w, n, 9); MixedAt(s, w, n, 10); MixedAt(s, w, n, 11);
    MixedAt(s, w, n, 12); MixedAt(s, w, n, 13); MixedAt(s, w, n, 14); MixedAt(s, w, n, 15);
  }

  lemma KeyAt(s: C.State, w: C.RoundKeys, n: nat, i: int)
    requires n <= 10 && 0 <= i < 16
    ensures C.AddRoundKey(s, w, n)[i] == s[i] ^ w[16 * n..16 * n + 16][i]
  {}

  lemma KeyIs(s: C.State, w: C.RoundKeys, n: nat)
    requires n <= 10
    ensures C.AddRoundKey(s, w, n) == KeyWith(s, w[16 * n..16 * n + 16])
  {
    hide C.AddRoundKey;
    KeyAt(s, w, n, 0); KeyAt(s, w, n, 1); KeyAt(s, w, n, 2); KeyAt(s, w, n, 3);
    KeyAt(s, w, n, 4); KeyAt(s, w, n, 5); KeyAt(s, w, n, 6); KeyAt(s, w, n, 7);
    KeyAt(s, w, n, 8); KeyAt(s, w, n, 9); KeyAt(s, w, n, 10); KeyAt(s, w, n, 11);
    KeyAt(s, w, n, 12); KeyAt(s, w, n, 13); KeyAt(s, w, n, 14); KeyAt(s, w, n, 15);
  }

  // The schedule, four words at a time

  function RoundKey(key: Key, n: nat): C.State
    requires n <= 10
  {
    ScheduleWord(key, 4 * n) + ScheduleWord(key, 4 * n + 1) + ScheduleWord(key, 4 * n + 2) +
    ScheduleWord(key, 4 * n + 3)
  }

  lemma RoundKeyIs(key: Key, n: nat)
    requires n <= 10
    ensures Schedule(key)[16 * n..16 * n + 16] == RoundKey(key, n)
  {
    hide ScheduleWord;
    forall i | 0 <= i < 16 ensures Schedule(key)[16 * n + i] == RoundKey(key, n)[i] {
      assert (16 * n + i) / 4 == 4 * n + i / 4 && (16 * n + i) % 4 == i % 4;
    }
  }

  lemma NextWordsAre(key: Key, i: nat)
    requires 4 <= i < 44 && i % 4 == 0
    ensures ScheduleWord(key, i) + ScheduleWord(key, i + 1) + ScheduleWord(key, i + 2) + ScheduleWord(key, i + 3) ==
            NextWords(ScheduleWord(key, i - 4), ScheduleWord(key, i - 3), ScheduleWord(key, i - 2),
                      ScheduleWord(key, i - 1), Rcon(i / 4))
  {
    hide ScheduleWord, GetSBoxValue, Rcon, XorWord;
    WordIsSum(key, i); WordIsSum(key, i + 1); WordIsSum(key, i + 2); WordIsSum(key, i + 3);
    TempBytes(ScheduleWord(key, i - 1), i);
  }

  lemma Words(a: Word, b: Word, c: Word, d: Word)
    ensures var k := a + b + c + d; k[0..4] == a && k[4..8] == b && k[8..12] == c && k[12..16] == d
  {}

  lemma NextKeyIs(key: Key, n: nat)
    requires n < 10
    ensures RoundKey(key, n + 1) == NextKey(RoundKey(key, n), Rcon(n + 1))
  {
    hide ScheduleWord, NextWords, Rcon;
    NextWordsAre(key, 4 * n + 4);
    Words(ScheduleWord(key, 4 * n), ScheduleWord(key, 4 * n + 1), ScheduleWord(key, 4 * n + 2),
          ScheduleWord(key, 4 * n + 3));
  }

  // The example

  const PLAIN: C.State := [
    0x32, 0x43, 0xf6, 0xa8, 0x88, 0x5a, 0x30, 0x8d, 0x31, 0x31, 0x98, 0xa2, 0xe0, 0x37, 0x07, 0x34]

  const KEY: Key := [
    0x2b, 0x7e, 0x15, 0x16, 0x28, 0xae, 0xd2, 0xa6, 0xab, 0xf7, 0x15, 0x88, 0x09, 0xcf, 0x4f, 0x3c]

  const ANSWER: C.State := [
    0x39, 0x25, 0x84, 0x1d, 0x02, 0xdc, 0x09, 0xfb, 0xdc, 0x11, 0x85, 0x97, 0x19, 0x6a, 0x0b, 0x32]

  // States before each round, after substitution and shift, and round keys

  const S0: C.State := [
    0x19, 0x3d, 0xe3, 0xbe, 0xa0, 0xf4, 0xe2, 0x2b, 0x9a, 0xc6, 0x8d, 0x2a, 0xe9, 0xf8, 0x48, 0x08]
  const K0: C.State := [
    0x2b, 0x7e, 0x15, 0x16, 0x28, 0xae, 0xd2, 0xa6, 0xab, 0xf7, 0x15, 0x88, 0x09, 0xcf, 0x4f, 0x3c]
  const H0: C.State := [
    0xd4, 0xbf, 0x5d, 0x30, 0xe0, 0xb4, 0x52, 0xae, 0xb8, 0x41, 0x11, 0xf1, 0x1e, 0x27, 0x98, 0xe5]

  const S1: C.State := [
    0xa4, 0x9c, 0x7f, 0xf2, 0x68, 0x9f, 0x35, 0x2b, 0x6b, 0x5b, 0xea, 0x43, 0x02, 0x6a, 0x50, 0x49]
  const K1: C.State := [
    0xa0, 0xfa, 0xfe, 0x17, 0x88, 0x54, 0x2c, 0xb1, 0x23, 0xa3, 0x39, 0x39, 0x2a, 0x6c, 0x76, 0x05]
  const H1: C.State := [
    0x49, 0xdb, 0x87, 0x3b, 0x45, 0x39, 0x53, 0x89, 0x7f, 0x02, 0xd2, 0xf1, 0x77, 0xde, 0x96, 0x1a]

  const S2: C.State := [
    0xaa, 0x8f, 0x5f, 0x03, 0x61, 0xdd, 0xe3, 0xef, 0x82, 0xd2, 0x4a, 0xd2, 0x68, 0x32, 0x46, 0x9a]
  const K2: C.State := [
    0xf2, 0xc2, 0x95, 0xf2, 0x7a, 0x96, 0xb9, 0x43, 0x59, 0x35, 0x80, 0x7a, 0x73, 0x59, 0xf6, 0x7f]
  const H2: C.State := [
    0xac, 0xc1, 0xd6, 0xb8, 0xef, 0xb5, 0x5a, 0x7b, 0x13, 0x23, 0xcf, 0xdf, 0x45, 0x73, 0x11, 0xb5]

  const S3: C.State := [
    0x48, 0x6c, 0x4e, 0xee, 0x67, 0x1d, 0x9d, 0x0d, 0x4d, 0xe3, 0xb1, 0x38, 0xd6, 0x5f, 0x58, 0xe7]
  const K3: C.State := [
    0x3d, 0x80, 0x47, 0x7d, 0x47, 0x16, 0xfe, 0x3e, 0x1e, 0x23, 0x7e, 0x44, 0x6d, 0x7a, 0x88, 0x3b]
  const H3: C.State := [
    0x52, 0xa4, 0xc8, 0x94, 0x85, 0x11, 0x6a, 0x28, 0xe3, 0xcf, 0x2f, 0xd7, 0xf6, 0x50, 0x5e, 0x07]

  const S4: C.State := [
    0xe0, 0x92, 0x7f, 0xe8, 0xc8, 0x63, 0x63, 0xc0, 0xd9, 0xb1, 0x35, 0x50, 0x85, 0xb8, 0xbe, 0x01]
  const K4: C.State := [
    0xef, 0x44, 0xa5, 0x41, 0xa8, 0x52, 0x5b, 0x7f, 0xb6, 0x71, 0x25, 0x3b, 0xdb, 0x0b, 0xad, 0x00]
  const H4: C.State := [
    0xe1, 0xfb, 0x96, 0x7c, 0xe8, 0xc8, 0xae, 0x9b, 0x35, 0x6c, 0xd2, 0xba, 0x97, 0x4f, 0xfb, 0x53]

  const S5: C.State := [
    0xf1, 0x00, 0x6f, 0x55, 0xc1, 0x92, 0x4c, 0xef, 0x7c, 0xc8, 0x8b, 0x32, 0x5d, 0xb5, 0xd5, 0x0c]
  const K5: C.State := [
    0xd4, 0xd1, 0xc6, 0xf8, 0x7c, 0x83, 0x9d, 0x87, 0xca, 0xf2, 0xb8, 0xbc, 0x11, 0xf9, 0x15, 0xbc]
  const H5: C.State := [
    0xa1, 0x4f, 0x3d, 0xfe, 0x78, 0xe8, 0x03, 0xfc, 0x10, 0xd5, 0xa8, 0xdf, 0x4c, 0x63, 0x29, 0x23]

  const S6: C.State := [
    0x26, 0x0e, 0x2e, 0x17, 0x3d, 0x41, 0xb7, 0x7d, 0xe8, 0x64, 0x72, 0xa9, 0xfd, 0xd2, 0x8b, 0x25]
  const K6: C.State := [
    0x6d, 0x88, 0xa3, 0x7a, 0x11, 0x0b, 0x3e, 0xfd, 0xdb, 0xf9, 0x86, 0x41, 0xca, 0x00, 0x93, 0xfd]
  const H6: C.State := [
    0xf7, 0x83, 0x40, 0x3f, 0x27, 0x43, 0x3d, 0xf0, 0x9b, 0xb5, 0x31, 0xff, 0x54, 0xab, 0xa9, 0xd3]

  const S7: C.State := [
    0x5a, 0x41, 0x42, 0xb1, 0x19, 0x49, 0xdc, 0x1f, 0xa3, 0xe0, 0x19, 0x65, 0x7a, 0x8c, 0x04, 0x0c]
  const K7: C.State := [
    0x4e, 0x54, 0xf7, 0x0e, 0x5f, 0x5f, 0xc9, 0xf3, 0x84, 0xa6, 0x4f, 0xb2, 0x4e, 0xa6, 0xdc, 0x4f]
  const H7: C.State := [
    0xbe, 0x3b, 0xd4, 0xfe, 0xd4, 0xe1, 0xf2, 0xc8, 0x0a, 0x64, 0x2c, 0xc0, 0xda, 0x83, 0x86, 0x4d]

  const S8: C.State := [
    0xea, 0x83, 0x5c, 0xf0, 0x04, 0x45, 0x33, 0x2d, 0x65, 0x5d, 0x98, 0xad, 0x85, 0x96, 0xb0, 0xc5]
  const K8: C.State := [
    0xea, 0xd2, 0x73, 0x21, 0xb5, 0x8d, 0xba, 0xd2, 0x31, 0x2b, 0xf5, 0x60, 0x7f, 0x8d, 0x29, 0x2f]
  const H8: C.State := [
    0x87, 0x6e, 0x46, 0xa6, 0xf2, 0x4c, 0xe7, 0x8c, 0x4d, 0x90, 0x4a, 0xd8, 0x97, 0xec, 0xc3, 0x95]

  const S9: C.State := [
    0xeb, 0x40, 0xf2, 0x1e, 0x59, 0x2e, 0x38, 0x84, 0x8b, 0xa1, 0x13, 0xe7, 0x1b, 0xc3, 0x42, 0xd2]
  const K9: C.State := [
    0xac, 0x77, 0x66, 0xf3, 0x19, 0xfa, 0xdc, 0x21, 0x28, 0xd1, 0x29, 0x41, 0x57, 0x5c, 0x00, 0x6e]
  const H9: C.State := [
    0xe9, 0x31, 0x7d, 0xb5, 0xcb, 0x32, 0x2c, 0x72, 0x3d, 0x2e, 0x89, 0x5f, 0xaf, 0x09, 0x07, 0x94]

  const S10: C.State := [
    0x39, 0x25, 0x84, 0x1d, 0x02, 0xdc, 0x09, 0xfb, 0xdc, 0x11, 0x85, 0x97, 0x19, 0x6a, 0x0b, 0x32]
  const K10: C.State := [
    0xd0, 0x14, 0xf9, 0xa8, 0xc9, 0xee, 0x25, 0x89, 0xe1, 0x3f, 0x0c, 0xc8, 0xb6, 0x63, 0x0c, 0xa6]

  lemma Key1() ensures NextKey(K0, 0x01) == K1 {}
  lemma Key2() ensures NextKey(K1, 0x02) == K2 {}
  lemma Key3() ensures NextKey(K2, 0x04) == K3 {}
  lemma Key4() ensures NextKey(K3, 0x08) == K4 {}
  lemma Key5() ensures NextKey(K4, 0x10) == K5 {}
  lemma Key6() ensures NextKey(K5, 0x20) == K6 {}
  lemma Key7() ensures NextKey(K6, 0x40) == K7 {}
  lemma Key8() ensures NextKey(K7, 0x80) == K8 {}
  lemma Key9() ensures NextKey(K8, 0x1b) == K9 {}
  lemma Key10() ensures NextKey(K9, 0x36) == K10 {}

  lemma Sub1A()
    ensures GetSBoxValue(0x19) == 0xd4 && GetSBoxValue(0x3d) == 0x27 && GetSBoxValue(0xe3) == 0x11
    ensures GetSBoxValue(0xbe) == 0xae && GetSBoxValue(0xa0) == 0xe0 && GetSBoxValue(0xf4) == 0xbf
    ensures GetSBoxValue(0xe2) == 0x98 && GetSBoxValue(0x2b) == 0xf1
  {}

  lemma Sub1B()
    ensures GetSBoxValue(0x9a) == 0xb8 && GetSBoxValue(0xc6) == 0xb4 && GetSBoxValue(0x8d) == 0x5d
    ensures GetSBoxValue(0x2a) == 0xe5 && GetSBoxValue(0xe9) == 0x1e && GetSBoxValue(0xf8) == 0x41
    ensures GetSBoxValue(0x48) == 0x52 && GetSBoxValue(0x08) == 0x30
  {}

  lemma Sub2A()
    ensures GetSBoxValue(0xa4) == 0x49 && GetSBoxValue(0x9c) == 0xde && GetSBoxValue(0x7f) == 0xd2
    ensures GetSBoxValue(0xf2) == 0x89 && GetSBoxValue(0x68) == 0x45 && GetSBoxValue(0x9f) == 0xdb
    ensures GetSBoxValue(0x35) == 0x96 && GetSBoxValue(0x2b) == 0xf1
  {}

  lemma Sub2B()
    ensures GetSBoxValue(0x6b) == 0x7f && GetSBoxValue(0x5b) == 0x39 && GetSBoxValue(0xea) == 0x87
    ensures GetSBoxValue(0x43) == 0x1a && GetSBoxValue(0x02) == 0x77 && GetSBoxValue(0x6a) == 0x02
    ensures GetSBoxValue(0x50) == 0x53 && GetSBoxValue(0x49) == 0x3b
  {}

  lemma Sub3A()
    ensures GetSBoxValue(0xaa) == 0xac && GetSBoxValue(0x8f) == 0x73 && GetSBoxValue(0x5f) == 0xcf
    ensures GetSBoxValue(0x03) == 0x7b && GetSBoxValue(0x61) == 0xef && GetSBoxValue(0xdd) == 0xc1
    ensures GetSBoxValue(0xe3) == 0x11 && GetSBoxValue(0xef) == 0xdf
  {}

  lemma Sub3B()
    ensures GetSBoxValue(0x82) == 0x13 && GetSBoxValue(0xd2) == 0xb5 && GetSBoxValue(0x4a) == 0xd6
    ensures GetSBoxValue(0xd2) == 0xb5 && GetSBoxValue(0x68) == 0x45 && GetSBoxValue(0x32) == 0x23
    ensures GetSBoxValue(0x46) == 0x5a && GetSBoxValue(0x9a) == 0xb8
  {}

  lemma Sub4A()
    ensures GetSBoxValue(0x48) == 0x52 && GetSBoxValue(0x6c) == 0x50 && GetSBoxValue(0x4e) == 0x2f
    ensures GetSBoxValue(0xee) == 0x28 && GetSBoxValue(0x67) == 0x85 && GetSBoxValue(0x1d) == 0xa4
    ensures GetSBoxValue(0x9d) == 0x5e && GetSBoxValue(0x0d) == 0xd7
  {}

  lemma Sub4B()
    ensures GetSBoxValue(0x4d) == 0xe3 && GetSBoxValue(0xe3) == 0x11 && GetSBoxValue(0xb1) == 0xc8
    ensures GetSBoxValue(0x38) == 0x07 && GetSBoxValue(0xd6) == 0xf6 && GetSBoxValue(0x5f) == 0xcf
    ensures GetSBoxValue(0x58) == 0x6a && GetSBoxValue(0xe7) == 0x94
  {}

  lemma Sub5A()
    ensures GetSBoxValue(0xe0) == 0xe1 && GetSBoxValue(0x92) == 0x4f && GetSBoxValue(0x7f) == 0xd2
    ensures GetSBoxValue(0xe8) == 0x9b && GetSBoxValue(0xc8) == 0xe8 && GetSBoxValue(0x63) == 0xfb
    ensures GetSBoxValue(0x63) == 0xfb && GetSBoxValue(0xc0) == 0xba
  {}

  lemma Sub5B()
    ensures GetSBoxValue(0xd9) == 0x35 && GetSBoxValue(0xb1) == 0xc8 && GetSBoxValue(0x35) == 0x96
    ensures GetSBoxValue(0x50) == 0x53 && GetSBoxValue(0x85) == 0x97 && GetSBoxValue(0xb8) == 0x6c
    ensures GetSBoxValue(0xbe) == 0xae && GetSBoxValue(0x01) == 0x7c
  {}

  lemma Sub6A()
    ensures GetSBoxValue(0xf1) == 0xa1 && GetSBoxValue(0x00) == 0x63 && GetSBoxValue(0x6f) == 0xa8
    ensures GetSBoxValue(0x55) == 0xfc && GetSBoxValue(0xc1) == 0x78 && GetSBoxValue(0x92) == 0x4f
    ensures GetSBoxValue(0x4c) == 0x29 && GetSBoxValue(0xef) == 0xdf
  {}

  lemma Sub6B()
    ensures GetSBoxValue(0x7c) == 0x10 && GetSBoxValue(0xc8) == 0xe8 && GetSBoxValue(0x8b) == 0x3d
    ensures GetSBoxValue(0x32) == 0x23 && GetSBoxValue(0x5d) == 0x4c && GetSBoxValue(0xb5) == 0xd5
    ensures GetSBoxValue(0xd5) == 0x03 && GetSBoxValue(0x0c) == 0xfe
  {}

  lemma Sub7A()
    ensures GetSBoxValue(0x26) == 0xf7 && GetSBoxValue(0x0e) == 0xab && GetSBoxValue(0x2e) == 0x31
    ensures GetSBoxValue(0x17) == 0xf0 && GetSBoxValue(0x3d) == 0x27 && GetSBoxValue(0x41) == 0x83
    ensures GetSBoxValue(0xb7) == 0xa9 && GetSBoxValue(0x7d) == 0xff
  {}

  lemma Sub7B()
    ensures GetSBoxValue(0xe8) == 0x9b && GetSBoxValue(0x64) == 0x43 && GetSBoxValue(0x72) == 0x40
    ensures GetSBoxValue(0xa9) == 0xd3 && GetSBoxValue(0xfd) == 0x54 && GetSBoxValue(0xd2) == 0xb5
    ensures GetSBoxValue(0x8b) == 0x3d && GetSBoxValue(0x25) == 0x3f
  {}

  lemma Sub8A()
    ensures GetSBoxValue(0x5a) == 0xbe && GetSBoxValue(0x41) == 0x83 && GetSBoxValue(0x42) == 0x2c
    ensures GetSBoxValue(0xb1) == 0xc8 && GetSBoxValue(0x19) == 0xd4 && GetSBoxValue(0x49) == 0x3b
    ensures GetSBoxValue(0xdc) == 0x86 && GetSBoxValue(0x1f) == 0xc0
  {}

  lemma Sub8B()
    ensures GetSBoxValue(0xa3) == 0x0a && GetSBoxValue(0xe0) == 0xe1 && GetSBoxValue(0x19) == 0xd4
    ensures GetSBoxValue(0x65) == 0x4d && GetSBoxValue(0x7a) == 0xda && GetSBoxValue(0x8c) == 0x64
    ensures GetSBoxValue(0x04) == 0xf2 && GetSBoxValue(0x0c) == 0xfe
  {}

  lemma Sub9A()
    ensures GetSBoxValue(0xea) == 0x87 && GetSBoxValue(0x83) == 0xec && GetSBoxValue(0x5c) == 0x4a
    ensures GetSBoxValue(0xf0) == 0x8c && GetSBoxValue(0x04) == 0xf2 && GetSBoxValue(0x45) == 0x6e
    ensures GetSBoxValue(0x33) == 0xc3 && GetSBoxValue(0x2d) == 0xd8
  {}

  lemma Sub9B()
    ensures GetSBoxValue(0x65) == 0x4d && GetSBoxValue(0x5d) == 0x4c && GetSBoxValue(0x98) == 0x46
    ensures GetSBoxValue(0xad) == 0x95 && GetSBoxValue(0x85) == 0x97 && GetSBoxValue(0x96) == 0x90
    ensures GetSBoxValue(0xb0) == 0xe7 && GetSBoxValue(0xc5) == 0xa6
  {}

  lemma Sub10A()
    ensures GetSBoxValue(0xeb) == 0xe9 && GetSBoxValue(0x40) == 0x09 && GetSBoxValue(0xf2) == 0x89
    ensures GetSBoxValue(0x1e) == 0x72 && GetSBoxValue(0x59) == 0xcb && GetSBoxValue(0x2e) == 0x31
    ensures GetSBoxValue(0x38) == 0x07 && GetSBoxValue(0x84) == 0x5f
  {}

  lemma Sub10B()
    ensures GetSBoxValue(0x8b) == 0x3d && GetSBoxValue(0xa1) == 0x32 && GetSBoxValue(0x13) == 0x7d
    ensures GetSBoxValue(0xe7) == 0x94 && GetSBoxValue(0x1b) == 0xaf && GetSBoxValue(0xc3) == 0x2e
    ensures GetSBoxValue(0x42) == 0x2c && GetSBoxValue(0xd2) == 0xb5
  {}

  lemma Shift1() ensures Shifted(S0) == H0 { hide GetSBoxValue; Sub1A(); Sub1B(); }
  lemma Shift2() ensures Shifted(S1) == H1 { hide GetSBoxValue; Sub2A(); Sub2B(); }
  lemma Shift3() ensures Shifted(S2) == H2 { hide GetSBoxValue; Sub3A(); Sub3B(); }
  lemma Shift4() ensures Shifted(S3) == H3 { hide GetSBoxValue; Sub4A(); Sub4B(); }
  lemma Shift5() ensures Shifted(S4) == H4 { hide GetSBoxValue; Sub5A(); Sub5B(); }
  lemma Shift6() ensures Shifted(S5) == H5 { hide GetSBoxValue; Sub6A(); Sub6B(); }
  lemma Shift7() ensures Shifted(S6) == H6 { hide GetSBoxValue; Sub7A(); Sub7B(); }
  lemma Shift8() ensures Shifted(S7) == H7 { hide GetSBoxValue; Sub8A(); Sub8B(); }
  lemma Shift9() ensures Shifted(S8) == H8 { hide GetSBoxValue; Sub9A(); Sub9B(); }
  lemma Shift10() ensures Shifted(S9) == H9 { hide GetSBoxValue; Sub10A(); Sub10B(); }

  lemma Mix1() ensures MixedWith(H0, K1) == S1 {}
  lemma Mix2() ensures MixedWith(H1, K2) == S2 {}
  lemma Mix3() ensures MixedWith(H2, K3) == S3 {}
  lemma Mix4() ensures MixedWith(H3, K4) == S4 {}
  lemma Mix5() ensures MixedWith(H4, K5) == S5 {}
  lemma Mix6() ensures MixedWith(H5, K6) == S6 {}
  lemma Mix7() ensures MixedWith(H6, K7) == S7 {}
  lemma Mix8() ensures MixedWith(H7, K8) == S8 {}
  lemma Mix9() ensures MixedWith(H8, K9) == S9 {}
  lemma Add0() ensures KeyWith(PLAIN, K0) == S0 {}
  lemma Add10() ensures KeyWith(H9, K10) == S10 {}

  lemma FirstKey()
    ensures RoundKey(KEY, 0) == K0
  {
    assert KEY[0..4] + KEY[4..8] + KEY[8..12] + KEY[12..16] == KEY;
  }

  lemma Keys()
    ensures RoundKey(KEY, 0) == K0
    ensures RoundKey(KEY, 1) == K1 && RoundKey(KEY, 2) == K2 && RoundKey(KEY, 3) == K3 && RoundKey(KEY, 4) == K4
    ensures RoundKey(KEY, 5) == K5 && RoundKey(KEY, 6) == K6 && RoundKey(KEY, 7) == K7 && RoundKey(KEY, 8) == K8
    ensures RoundKey(KEY, 9) == K9 && RoundKey(KEY, 10) == K10
  {
    hide RoundKey, NextKey;
    FirstKey();
    NextKeyIs(KEY, 0); Key1();
    NextKeyIs(KEY, 1); Key2();
    NextKeyIs(KEY, 2); Key3();
    NextKeyIs(KEY, 3); Key4();
    NextKeyIs(KEY, 4); Key5();
    NextKeyIs(KEY, 5); Key6();
    NextKeyIs(KEY, 6); Key7();
    NextKeyIs(KEY, 7); Key8();
    NextKeyIs(KEY, 8); Key9();
    NextKeyIs(KEY, 9); Key10();
  }

  /** The round key of a schedule. */
  function KeyOf(w: C.RoundKeys, n: nat): C.State
    requires n <= 10
  {
    w[16 * n..16 * n + 16]
  }

  /** A full round of the cipher, in the explicit form. */
  lemma NextState(p: C.State, w: C.RoundKeys, n: nat)
    requires n < 9
    ensures C.Rounds(p, w, n + 1) == MixedWith(Shifted(C.Rounds(p, w, n)), KeyOf(w, n + 1))
  {
    hide C.Rounds, C.AddRoundKey, C.MixColumns, C.ShiftRows, C.SubBytes, MixedWith, Shifted;
    C.NextRound(p, w, n);
    ShiftedIs(C.Rounds(p, w, n));
    MixedIs(Shifted(C.Rounds(p, w, n)), w, n + 1);
  }

  lemma LastState(p: C.State, w: C.RoundKeys)
    ensures C.Cipher(p, w) == KeyWith(Shifted(C.Rounds(p, w, 9)), KeyOf(w, 10))
  {
    hide C.Cipher, C.Rounds, C.AddRoundKey, C.ShiftRows, C.SubBytes, KeyWith, Shifted;
    C.LastRound(p, w);
    ShiftedIs(C.Rounds(p, w, 9));
    KeyIs(Shifted(C.Rounds(p, w, 9)), w, 10);
  }

  lemma States(w: C.RoundKeys)
    requires forall n | 0 <= n <= 10 :: KeyOf(w, n) == RoundKey(KEY, n)
    ensures C.Rounds(PLAIN, w, 9) == S9
  {
    hide RoundKey, MixedWith, Shifted, KeyWith, C.MixColumns, C.ShiftRows, C.SubBytes, C.AddRoundKey;
    Keys();
    KeyIs(PLAIN, w, 0); Add0();
    assert C.Rounds(PLAIN, w, 0) == S0;
    hide C.Rounds;
    NextState(PLAIN, w, 0); Shift1(); Mix1();
    NextState(PLAIN, w, 1); Shift2(); Mix2();
    NextState(PLAIN, w, 2); Shift3(); Mix3();
    NextState(PLAIN, w, 3); Shift4(); Mix4();
    NextState(PLAIN, w, 4); Shift5(); Mix5();
    NextState(PLAIN, w, 5); Shift6(); Mix6();
    NextState(PLAIN, w, 6); Shift7(); Mix7();
    NextState(PLAIN, w, 7); Shift8(); Mix8();
    NextState(PLAIN, w, 8); Shift9(); Mix9();
  }

  lemma Single(key: Key, p: C.State)
    ensures EcbEncrypted(key, p) == C.Cipher(p, Schedule(key))
  {
    hide C.Cipher, Schedule;
    assert p[..16] == p;
  }

  /** The standard's plaintext and key give the standard's ciphertext, and deciphering gives the plaintext back. */
  lemma KnownAnswer()
    ensures EcbEncrypted(KEY, PLAIN) == ANSWER && EcbDecrypted(KEY, ANSWER) == PLAIN
  {
    hide Schedule, RoundKey, C.Rounds, C.Cipher, C.InvCipher, Shifted, KeyWith, EcbEncrypted, EcbDecrypted;
    var w := Schedule(KEY);
    forall n | 0 <= n <= 10 ensures KeyOf(w, n) == RoundKey(KEY, n) { RoundKeyIs(KEY, n); }
    States(w);
    LastState(PLAIN, w);
    Shift10(); Keys(); Add10();
    Single(KEY, PLAIN);
    EcbRoundTrip(KEY, PLAIN);
  }
}
