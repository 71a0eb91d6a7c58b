/** The key schedule: the recursive word definition of section 5.2 of FIPS 197, and the program's loop that fills
    the 176 round-key bytes in place. */
module AesSchedule {
  import opened AesField
  import opened AesTables
  import C = AesCipher

  type Key = k: seq<bv8> | |k| == 16 witness [0, 0, 0, 0, 0, 0, 0, 0, 0, 0, 0, 0, 0, 0, 0, 0]
  type Word = w: seq<bv8> | |w| == 4 witness [0, 0, 0, 0]

  /** The round constant of section 5.2: the power of x whose exponent is i - 1. */
  function RoundConstant(i: nat): bv8
    requires i > 0
  {
    if i == 1 then 0x01 else Times(RoundConstant(i - 1), 0x02)
  }

  function RotWord(w: Word): Word { [w[1], w[2], w[3], w[0]] }

  function SubWord(w: Word): Word
  {
    [GetSBoxValue(w[0]), GetSBoxValue(w[1]), GetSBoxValue(w[2]), GetSBoxValue(w[3])]
  }

  function XorWord(v: Word, w: Word): Word { [v[0] ^ w[0], v[1] ^ w[1], v[2] ^ w[2], v[3] ^ w[3]] }

  /** Word i of the schedule. */
  function ScheduleWord(key: Key, i: nat): Word
  {
    if i < 4 then key[4 * i..4 * i + 4]
    else
      var previous := ScheduleWord(key, i - 1);
      var temp := if i % 4 == 0
                  then XorWord(SubWord(RotWord(previous)), [RoundConstant(i / 4), 0, 0, 0])
                  else previous;
      XorWord(ScheduleWord(key, i - 4), temp)
  }

  function Schedule(key: Key): C.RoundKeys
  {
    seq(176, n requires 0 <= n < 176 => ScheduleWord(key, n / 4)[n % 4])
  }

  /** The program's table of round constants. */
  function Rcon(i: nat): bv8
    requires i <= 10
  {
    match i
    case 0 => 0x8d case 1 => 0x01 case 2 => 0x02 case 3 => 0x04 case 4 => 0x08 case 5 => 0x10
    case 6 => 0x20 case 7 => 0x40 case 8 => 0x80 case 9 => 0x1b case _ => 0x36
  }

  lemma RconDoubles(i: nat)
    requires 1 < i <= 10
    ensures Times(Rcon(i - 1), 0x02) == Rcon(i)
  {
    hide Times;
    XtimeIsTimesTwo(Rcon(i - 1));
  }

  lemma RconIsRoundConstant(i: nat)
    requires 0 < i <= 10
    ensures Rcon(i) == RoundConstant(i)
  {
    if i > 1 {
      RconIsRoundConstant(i - 1);
      RconDoubles(i);
    }
  }

  /** The first i words of the array are the first i words of the schedule. */
  ghost predicate Filled(a: seq<bv8>, key: Key, i: nat)
  {
    |a| == 176 && forall j | 0 <= j < i && 4 * j + 4 <= 176 :: a[4 * j..4 * j + 4] == ScheduleWord(key, j)
  }

  lemma FillOne(before: seq<bv8>, now: seq<bv8>, key: Key, i: nat)
    requires i < 44 && Filled(before, key, i) && |now| == 176
    requires forall n | 0 <= n < 176 && !(4 * i <= n < 4 * i + 4) :: now[n] == before[n]
    requires now[4 * i] == ScheduleWord(key, i)[0] && now[4 * i + 1] == ScheduleWord(key, i)[1]
    requires now[4 * i + 2] == ScheduleWord(key, i)[2] && now[4 * i + 3] == ScheduleWord(key, i)[3]
    ensures Filled(now, key, i + 1)
  {
    hide ScheduleWord;
    forall j | 0 <= j < i + 1 && 4 * j + 4 <= 176 ensures now[4 * j..4 * j + 4] == ScheduleWord(key, j) {
      if j < i { assert now[4 * j..4 * j + 4] == before[4 * j..4 * j + 4]; }
    }
  }

  method CopyWord(key: array<bv8>, roundKey: array<bv8>, i: nat)
    requires i < 4 && key.Length >= 16 && roundKey.Length == 176 && key != roundKey
    requires Filled(roundKey[..], key[..16], i)
    modifies roundKey
    ensures Filled(roundKey[..], key[..16], i + 1)
  {
    ghost var before := roundKey[..];
    roundKey[4 * i] := key[4 * i];
    roundKey[4 * i + 1] := key[4 * i + 1];
    roundKey[4 * i + 2] := key[4 * i + 2];
    roundKey[4 * i + 3] := key[4 * i + 3];
    FillOne(before, roundKey[..], key[..16], i);
  }

  /** The transformed previous word: what the schedule adds to the word four places back. */
  function Temp(previous: Word, i: nat): Word
    requires 4 <= i < 44
  {
    if i % 4 == 0 then XorWord(SubWord(RotWord(previous)), [RoundConstant(i / 4), 0, 0, 0]) else previous
  }

  lemma TempBytes(previous: Word, i: nat)
    requires 4 <= i < 44 && i % 4 == 0
    ensures
      Temp(previous, i) ==
      [GetSBoxValue(previous[1]) ^ Rcon(i / 4), GetSBoxValue(previous[2]), GetSBoxValue(previous[3]),
       GetSBoxValue(previous[0])]
  {
    hide GetSBoxValue, RoundConstant, Rcon;
    RconIsRoundConstant(i / 4);
  }

  method TempOf(roundKey: array<bv8>, i: nat) returns (t0: bv8, t1: bv8, t2: bv8, t3: bv8)
    requires 4 <= i < 44 && roundKey.Length == 176
    ensures [t0, t1, t2, t3] == Temp(roundKey[4 * (i - 1)..4 * i], i)
  {
    hide GetSBoxValue, Rcon, RoundConstant;
    t0, t1, t2, t3 :=
      roundKey[(i - 1) * 4], roundKey[(i - 1) * 4 + 1], roundKey[(i - 1) * 4 + 2], roundKey[(i - 1) * 4 + 3];
    if i % 4 == 0 {
      ghost var previous := roundKey[4 * (i - 1)..4 * i];
      t0, t1, t2, t3 := t1, t2, t3, t0;
      t0, t1, t2, t3 := GetSBoxValue(t0), GetSBoxValue(t1), GetSBoxValue(t2), GetSBoxValue(t3);
      t0 := t0 ^ Rcon(i / 4);
      TempBytes(previous, i);
    }
  }

  lemma WordIsSum(key: Key, i: nat)
    requires 4 <= i < 44
    ensures ScheduleWord(key, i) == XorWord(ScheduleWord(key, i - 4), Temp(ScheduleWord(key, i - 1), i))
    ensures i % 4 != 0 ==> Temp(ScheduleWord(key, i - 1), i) == ScheduleWord(key, i - 1)
  {
    hide GetSBoxValue, RoundConstant;
  }

  method NextWord(roundKey: array<bv8>, ghost key: Key, i: nat)
    requires 4 <= i < 44 && roundKey.Length == 176
    requires Filled(roundKey[..], key, i)
    modifies roundKey
    ensures Filled(roundKey[..], key, i + 1)
  {
    hide ScheduleWord, Temp;
    ghost var before := roundKey[..];
    assert before[4 * (i - 1)..4 * (i - 1) + 4] == ScheduleWord(key, i - 1);
    assert before[4 * (i - 4)..4 * (i - 4) + 4] == ScheduleWord(key, i - 4);
    var t0, t1, t2, t3 := TempOf(roundKey, i);
    assert roundKey[4 * (i - 1)..4 * i] == ScheduleWord(key, i - 1);
    WordIsSum(key, i);
    roundKey[i * 4] := roundKey[(i - 4) * 4] ^ t0;
    roundKey[i * 4 + 1] := roundKey[(i - 4) * 4 + 1] ^ t1;
    roundKey[i * 4 + 2] := roundKey[(i - 4) * 4 + 2] ^ t2;
    roundKey[i * 4 + 3] := roundKey[(i - 4) * 4 + 3] ^ t3;
    FillOne(before, roundKey[..], key, i);
  }

  lemma AllFilled(a: seq<bv8>, key: Key)
    requires Filled(a, key, 44)
    ensures a == Schedule(key)
  {
    hide ScheduleWord;
    forall n | 0 <= n < 176 ensures a[n] == ScheduleWord(key, n / 4)[n % 4] {
      var j := n / 4;
      assert a[4 * j..4 * j + 4] == ScheduleWord(key, j);
      assert a[n] == a[4 * j..4 * j + 4][n % 4];
    }
  }

  method KeyExpansion(key: array<bv8>, roundKey: array<bv8>)
    requires key.Length >= 16 && roundKey.Length == 176 && key != roundKey
    modifies roundKey
    ensures roundKey[..] == Schedule(key[..16])
  {
    hide Schedule, ScheduleWord;
    for i := 0 to 4
      invariant Filled(roundKey[..], key[..16], i)
    {
      CopyWord(key, roundKey, i);
    }
    for i := 4 to 44
      invariant Filled(roundKey[..], key[..16], i)
    {
      NextWord(roundKey, key[..16], i);
    }
    AllFilled(roundKey[..], key[..16]);
  }
}
