/** The block cipher as the program runs it: every step overwrites the 16 state bytes that start at an offset of
    a caller's buffer, and the key schedule is filled word by word. Each method is proved to leave exactly the
    value that the definitions of FIPS 197 in AesCipher give, and to touch nothing outside its block. */
module AesInPlace {
  import opened AesField
  import opened AesTables
  import C = AesCipher

  /** The block at an offset of a buffer's contents. */
  ghost function Block(s: seq<bv8>, off: nat): C.State
    requires off + 16 <= |s|
  {
    s[off..off + 16]
  }

  /** The contents `before` with the block at `off` replaced. */
  ghost function Replaced(before: seq<bv8>, off: nat, block: C.State): seq<bv8>
    requires off + 16 <= |before|
  {
    before[..off] + block + before[off + 16..]
  }

  /** Step k of a walk over the block: the indices in `done` hold the target, everything else is as before. */
  ghost predicate Partly(before: seq<bv8>, now: seq<bv8>, off: nat, target: C.State, done: set<int>)
  {
    && |now| == |before| && off + 16 <= |before|
    && (forall i | 0 <= i < |before| && !(off <= i < off + 16) :: now[i] == before[i])
    && (forall k | 0 <= k < 16 :: now[off + k] == if k in done then target[k] else before[off + k])
  }

  lemma Finished(before: seq<bv8>, now: seq<bv8>, off: nat, target: C.State, done: set<int>)
    requires Partly(before, now, off, target, done)
    requires forall k | 0 <= k < 16 :: k in done
    ensures now == Replaced(before, off, target)
  {
    forall i | 0 <= i < |before| ensures now[i] == Replaced(before, off, target)[i] {
      if off <= i < off + 16 { assert now[off + (i - off)] == target[i - off]; }
    }
  }

  method AddRoundKey(round: nat, buf: array<bv8>, off: nat, roundKey: array<bv8>)
    requires round <= C.NR && off + 16 <= buf.Length && roundKey.Length == 176 && roundKey != buf
    modifies buf
    ensures buf[..] == old(Replaced(buf[..], off, C.AddRoundKey(Block(buf[..], off), roundKey[..], round)))
  {
    ghost var before := buf[..];
    ghost var target := C.AddRoundKey(Block(before, off), roundKey[..], round);
    ghost var done: set<int> := {};
    for i := 0 to 4
      invariant Partly(before, buf[..], off, target, done)
      invariant forall k | 0 <= k < 16 :: k in done <==> k < 4 * i
    {
      for j := 0 to 4
        invariant Partly(before, buf[..], off, target, done)
        invariant forall k | 0 <= k < 16 :: k in done <==> k < 4 * i + j
      {
        buf[off + 4 * i + j] := buf[off + 4 * i + j] ^ roundKey[round * 16 + i * 4 + j];
        done := done + {4 * i + j};
      }
    }
    Finished(before, buf[..], off, target, done);
  }

  method SubBytes(buf: array<bv8>, off: nat)
    requires off + 16 <= buf.Length
    modifies buf
    ensures buf[..] == old(Replaced(buf[..], off, C.SubBytes(Block(buf[..], off))))
  {
    hide GetSBoxValue;
    ghost var before := buf[..];
    ghost var target := C.SubBytes(Block(before, off));
    ghost var done: set<int> := {};
    for i := 0 to 4
      invariant Partly(before, buf[..], off, target, done)
      invariant forall k | 0 <= k < 16 :: k in done <==> k % 4 < i
    {
      for j := 0 to 4
        invariant Partly(before, buf[..], off, target, done)
        invariant forall k | 0 <= k < 16 :: k in done <==> k % 4 < i || (k % 4 == i && k / 4 < j)
      {
        buf[off + 4 * j + i] := GetSBoxValue(buf[off + 4 * j + i]);
        done := done + {4 * j + i};
      }
    }
    Finished(before, buf[..], off, target, done);
  }

  method InvSubBytes(buf: array<bv8>, off: nat)
    requires off + 16 <= buf.Length
    modifies buf
    ensures buf[..] == old(Replaced(buf[..], off, C.InvSubBytes(Block(buf[..], off))))
  {
    hide GetSBoxInvert;
    ghost var before := buf[..];
    ghost var target := C.InvSubBytes(Block(before, off));
    ghost var done: set<int> := {};
    for i := 0 to 4
      invariant Partly(before, buf[..], off, target, done)
      invariant forall k | 0 <= k < 16 :: k in done <==> k % 4 < i
    {
      for j := 0 to 4
        invariant Partly(before, buf[..], off, target, done)
        invariant forall k | 0 <= k < 16 :: k in done <==> k % 4 < i || (k % 4 == i && k / 4 < j)
      {
        buf[off + 4 * j + i] := GetSBoxInvert(buf[off + 4 * j + i]);
        done := done + {4 * j + i};
      }
    }
    Finished(before, buf[..], off, target, done);
  }

  function Cyclic(r: nat, j: nat): (n: nat)
    requires r < 4 && j < 4
    ensures n < 4
  {
    if r + j < 4 then r + j else r + j - 4
  }

  lemma ShiftSourceAt(c: nat, r: nat)
    requires c < 4 && r < 4
    ensures C.ShiftSource(4 * c + r) == 4 * Cyclic(c, r) + r
    ensures C.InvShiftSource(4 * c + r) == if r == 0 then 4 * c else 4 * Cyclic(c, 4 - r) + r
  {
    assert (4 * c + r) % 4 == r;
  }

  // The two row shifts, column by column
  lemma ShiftedTarget(s: seq<bv8>, off: nat)
    requires off + 16 <= |s|
    ensures forall c | 0 <= c < 4 ::
              var t := C.ShiftRows(Block(s, off));
              && t[4 * c] == s[off + 4 * c] && t[4 * c + 1] == s[off + 4 * Cyclic(c, 1) + 1]
              && t[4 * c + 2] == s[off + 4 * Cyclic(c, 2) + 2] && t[4 * c + 3] == s[off + 4 * Cyclic(c, 3) + 3]
  {
    hide C.ShiftSource;
    forall c: nat | c < 4
      ensures
        var t := C.ShiftRows(Block(s, off));
        && t[4 * c] == s[off + 4 * c] && t[4 * c + 1] == s[off + 4 * Cyclic(c, 1) + 1]
        && t[4 * c + 2] == s[off + 4 * Cyclic(c, 2) + 2] && t[4 * c + 3] == s[off + 4 * Cyclic(c, 3) + 3]
    {
      ShiftSourceAt(c, 0); ShiftSourceAt(c, 1); ShiftSourceAt(c, 2); ShiftSourceAt(c, 3);
    }
  }

  lemma InvShiftedTarget(s: seq<bv8>, off: nat)
    requires off + 16 <= |s|
    ensures forall c | 0 <= c < 4 ::
              var t := C.InvShiftRows(Block(s, off));
              && t[4 * c] == s[off + 4 * c] && t[4 * c + 1] == s[off + 4 * Cyclic(c, 3) + 1]
              && t[4 * c + 2] == s[off + 4 * Cyclic(c, 2) + 2] && t[4 * c + 3] == s[off + 4 * Cyclic(c, 1) + 3]
  {
    hide C.InvShiftSource;
    forall c: nat | c < 4
      ensures
        var t := C.InvShiftRows(Block(s, off));
        && t[4 * c] == s[off + 4 * c] && t[4 * c + 1] == s[off + 4 * Cyclic(c, 3) + 1]
        && t[4 * c + 2] == s[off + 4 * Cyclic(c, 2) + 2] && t[4 * c + 3] == s[off + 4 * Cyclic(c, 1) + 3]
    {
      ShiftSourceAt(c, 0); ShiftSourceAt(c, 1); ShiftSourceAt(c, 2); ShiftSourceAt(c, 3);
    }
  }

  /** Only the four bytes of row r of the block at `off` may differ. */
  ghost predicate OnlyRow(before: seq<bv8>, now: seq<bv8>, off: nat, r: nat)
  {
    && |now| == |before|
    && forall i | 0 <= i < |before| && i != off + r && i != off + 4 + r && i != off + 8 + r && i != off + 12 + r ::
         now[i] == before[i]
  }

  /** Row r of the block has moved by n columns to the left. */
  ghost predicate RowMoved(before: seq<bv8>, now: seq<bv8>, off: nat, r: nat, n: nat)
    requires off + 16 <= |before| && r < 4 && n < 4
  {
    && OnlyRow(before, now, off, r)
    && now[off + r] == before[off + 4 * n + r]
    && now[off + 4 + r] == before[off + 4 * Cyclic(1, n) + r]
    && now[off + 8 + r] == before[off + 4 * Cyclic(2, n) + r]
    && now[off + 12 + r] == before[off + 4 * Cyclic(3, n) + r]
  }

  method RotateRow(buf: array<bv8>, off: nat, r: nat)
    requires r < 4 && off + 16 <= buf.Length
    modifies buf
    ensures RowMoved(old(buf[..]), buf[..], off, r, 1)
  {
    var temp := buf[off + r];
    buf[off + r] := buf[off + 4 + r];
    buf[off + 4 + r] := buf[off + 8 + r];
    buf[off + 8 + r] := buf[off + 12 + r];
    buf[off + 12 + r] := temp;
  }

  method SwapRow(buf: array<bv8>, off: nat, r: nat)
    requires r < 4 && off + 16 <= buf.Length
    modifies buf
    ensures RowMoved(old(buf[..]), buf[..], off, r, 2)
  {
    var temp := buf[off + r];
    buf[off + r] := buf[off + 8 + r];
    buf[off + 8 + r] := temp;
    temp := buf[off + 4 + r];
    buf[off + 4 + r] := buf[off + 12 + r];
    buf[off + 12 + r] := temp;
  }

  method UnrotateRow(buf: array<bv8>, off: nat, r: nat)
    requires r < 4 && off + 16 <= buf.Length
    modifies buf
    ensures RowMoved(old(buf[..]), buf[..], off, r, 3)
  {
    var temp := buf[off + 12 + r];
    buf[off + 12 + r] := buf[off + 8 + r];
    buf[off + 8 + r] := buf[off + 4 + r];
    buf[off + 4 + r] := buf[off + r];
    buf[off + r] := temp;
  }

  lemma RowsMovedFrame(s0: seq<bv8>, s1: seq<bv8>, s2: seq<bv8>, s3: seq<bv8>, off: nat, n1: nat, n3: nat)
    requires off + 16 <= |s0| == |s1| == |s2| && n1 < 4 && n3 < 4
    requires RowMoved(s0, s1, off, 1, n1) && RowMoved(s1, s2, off, 2, 2) && RowMoved(s2, s3, off, 3, n3)
    ensures |s3| == |s0| && forall i | 0 <= i < |s0| && !(off <= i < off + 16) :: s3[i] == s0[i]
  {}

  lemma RowsMovedColumn(s0: seq<bv8>, s1: seq<bv8>, s2: seq<bv8>, s3: seq<bv8>, off: nat, n1: nat, n3: nat, c: nat)
    requires off + 16 <= |s0| == |s1| == |s2| && n1 < 4 && n3 < 4 && c < 4
    requires RowMoved(s0, s1, off, 1, n1) && RowMoved(s1, s2, off, 2, 2) && RowMoved(s2, s3, off, 3, n3)
    ensures s3[off + 4 * c] == s0[off + 4 * c]
    ensures s3[off + 4 * c + 1] == s0[off + 4 * Cyclic(c, n1) + 1]
    ensures s3[off + 4 * c + 2] == s0[off + 4 * Cyclic(c, 2) + 2]
    ensures s3[off + 4 * c + 3] == s0[off + 4 * Cyclic(c, n3) + 3]
  {
    assert c == 0 || c == 1 || c == 2 || c == 3;
  }

  /** Columns 0 to i - 1 of the block hold the target, everything else is as before. */
  ghost predicate Columns(before: seq<bv8>, now: seq<bv8>, off: nat, target: C.State, i: nat)
  {
    && |now| == |before| && off + 16 <= |before|
    && (forall n | 0 <= n < |before| && !(off <= n < off + 4 * i) :: now[n] == before[n])
    && (forall k | 0 <= k < 16 && k < 4 * i :: now[off + k] == target[k])
  }

  lemma ColumnsDone(before: seq<bv8>, now: seq<bv8>, off: nat, target: C.State)
    requires Columns(before, now, off, target, 4)
    ensures now == Replaced(before, off, target)
  {
    forall n | 0 <= n < |before| ensures now[n] == Replaced(before, off, target)[n] {
      if off <= n < off + 16 { assert now[off + (n - off)] == target[n - off]; }
    }
  }

  /** Moving rows 1, 2 and 3 in turn, each by its own amount, assembles the whole block. */
  lemma RowsMoved(s0: seq<bv8>, s1: seq<bv8>, s2: seq<bv8>, s3: seq<bv8>, off: nat, n1: nat, n3: nat, target: C.State)
    requires off + 16 <= |s0| == |s1| == |s2| && n1 < 4 && n3 < 4
    requires RowMoved(s0, s1, off, 1, n1) && RowMoved(s1, s2, off, 2, 2) && RowMoved(s2, s3, off, 3, n3)
    requires forall c | 0 <= c < 4 ::
               && target[4 * c] == s0[off + 4 * c]
               && target[4 * c + 1] == s0[off + 4 * Cyclic(c, n1) + 1]
               && target[4 * c + 2] == s0[off + 4 * Cyclic(c, 2) + 2]
               && target[4 * c + 3] == s0[off + 4 * Cyclic(c, n3) + 3]
    ensures s3 == Replaced(s0, off, target)
  {
    hide Replaced, RowMoved, Cyclic;
    RowsMovedFrame(s0, s1, s2, s3, off, n1, n3);
    forall k | 0 <= k < 16 ensures s3[off + k] == target[k] {
      var c, r := k / 4, k % 4;
      RowsMovedColumn(s0, s1, s2, s3, off, n1, n3, c);
      assert k == 4 * c + r && (r == 0 || r == 1 || r == 2 || r == 3);
    }
    ColumnsDone(s0, s3, off, target);
  }

  method ShiftRows(buf: array<bv8>, off: nat)
    requires off + 16 <= buf.Length
    modifies buf
    ensures buf[..] == old(Replaced(buf[..], off, C.ShiftRows(Block(buf[..], off))))
  {
    hide *;
    ghost var s0 := buf[..];
    RotateRow(buf, off, 1);
    ghost var s1 := buf[..];
    SwapRow(buf, off, 2);
    ghost var s2 := buf[..];
    UnrotateRow(buf, off, 3);
    ShiftedTarget(s0, off);
    RowsMoved(s0, s1, s2, buf[..], off, 1, 3, C.ShiftRows(Block(s0, off)));
  }

  method InvShiftRows(buf: array<bv8>, off: nat)
    requires off + 16 <= buf.Length
    modifies buf
    ensures buf[..] == old(Replaced(buf[..], off, C.InvShiftRows(Block(buf[..], off))))
  {
    hide *;
    ghost var s0 := buf[..];
    UnrotateRow(buf, off, 1);
    ghost var s1 := buf[..];
    SwapRow(buf, off, 2);
    ghost var s2 := buf[..];
    RotateRow(buf, off, 3);
    InvShiftedTarget(s0, off);
    RowsMoved(s0, s1, s2, buf[..], off, 3, 1, C.InvShiftRows(Block(s0, off)));
  }

  lemma DownInColumn(i: nat, r: nat, j: nat)
    requires i < 4 && r < 4 && j < 4
    ensures C.Down(4 * i + r, j) == 4 * i + Cyclic(r, j)
  {
    assert (4 * i + r) % 4 == r;
  }

  /** Row r of column i of the mixed state. */
  lemma MixedAt(s: C.State, i: nat, r: nat)
    requires i < 4 && r < 4
    ensures
      C.MixColumns(s)[4 * i + r] ==
      Sum4(Times(s[4 * i + r], 0x02), Times(s[4 * i + Cyclic(r, 1)], 0x03),
           s[4 * i + Cyclic(r, 2)], s[4 * i + Cyclic(r, 3)])
  {
    hide Times, Sum4, C.Down;
    DownInColumn(i, r, 1); DownInColumn(i, r, 2); DownInColumn(i, r, 3);
  }

  lemma InvMixedAt(s: C.State, i: nat, r: nat)
    requires i < 4 && r < 4
    ensures
      C.InvMixColumns(s)[4 * i + r] ==
      Sum4(Times(s[4 * i + r], 0x0e), Times(s[4 * i + Cyclic(r, 1)], 0x0b),
           Times(s[4 * i + Cyclic(r, 2)], 0x0d), Times(s[4 * i + Cyclic(r, 3)], 0x09))
  {
    hide Times, Sum4, C.Down;
    DownInColumn(i, r, 1); DownInColumn(i, r, 2); DownInColumn(i, r, 3);
  }

  lemma SumRegrouped(a: bv8, b: bv8, c: bv8, d: bv8, a2: bv8, b2: bv8)
    ensures Plus(a, Plus(Plus(a2, b2), Sum4(a, b, c, d))) == Sum4(a2, Plus(b, b2), c, d)
  {
    assert Sum4(a, b, c, d) == (a ^ b) ^ (c ^ d);
    assert a ^ ((a2 ^ b2) ^ ((a ^ b) ^ (c ^ d))) == (a2 ^ (b ^ b2)) ^ (c ^ d);
  }

  /** The doubling shortcut on one byte, whichever byte the column sum starts from. */
  lemma Shortcut(a: bv8, b: bv8, c: bv8, d: bv8, tmp: bv8)
    requires tmp == Sum4(a, b, c, d)
    ensures Plus(a, Plus(Xtime(Plus(a, b)), tmp)) == Sum4(Times(a, 0x02), Times(b, 0x03), c, d)
  {
    hide Times, Xtime;
    XtimeIsTimesTwo(a); TimesThree(b); XtimeOfPlus(a, b);
    var a2, b2 := Xtime(a), Xtime(b);
    SumRegrouped(a, b, c, d, a2, b2);
  }

  /** The four bytes from index p went through the column matrix and no other byte changed. */
  ghost predicate ColumnMixed(s: seq<bv8>, now: seq<bv8>, p: nat)
    requires p + 4 <= |s|
  {
    && |now| == |s| && (forall i | 0 <= i < |s| && !(p <= i < p + 4) :: now[i] == s[i])
    && now[p] == Sum4(Times(s[p], 0x02), Times(s[p + 1], 0x03), s[p + 2], s[p + 3])
    && now[p + 1] == Sum4(Times(s[p + 1], 0x02), Times(s[p + 2], 0x03), s[p + 3], s[p])
    && now[p + 2] == Sum4(Times(s[p + 2], 0x02), Times(s[p + 3], 0x03), s[p], s[p + 1])
    && now[p + 3] == Sum4(Times(s[p + 3], 0x02), Times(s[p], 0x03), s[p + 1], s[p + 2])
  }

  method MixColumn(buf: array<bv8>, p: nat)
    requires p + 4 <= buf.Length
    modifies buf
    ensures ColumnMixed(old(buf[..]), buf[..], p)
  {
    hide Plus, Sum4, Times, Xtime;
    ghost var a, b, c, d := buf[p], buf[p + 1], buf[p + 2], buf[p + 3];
    Rotate(a, b, c, d); Rotate(b, c, d, a); Rotate(c, d, a, b);
    var t := buf[p];
    var tmp := Sum4(buf[p], buf[p + 1], buf[p + 2], buf[p + 3]);
    var tm := Xtime(Plus(buf[p], buf[p + 1]));
    buf[p] := Plus(buf[p], Plus(tm, tmp));
    tm := Xtime(Plus(buf[p + 1], buf[p + 2]));
    buf[p + 1] := Plus(buf[p + 1], Plus(tm, tmp));
    tm := Xtime(Plus(buf[p + 2], buf[p + 3]));
    buf[p + 2] := Plus(buf[p + 2], Plus(tm, tmp));
    tm := Xtime(Plus(buf[p + 3], t));
    buf[p + 3] := Plus(buf[p + 3], Plus(tm, tmp));
    Shortcut(a, b, c, d, tmp); Shortcut(b, c, d, a, tmp); Shortcut(c, d, a, b, tmp); Shortcut(d, a, b, c, tmp);
  }

  lemma ColumnDone(before: seq<bv8>, mid: seq<bv8>, now: seq<bv8>, off: nat, target: C.State, i: nat)
    requires i < 4 && Columns(before, mid, off, target, i)
    requires |now| == |mid|
    requires forall n | 0 <= n < |mid| && !(off + 4 * i <= n < off + 4 * i + 4) :: now[n] == mid[n]
    requires now[off + 4 * i] == target[4 * i] && now[off + 4 * i + 1] == target[4 * i + 1]
    requires now[off + 4 * i + 2] == target[4 * i + 2] && now[off + 4 * i + 3] == target[4 * i + 3]
    ensures Columns(before, now, off, target, i + 1)
  {
    forall k | 0 <= k < 16 && k < 4 * (i + 1) ensures now[off + k] == target[k] {
      if k >= 4 * i { assert k == 4 * i || k == 4 * i + 1 || k == 4 * i + 2 || k == 4 * i + 3; }
    }
  }

  lemma MixStep(before: seq<bv8>, mid: seq<bv8>, now: seq<bv8>, off: nat, i: nat)
    requires i < 4 && off + 16 <= |before| && Columns(before, mid, off, C.MixColumns(Block(before, off)), i)
    requires ColumnMixed(mid, now, off + 4 * i)
    ensures Columns(before, now, off, C.MixColumns(Block(before, off)), i + 1)
  {
    hide Times, Sum4, C.MixColumns;
    var block := Block(before, off);
    MixedAt(block, i, 0); MixedAt(block, i, 1); MixedAt(block, i, 2); MixedAt(block, i, 3);
    ColumnDone(before, mid, now, off, C.MixColumns(block), i);
  }

  method MixColumns(buf: array<bv8>, off: nat)
    requires off + 16 <= buf.Length
    modifies buf
    ensures buf[..] == old(Replaced(buf[..], off, C.MixColumns(Block(buf[..], off))))
  {
    hide ColumnMixed, C.MixColumns, Replaced;
    ghost var before := buf[..];
    for i := 0 to 4
      invariant Columns(before, buf[..], off, C.MixColumns(Block(before, off)), i)
    {
      ghost var mid := buf[..];
      MixColumn(buf, off + 4 * i);
      MixStep(before, mid, buf[..], off, i);
    }
    ColumnsDone(before, buf[..], off, C.MixColumns(Block(before, off)));
  }

  /** The four bytes from index p went through the inverse column matrix and no other byte changed. */
  ghost predicate ColumnUnmixed(s: seq<bv8>, now: seq<bv8>, p: nat)
    requires p + 4 <= |s|
  {
    && |now| == |s| && (forall i | 0 <= i < |s| && !(p <= i < p + 4) :: now[i] == s[i])
    && now[p] == Sum4(Times(s[p], 0x0e), Times(s[p + 1], 0x0b), Times(s[p + 2], 0x0d), Times(s[p + 3], 0x09))
    && now[p + 1] == Sum4(Times(s[p + 1], 0x0e), Times(s[p + 2], 0x0b), Times(s[p + 3], 0x0d), Times(s[p], 0x09))
    && now[p + 2] == Sum4(Times(s[p + 2], 0x0e), Times(s[p + 3], 0x0b), Times(s[p], 0x0d), Times(s[p + 1], 0x09))
    && now[p + 3] == Sum4(Times(s[p + 3], 0x0e), Times(s[p], 0x0b), Times(s[p + 1], 0x0d), Times(s[p + 2], 0x09))
  }

  /** The program sums each row starting from the first column; the rotated rows start from the diagonal. */
  lemma InvRows(a: bv8, b: bv8, c: bv8, d: bv8)
    ensures
      Sum4(Multiply(a, 0x0e), Multiply(b, 0x0b), Multiply(c, 0x0d), Multiply(d, 0x09)) ==
      Sum4(Times(a, 0x0e), Times(b, 0x0b), Times(c, 0x0d), Times(d, 0x09))
    ensures
      Sum4(Multiply(a, 0x09), Multiply(b, 0x0e), Multiply(c, 0x0b), Multiply(d, 0x0d)) ==
      Sum4(Times(b, 0x0e), Times(c, 0x0b), Times(d, 0x0d), Times(a, 0x09))
    ensures
      Sum4(Multiply(a, 0x0d), Multiply(b, 0x09), Multiply(c, 0x0e), Multiply(d, 0x0b)) ==
      Sum4(Times(c, 0x0e), Times(d, 0x0b), Times(a, 0x0d), Times(b, 0x09))
    ensures
      Sum4(Multiply(a, 0x0b), Multiply(b, 0x0d), Multiply(c, 0x09), Multiply(d, 0x0e)) ==
      Sum4(Times(d, 0x0e), Times(a, 0x0b), Times(b, 0x0d), Times(c, 0x09))
  {
    hide *;
    MultiplyNine(a); MultiplyNine(b); MultiplyNine(c); MultiplyNine(d);
    MultiplyEleven(a); MultiplyEleven(b); MultiplyEleven(c); MultiplyEleven(d);
    MultiplyThirteen(a); MultiplyThirteen(b); MultiplyThirteen(c); MultiplyThirteen(d);
    MultiplyFourteen(a); MultiplyFourteen(b); MultiplyFourteen(c); MultiplyFourteen(d);
    Rotate(Times(a, 0x09), Times(b, 0x0e), Times(c, 0x0b), Times(d, 0x0d));
    Rotate(Times(a, 0x0d), Times(b, 0x09), Times(c, 0x0e), Times(d, 0x0b));
    Rotate(Times(b, 0x09), Times(c, 0x0e), Times(d, 0x0b), Times(a, 0x0d));
    Rotate(Times(d, 0x0e), Times(a, 0x0b), Times(b, 0x0d), Times(c, 0x09));
  }

  method InvMixColumn(buf: array<bv8>, p: nat)
    requires p + 4 <= buf.Length
    modifies buf
    ensures ColumnUnmixed(old(buf[..]), buf[..], p)
  {
    hide Multiply, Sum4, Times;
    var a, b, c, d := buf[p], buf[p + 1], buf[p + 2], buf[p + 3];
    buf[p] := Sum4(Multiply(a, 0x0e), Multiply(b, 0x0b), Multiply(c, 0x0d), Multiply(d, 0x09));
    buf[p + 1] := Sum4(Multiply(a, 0x09), Multiply(b, 0x0e), Multiply(c, 0x0b), Multiply(d, 0x0d));
    buf[p + 2] := Sum4(Multiply(a, 0x0d), Multiply(b, 0x09), Multiply(c, 0x0e), Multiply(d, 0x0b));
    buf[p + 3] := Sum4(Multiply(a, 0x0b), Multiply(b, 0x0d), Multiply(c, 0x09), Multiply(d, 0x0e));
    InvRows(a, b, c, d);
  }

  lemma InvMixStep(before: seq<bv8>, mid: seq<bv8>, now: seq<bv8>, off: nat, i: nat)
    requires i < 4 && off + 16 <= |before| && Columns(before, mid, off, C.InvMixColumns(Block(before, off)), i)
    requires ColumnUnmixed(mid, now, off + 4 * i)
    ensures Columns(before, now, off, C.InvMixColumns(Block(before, off)), i + 1)
  {
    hide Times, Sum4, C.InvMixColumns;
    var block := Block(before, off);
    InvMixedAt(block, i, 0); InvMixedAt(block, i, 1); InvMixedAt(block, i, 2); InvMixedAt(block, i, 3);
    ColumnDone(before, mid, now, off, C.InvMixColumns(block), i);
  }

  method InvMixColumns(buf: array<bv8>, off: nat)
    requires off + 16 <= buf.Length
    modifies buf
    ensures buf[..] == old(Replaced(buf[..], off, C.InvMixColumns(Block(buf[..], off))))
  {
    hide ColumnUnmixed, C.InvMixColumns, Replaced;
    ghost var before := buf[..];
    for i := 0 to 4
      invariant Columns(before, buf[..], off, C.InvMixColumns(Block(before, off)), i)
    {
      ghost var mid := buf[..];
      InvMixColumn(buf, off + 4 * i);
      InvMixStep(before, mid, buf[..], off, i);
    }
    ColumnsDone(before, buf[..], off, C.InvMixColumns(Block(before, off)));
  }
}
