/** Arithmetic in the field of section 4 of FIPS 197: bytes are polynomials over the two-element field, taken
    modulo x^8 + x^4 + x^3 + x + 1. The program multiplies by repeated doubling; the reference definition here
    multiplies the polynomials and takes the remainder. */
module AesField {

  function Xtime(x: bv8): bv8
  {
    (x << 1) ^ (((x >> 7) & 1) * 0x1b)
  }

  /** The program's multiplication: only the five low bits of y take part. */
  function Multiply(x: bv8, y: bv8): bv8
  {
    ((y & 1) * x) ^
    (((y >> 1) & 1) * Xtime(x)) ^
    (((y >> 2) & 1) * Xtime(Xtime(x))) ^
    (((y >> 3) & 1) * Xtime(Xtime(Xtime(x)))) ^
    (((y >> 4) & 1) * Xtime(Xtime(Xtime(Xtime(x)))))
  }

  /** Product of two polynomials of degree below 8. */
  function PolynomialProduct(a: bv16, b: bv16): bv16
  {
    (if b & 0x01 == 0 then 0 else a) ^
    (if b & 0x02 == 0 then 0 else a << 1) ^
    (if b & 0x04 == 0 then 0 else a << 2) ^
    (if b & 0x08 == 0 then 0 else a << 3) ^
    (if b & 0x10 == 0 then 0 else a << 4) ^
    (if b & 0x20 == 0 then 0 else a << 5) ^
    (if b & 0x40 == 0 then 0 else a << 6) ^
    (if b & 0x80 == 0 then 0 else a << 7)
  }

  /** Removes one leading coefficient by subtracting a multiple of the modulus. */
  function Cancel(p: bv16, coefficient: bv16, multiple: bv16): bv16
  {
    if p & coefficient == 0 then p else p ^ multiple
  }

  /** Remainder modulo 0x11b, by long division from degree 14 down to degree 8. */
  function Remainder(p: bv16): bv16
  {
    var p := Cancel(p, 0x4000, 0x46c0);
    var p := Cancel(p, 0x2000, 0x2360);
    var p := Cancel(p, 0x1000, 0x11b0);
    var p := Cancel(p, 0x0800, 0x08d8);
    var p := Cancel(p, 0x0400, 0x046c);
    var p := Cancel(p, 0x0200, 0x0236);
    Cancel(p, 0x0100, 0x011b)
  }

  /** The field product of section 4.2 of FIPS 197. */
  function Times(a: bv8, b: bv8): bv8
  {
    (Remainder(PolynomialProduct(a as bv16, b as bv16)) & 0xff) as bv8
  }

  /** Field addition, and the sum of four elements. */
  function Plus(a: bv8, b: bv8): bv8 { a ^ b }

  function Sum4(a: bv8, b: bv8, c: bv8, d: bv8): bv8 { Plus(Plus(a, b), Plus(c, d)) }

  /** Long division leaves a polynomial of degree below 8, so keeping the low byte loses nothing. */
  lemma RemainderFits(a: bv8, b: bv8)
    ensures Remainder(PolynomialProduct(a as bv16, b as bv16)) < 0x100
  {}

  lemma XtimeIsTimesTwo(x: bv8)
    ensures Xtime(x) == Times(x, 0x02)
  {}

  lemma TimesThree(x: bv8)
    ensures Times(x, 0x03) == Plus(x, Xtime(x))
  {}

  // The four multipliers of the inverse column mix: the program's product is the field product, and both are
  // sums of repeated doublings.
  lemma MultiplyNine(x: bv8)
    ensures Multiply(x, 0x09) == Times(x, 0x09) == Sum4(x, 0, 0, Xtime(Xtime(Xtime(x))))
  {}

  lemma MultiplyEleven(x: bv8)
    ensures Multiply(x, 0x0b) == Times(x, 0x0b) == Sum4(x, Xtime(x), 0, Xtime(Xtime(Xtime(x))))
  {}

  lemma MultiplyThirteen(x: bv8)
    ensures Multiply(x, 0x0d) == Times(x, 0x0d) == Sum4(x, 0, Xtime(Xtime(x)), Xtime(Xtime(Xtime(x))))
  {}

  lemma MultiplyFourteen(x: bv8)
    ensures Multiply(x, 0x0e) == Times(x, 0x0e) == Sum4(0, Xtime(x), Xtime(Xtime(x)), Xtime(Xtime(Xtime(x))))
  {}

  // Sums of sums, rearranged

  lemma PlusIsAssociative(a: bv8, b: bv8, c: bv8)
    ensures Plus(Plus(a, b), c) == Plus(a, Plus(b, c))
  {}

  lemma PlusIsCommutative(a: bv8, b: bv8)
    ensures Plus(a, b) == Plus(b, a)
  {}

  lemma Exchange(a: bv8, b: bv8, c: bv8, d: bv8)
    ensures Plus(Plus(a, b), Plus(c, d)) == Plus(Plus(a, c), Plus(b, d))
  {
    hide *;
    PlusIsAssociative(a, b, Plus(c, d)); PlusIsAssociative(b, c, d);
    PlusIsCommutative(b, c);
    PlusIsAssociative(c, b, d); PlusIsAssociative(a, c, Plus(b, d));
  }

  lemma SumOfTwo(a: bv8, b: bv8, c: bv8, d: bv8, a': bv8, b': bv8, c': bv8, d': bv8)
    ensures Plus(Sum4(a, b, c, d), Sum4(a', b', c', d')) == Sum4(Plus(a, a'), Plus(b, b'), Plus(c, c'), Plus(d, d'))
  {
    hide Plus;
    Exchange(Plus(a, b), Plus(c, d), Plus(a', b'), Plus(c', d'));
    Exchange(a, b, a', b'); Exchange(c, d, c', d');
  }

  lemma Transpose(p0: bv8, p1: bv8, p2: bv8, p3: bv8, q0: bv8, q1: bv8, q2: bv8, q3: bv8,
                  r0: bv8, r1: bv8, r2: bv8, r3: bv8, s0: bv8, s1: bv8, s2: bv8, s3: bv8)
    ensures
      Sum4(Sum4(p0, q0, r0, s0), Sum4(p1, q1, r1, s1), Sum4(p2, q2, r2, s2), Sum4(p3, q3, r3, s3)) ==
      Sum4(Sum4(p0, p1, p2, p3), Sum4(q0, q1, q2, q3), Sum4(r0, r1, r2, r3), Sum4(s0, s1, s2, s3))
  {
    hide Plus;
    SumOfTwo(p0, q0, r0, s0, p1, q1, r1, s1);
    SumOfTwo(p2, q2, r2, s2, p3, q3, r3, s3);
    SumOfTwo(Plus(p0, p1), Plus(q0, q1), Plus(r0, r1), Plus(s0, s1),
             Plus(p2, p3), Plus(q2, q3), Plus(r2, r3), Plus(s2, s3));
  }

  lemma Rotate(a: bv8, b: bv8, c: bv8, d: bv8)
    ensures Sum4(b, c, d, a) == Sum4(a, b, c, d)
  {
    hide Plus;
    PlusIsCommutative(d, a);
    Exchange(b, c, a, d);
    PlusIsCommutative(b, a);
  }

  lemma SumWithZeros(a: bv8)
    ensures Sum4(a, 0, 0, 0) == a
  {}

  lemma XtimeOfPlus(x: bv8, y: bv8)
    ensures Xtime(Plus(x, y)) == Plus(Xtime(x), Xtime(y))
  {}

  /** Doubling is additive. */
  lemma XtimeOfSum(a: bv8, b: bv8, c: bv8, d: bv8)
    ensures Xtime(Sum4(a, b, c, d)) == Sum4(Xtime(a), Xtime(b), Xtime(c), Xtime(d))
  {
    hide Plus, Xtime;
    XtimeOfPlus(Plus(a, b), Plus(c, d)); XtimeOfPlus(a, b); XtimeOfPlus(c, d);
  }

  predicate Multiplier(k: bv8) { k == 0x09 || k == 0x0b || k == 0x0d || k == 0x0e }

  lemma MultiplierCases(k: bv8)
    requires Multiplier(k)
    ensures k == 0x09 || k == 0x0b || k == 0x0d || k == 0x0e
  {}

  /** Multiplication by a coefficient of the inverse matrix is additive. */
  lemma TimesOfSum(a: bv8, b: bv8, c: bv8, d: bv8, k: bv8)
    requires Multiplier(k)
    ensures Times(Sum4(a, b, c, d), k) == Sum4(Times(a, k), Times(b, k), Times(c, k), Times(d, k))
  {
    hide *;
    var s := Sum4(a, b, c, d);
    var a1, b1, c1, d1, s1 := Xtime(a), Xtime(b), Xtime(c), Xtime(d), Xtime(s);
    var a2, b2, c2, d2, s2 := Xtime(a1), Xtime(b1), Xtime(c1), Xtime(d1), Xtime(s1);
    var a3, b3, c3, d3, s3 := Xtime(a2), Xtime(b2), Xtime(c2), Xtime(d2), Xtime(s2);
    XtimeOfSum(a, b, c, d); XtimeOfSum(a1, b1, c1, d1); XtimeOfSum(a2, b2, c2, d2);
    SumWithZeros(0);
    if k == 0x09 {
      MultiplyNine(s); MultiplyNine(a); MultiplyNine(b); MultiplyNine(c); MultiplyNine(d);
      Transpose(a, 0, 0, a3, b, 0, 0, b3, c, 0, 0, c3, d, 0, 0, d3);
    } else if k == 0x0b {
      MultiplyEleven(s); MultiplyEleven(a); MultiplyEleven(b); MultiplyEleven(c); MultiplyEleven(d);
      Transpose(a, a1, 0, a3, b, b1, 0, b3, c, c1, 0, c3, d, d1, 0, d3);
    } else if k == 0x0d {
      MultiplyThirteen(s); MultiplyThirteen(a); MultiplyThirteen(b); MultiplyThirteen(c); MultiplyThirteen(d);
      Transpose(a, 0, a2, a3, b, 0, b2, b3, c, 0, c2, c3, d, 0, d2, d3);
    } else {
      assert k == 0x0e by { MultiplierCases(k); }
      MultiplyFourteen(s); MultiplyFourteen(a); MultiplyFourteen(b); MultiplyFourteen(c); MultiplyFourteen(d);
      Transpose(0, a1, a2, a3, 0, b1, b2, b3, 0, c1, c2, c3, 0, d1, d2, d3);
    }
  }

  // The product of the inverse column matrix 0e 0b 0d 09 and the column matrix 02 03 01 01, column by column

  lemma ProductColumn0(a: bv8)
    ensures Sum4(Times(Times(a, 0x02), 0x0e), Times(a, 0x0b), Times(a, 0x0d), Times(Times(a, 0x03), 0x09)) == a
  {
    hide Times, Multiply;
    XtimeIsTimesTwo(a); TimesThree(a);
    MultiplyFourteen(Times(a, 2)); MultiplyEleven(a); MultiplyThirteen(a); MultiplyNine(Times(a, 3));
  }

  lemma ProductColumn1(b: bv8)
    ensures Sum4(Times(Times(b, 0x03), 0x0e), Times(Times(b, 0x02), 0x0b), Times(b, 0x0d), Times(b, 0x09)) == 0
  {
    hide Times, Multiply;
    XtimeIsTimesTwo(b); TimesThree(b);
    MultiplyFourteen(Times(b, 3)); MultiplyEleven(Times(b, 2)); MultiplyThirteen(b); MultiplyNine(b);
  }

  lemma ProductColumn2(c: bv8)
    ensures Sum4(Times(c, 0x0e), Times(Times(c, 0x03), 0x0b), Times(Times(c, 0x02), 0x0d), Times(c, 0x09)) == 0
  {
    hide Times, Multiply;
    XtimeIsTimesTwo(c); TimesThree(c);
    MultiplyFourteen(c); MultiplyEleven(Times(c, 3)); MultiplyThirteen(Times(c, 2)); MultiplyNine(c);
  }

  lemma ProductColumn3(d: bv8)
    ensures Sum4(Times(d, 0x0e), Times(d, 0x0b), Times(Times(d, 0x03), 0x0d), Times(Times(d, 0x02), 0x09)) == 0
  {
    hide Times, Multiply;
    XtimeIsTimesTwo(d); TimesThree(d);
    MultiplyFourteen(d); MultiplyEleven(d); MultiplyThirteen(Times(d, 3)); MultiplyNine(Times(d, 2));
  }

  /** The two column matrices are inverse to each other: row 0 of the product, from which the other rows follow
      because both matrices are made of rotations of one row. */
  lemma InvMixedByte(a: bv8, b: bv8, c: bv8, d: bv8)
    ensures
      var m0 := Sum4(Times(a, 0x02), Times(b, 0x03), c, d);
      var m1 := Sum4(Times(b, 0x02), Times(c, 0x03), d, a);
      var m2 := Sum4(Times(c, 0x02), Times(d, 0x03), a, b);
      var m3 := Sum4(Times(d, 0x02), Times(a, 0x03), b, c);
      Sum4(Times(m0, 0x0e), Times(m1, 0x0b), Times(m2, 0x0d), Times(m3, 0x09)) == a
  {
    hide Times, Sum4;
    var a2, b2, c2, d2 := Times(a, 0x02), Times(b, 0x02), Times(c, 0x02), Times(d, 0x02);
    var a3, b3, c3, d3 := Times(a, 0x03), Times(b, 0x03), Times(c, 0x03), Times(d, 0x03);
    TimesOfSum(a2, b3, c, d, 0x0e);
    TimesOfSum(b2, c3, d, a, 0x0b); Rotate(Times(a, 0x0b), Times(b2, 0x0b), Times(c3, 0x0b), Times(d, 0x0b));
    TimesOfSum(c2, d3, a, b, 0x0d);
    Rotate(Times(a, 0x0d), Times(b, 0x0d), Times(c2, 0x0d), Times(d3, 0x0d));
    Rotate(Times(b, 0x0d), Times(c2, 0x0d), Times(d3, 0x0d), Times(a, 0x0d));
    TimesOfSum(d2, a3, b, c, 0x09); Rotate(Times(d2, 0x09), Times(a3, 0x09), Times(b, 0x09), Times(c, 0x09));
    Transpose(Times(a2, 0x0e), Times(a, 0x0b), Times(a, 0x0d), Times(a3, 0x09),
              Times(b3, 0x0e), Times(b2, 0x0b), Times(b, 0x0d), Times(b, 0x09),
              Times(c, 0x0e), Times(c3, 0x0b), Times(c2, 0x0d), Times(c, 0x09),
              Times(d, 0x0e), Times(d, 0x0b), Times(d3, 0x0d), Times(d2, 0x09));
    ProductColumn0(a); ProductColumn1(b); ProductColumn2(c); ProductColumn3(d);
    SumWithZeros(a);
  }
}
