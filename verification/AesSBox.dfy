/** The substitution table against its definition in section 5.1.1 of FIPS 197: the inverse in the field, then an affine
    map over the bits. */
module AesSBox {

  import opened AesTables
  import opened AesField

  /** Bit i of the result is the sum of bits i, i + 4, i + 5, i + 6 and i + 7 of the argument and bit i of 0x63. */
  function Affine(b: bv8): bv8
  {
    b ^ ((b << 1) | (b >> 7)) ^ ((b << 2) | (b >> 6)) ^ ((b << 3) | (b >> 5)) ^ ((b << 4) | (b >> 4)) ^ 0x63
  }

  /** The inverse map. */
  function Unaffine(b: bv8): bv8
  {
    ((b << 1) | (b >> 7)) ^ ((b << 3) | (b >> 5)) ^ ((b << 6) | (b >> 2)) ^ 0x05
  }

  lemma AffineOfUnaffine(b: bv8)
    ensures Affine(Unaffine(b)) == b
  {}

  /** The multiplicative inverse, with zero as its own. */
  predicate IsInverse(x: bv8, y: bv8) { if x == 0 then y == 0 else Times(x, y) == 1 }

  lemma EntryIsInverted(x: bv8)
    requires x != 0
    ensures Times(x, Unaffine(GetSBoxValue(x))) == 1
  {}

  // No other byte is an inverse: one lemma for each part of the table keeps the search small.
  lemma Only0(x: bv8, y: bv8) requires x >> 5 == 0 && x != 0 && Times(x, y) == 1 ensures Affine(y) == GetSBoxValue(x) {}
  lemma Only1(x: bv8, y: bv8) requires x >> 5 == 1 && Times(x, y) == 1 ensures Affine(y) == GetSBoxValue(x) {}
  lemma Only2(x: bv8, y: bv8) requires x >> 5 == 2 && Times(x, y) == 1 ensures Affine(y) == GetSBoxValue(x) {}
  lemma Only3(x: bv8, y: bv8) requires x >> 5 == 3 && Times(x, y) == 1 ensures Affine(y) == GetSBoxValue(x) {}
  lemma Only4A(x: bv8, y: bv8) requires x >> 2 == 32 && Times(x, y) == 1 ensures Affine(y) == GetSBoxValue(x) {}
  lemma Only4B(x: bv8, y: bv8) requires x >> 2 == 33 && Times(x, y) == 1 ensures Affine(y) == GetSBoxValue(x) {}
  lemma Only4C(x: bv8, y: bv8) requires x >> 3 == 17 && Times(x, y) == 1 ensures Affine(y) == GetSBoxValue(x) {}
  lemma Only4D(x: bv8, y: bv8) requires x >> 4 == 9 && Times(x, y) == 1 ensures Affine(y) == GetSBoxValue(x) {}
  lemma Only5(x: bv8, y: bv8) requires x >> 5 == 5 && Times(x, y) == 1 ensures Affine(y) == GetSBoxValue(x) {}
  lemma Only6(x: bv8, y: bv8) requires x >> 5 == 6 && Times(x, y) == 1 ensures Affine(y) == GetSBoxValue(x) {}
  lemma Only7(x: bv8, y: bv8) requires x >> 5 == 7 && Times(x, y) == 1 ensures Affine(y) == GetSBoxValue(x) {}

  /** Every byte has an inverse whose affine image is the table's entry. */
  lemma EntryHasInverse(x: bv8)
    ensures exists y :: IsInverse(x, y) && Affine(y) == GetSBoxValue(x)
  {
    AffineOfUnaffine(GetSBoxValue(x));
    if x != 0 { EntryIsInverted(x); }
    assert IsInverse(x, Unaffine(GetSBoxValue(x)));
  }

  lemma ZeroEntry()
    ensures GetSBoxValue(0) == Affine(0)
  {}

  /** The table holds the affine image of the inverse, for every byte. */
  lemma SBoxIsAffineOfInverse(x: bv8, y: bv8)
    requires IsInverse(x, y)
    ensures GetSBoxValue(x) == Affine(y)
  {
    hide Times, Affine, GetSBoxValue;
    if x == 0 {
      ZeroEntry();
    } else {
      match x >> 5
      case 0 => Only0(x, y);
      case 1 => Only1(x, y);
      case 2 => Only2(x, y);
      case 3 => Only3(x, y);
      case 4 =>
        if x >> 2 == 32 { Only4A(x, y); } else if x >> 2 == 33 { Only4B(x, y); }
        else if x >> 3 == 17 { Only4C(x, y); } else { Only4D(x, y); }
      case 5 => Only5(x, y);
      case 6 => Only6(x, y);
      case _ => Only7(x, y);
    }
  }
}
