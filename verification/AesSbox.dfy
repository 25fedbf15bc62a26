/**
 The substitution table is the one of FIPS-197 section 5.1.1: the multiplicative inverse in GF(2^8),
 zero standing for itself, followed by an affine map of its bits.
 */
module AesSbox {
  import opened AesTables
  import opened AesField

  // Each bit plus the four below it, cyclically, plus the constant.
  function Affine(b: bv8): bv8 {
    b ^ ((b << 1) | (b >> 7)) ^ ((b << 2) | (b >> 6)) ^ ((b << 3) | (b >> 5)) ^ ((b << 4) | (b >> 4)) ^ 0x63
  }

  function Unaffine(b: bv8): bv8 {
    ((b << 1) | (b >> 7)) ^ ((b << 3) | (b >> 5)) ^ ((b << 6) | (b >> 2)) ^ 0x05
  }

  lemma UnaffineUndoes(b: bv8)
    ensures Affine(Unaffine(b)) == b
  {
  }

  function Term(a: bv8, b: bv8): bv8 { if b & 1 != 0 then a else 0 }

  // The product written out, bit by bit of b.
  function Flat(a: bv8, b: bv8): bv8 {
    var a1 := Xtime(a);
    var a2 := Xtime(a1);
    var a3 := Xtime(a2);
    var a4 := Xtime(a3);
    var a5 := Xtime(a4);
    var a6 := Xtime(a5);
    var a7 := Xtime(a6);
    Xor(Term(a, b), Xor(Term(a1, b >> 1), Xor(Term(a2, b >> 2), Xor(Term(a3, b >> 3),
    Xor(Term(a4, b >> 4), Xor(Term(a5, b >> 5), Xor(Term(a6, b >> 6), Term(a7, b >> 7))))))))
  }

  function Half(b: bv8): bv8 { b >> 1 }

  lemma MulUnfolds(a: bv8, b: bv8)
    ensures Mul(a, b) == Xor(Term(a, b), Mul(Xtime(a), Half(b)))
  {
    XorZero(Mul(Xtime(a), Half(b)));
  }

  lemma Halvings(b: bv8)
    ensures Half(b) == b >> 1 && Half(b >> 1) == b >> 2 && Half(b >> 2) == b >> 3 && Half(b >> 3) == b >> 4
    ensures Half(b >> 4) == b >> 5 && Half(b >> 5) == b >> 6 && Half(b >> 6) == b >> 7 && Half(b >> 7) == 0
  {
  }

  lemma MulIsFlat(a: bv8, b: bv8)
    ensures Mul(a, b) == Flat(a, b)
  {
    var a1 := Xtime(a);
    var a2 := Xtime(a1);
    var a3 := Xtime(a2);
    var a4 := Xtime(a3);
    var a5 := Xtime(a4);
    var a6 := Xtime(a5);
    var a7 := Xtime(a6);
    Halvings(b);
    MulUnfolds(a, b);
    MulUnfolds(a1, b >> 1);
    MulUnfolds(a2, b >> 2);
    MulUnfolds(a3, b >> 3);
    MulUnfolds(a4, b >> 4);
    MulUnfolds(a5, b >> 5);
    MulUnfolds(a6, b >> 6);
    MulUnfolds(a7, b >> 7);
    XorZero(Term(a7, b >> 7));
  }

  predicate Inverse(b: bv8) { b == 0 || Flat(b, Unaffine(Sbox(b))) == 1 }

  lemma Quarter0(b: bv8)
    requires b < 0x40
    ensures Inverse(b)
  {
  }

  lemma Quarter1(b: bv8)
    requires 0x40 <= b < 0x80
    ensures Inverse(b)
  {
  }

  lemma Quarter2(b: bv8)
    requires 0x80 <= b < 0xc0
    ensures Inverse(b)
  {
  }

  lemma Quarter3(b: bv8)
    requires 0xc0 <= b
    ensures Inverse(b)
  {
  }

  /** Every entry of the table is the affine map of the inverse of its index, and entry zero of zero. */
  lemma SboxIsInverse(b: bv8) returns (inverse: bv8)
    ensures Sbox(b) == Affine(inverse)
    ensures if b == 0 then inverse == 0 else Mul(b, inverse) == 1
  {
    inverse := Unaffine(Sbox(b));
    UnaffineUndoes(Sbox(b));
    MulIsFlat(b, inverse);
    if b < 0x40 {
      Quarter0(b);
    } else if b < 0x80 {
      Quarter1(b);
    } else if b < 0xc0 {
      Quarter2(b);
    } else {
      Quarter3(b);
    }
  }
}
