/**
 Arithmetic in GF(2^8) modulo x^8 + x^4 + x^3 + x + 1 (FIPS-197 section 4.2), and its linearity.
 */
module AesField {
  // Addition in the field.  Proofs below go through these laws and not through the bits.
  function Xor(a: bv8, b: bv8): bv8 { a ^ b }

  function Xtime(a: bv8): bv8 {
    if a & 0x80 != 0 then (a << 1) ^ 0x1b else a << 1
  }

  // The sum of x^i * a over the bits i of b.
  function Mul(a: bv8, b: bv8): bv8
    decreases b
  {
    if b == 0 then 0
    else
      ShiftShrinks(b);
      if b & 1 != 0 then Xor(a, Mul(Xtime(a), b >> 1)) else Mul(Xtime(a), b >> 1)
  }

  lemma ShiftShrinks(b: bv8)
    requires b != 0
    ensures b >> 1 < b
  {
  }

  // The largest value an i-fold shifted byte can have.
  function Ceiling(i: nat): bv8 { if i == 0 then 0xff else Ceiling(i - 1) >> 1 }

  /** The shift-and-add loop multiplies. */
  method Gmul(x: bv8, y: bv8) returns (p: bv8)
    ensures p == Mul(x, y)
  {
    var a, b := x, y;
    p := 0;
    XorZero(Mul(a, b));
    for i := 0 to 8
      invariant Xor(p, Mul(a, b)) == Mul(x, y)
      invariant b <= Ceiling(i)
    {
      MulStep(p, a, b);
      if b & 1 != 0 {
        p := p ^ a;
      }
      var hi := a & 0x80;
      a := a << 1;
      if hi != 0 {
        a := a ^ 0x1b;
      }
      b := b >> 1;
    }
    XorZero(p);
  }

  // One turn of the loop moves the lowest bit's term from the product to come into p.
  lemma MulStep(p: bv8, a: bv8, b: bv8)
    ensures Xor(p, Mul(a, b)) == Xor(if b & 1 != 0 then Xor(p, a) else p, Mul(Xtime(a), b >> 1))
  {
    XorAssoc(p, a, Mul(Xtime(a), b >> 1));
  }

  // ---- Exclusive or ------------------------------------------------------------------------

  lemma XorZero(a: bv8)
    ensures Xor(0, a) == a && Xor(a, 0) == a && Xor(a, a) == 0
  {
  }

  lemma XorComm(a: bv8, b: bv8)
    ensures Xor(a, b) == Xor(b, a)
  {
  }

  lemma XorAssoc(a: bv8, b: bv8, c: bv8)
    ensures Xor(Xor(a, b), c) == Xor(a, Xor(b, c))
  {
  }

  lemma XorSwap(a: bv8, b: bv8, c: bv8, d: bv8)
    ensures Xor(Xor(a, b), Xor(c, d)) == Xor(Xor(a, c), Xor(b, d))
  {
    XorAssoc(a, b, Xor(c, d));
    XorAssoc(b, c, d);
    XorComm(b, c);
    XorAssoc(c, b, d);
    XorAssoc(a, c, Xor(b, d));
  }

  // ---- Linearity ---------------------------------------------------------------------------

  lemma ShiftXor(a: bv8, b: bv8)
    ensures (a ^ b) << 1 == (a << 1) ^ (b << 1)
  {
  }

  lemma TopBitXor(a: bv8, b: bv8)
    ensures (a ^ b) & 0x80 == (a & 0x80) ^ (b & 0x80)
    ensures a & 0x80 == 0 || a & 0x80 == 0x80
  {
  }

  lemma CancelTwice(a: bv8, b: bv8, c: bv8)
    ensures (a ^ c) ^ (b ^ c) == a ^ b
  {
  }

  lemma XtimeLinear(a: bv8, b: bv8)
    ensures Xtime(Xor(a, b)) == Xor(Xtime(a), Xtime(b))
  {
    ShiftXor(a, b);
    TopBitXor(a, b);
    TopBitXor(b, a);
    CancelTwice(a << 1, b << 1, 0x1b);
  }

  /** Multiplication by any fixed element is linear. */
  lemma {:induction false} MulLinear(a: bv8, b: bv8, c: bv8)
    ensures Mul(Xor(a, b), c) == Xor(Mul(a, c), Mul(b, c))
    decreases c
  {
    if c == 0 {
      XorZero(0);
    } else {
      ShiftShrinks(c);
      MulLinear(Xtime(a), Xtime(b), c >> 1);
      XtimeLinear(a, b);
      XorSwap(a, b, Mul(Xtime(a), c >> 1), Mul(Xtime(b), c >> 1));
    }
  }

  // ---- The product is the product of polynomials modulo 0x11b ------------------------------

  function Xor16(p: bv16, q: bv16): bv16 { p ^ q }
  function Double(p: bv16): bv16 { p << 1 }

  // The product of two polynomials over GF(2), not reduced.
  function Carryless(w: bv16, b: bv8): bv16
    decreases b
  {
    if b == 0 then 0
    else
      ShiftShrinks(b);
      if b & 1 != 0 then Xor16(w, Carryless(Double(w), b >> 1)) else Carryless(Double(w), b >> 1)
  }

  // Cancel the leading coefficient `bit` of p, if set, with the multiple `poly` of the modulus.
  predicate Has(p: bv16, bit: bv16) { p & bit != 0 }

  function Cancel(p: bv16, bit: bv16, poly: bv16): bv16 {
    if Has(p, bit) then Xor16(p, poly) else p
  }

  // x^(8+k), and the modulus times x^k.
  function Bit(k: nat): bv16 { if k == 0 then 0x100 else Double(Bit(k - 1)) }
  function Poly(k: nat): bv16 { if k == 0 then 0x11b else Double(Poly(k - 1)) }

  // Long division of p by x^8 + x^4 + x^3 + x + 1, from the coefficient of x^(7+k) down.
  function Mod(p: bv16, k: nat): bv16
    decreases k
  {
    if k == 0 then p else Mod(Cancel(p, Bit(k - 1), Poly(k - 1)), k - 1)
  }

  lemma Xor16Laws(p: bv16, q: bv16)
    ensures Xor16(p, q) == Xor16(q, p) && Xor16(p, 0) == p && Xor16(p, p) == 0
  {
  }

  lemma Xor16Assoc(p: bv16, q: bv16, r: bv16)
    ensures Xor16(Xor16(p, q), r) == Xor16(p, Xor16(q, r))
  {
  }

  lemma BitOfXor(p: bv16, q: bv16, bit: bv16)
    requires bit != 0 && bit & (bit - 1) == 0
    ensures (p ^ q) & bit != 0 <==> (p & bit != 0) != (q & bit != 0)
  {
  }

  lemma BitXor16(p: bv16, q: bv16, bit: bv16)
    requires bit != 0 && bit & (bit - 1) == 0
    ensures Has(Xor16(p, q), bit) <==> Has(p, bit) != Has(q, bit)
  {
    BitOfXor(p, q, bit);
  }

  lemma CancelLinear(p: bv16, q: bv16, bit: bv16, poly: bv16)
    requires bit != 0 && bit & (bit - 1) == 0
    ensures Cancel(Xor16(p, q), bit, poly) == Xor16(Cancel(p, bit, poly), Cancel(q, bit, poly))
  {
    BitXor16(p, q, bit);
    CancelCases(Has(p, bit), Has(q, bit), p, q, poly);
  }

  lemma CancelCases(a: bool, b: bool, p: bv16, q: bv16, poly: bv16)
    ensures (if a != b then Xor16(Xor16(p, q), poly) else Xor16(p, q))
         == Xor16(if a then Xor16(p, poly) else p, if b then Xor16(q, poly) else q)
  {
    if a && b {
      BothCancel(p, q, poly);
    } else if a {
      OneCancels(p, q, poly);
    } else if b {
      Xor16Assoc(p, q, poly);
    }
  }

  lemma BothCancel(p: bv16, q: bv16, poly: bv16)
    ensures Xor16(Xor16(p, poly), Xor16(q, poly)) == Xor16(p, q)
  {
    Xor16Laws(q, poly);
    Xor16Assoc(p, poly, Xor16(poly, q));
    Xor16Assoc(poly, poly, q);
    Xor16Laws(poly, 0);
    Xor16Laws(q, 0);
  }

  lemma OneCancels(p: bv16, q: bv16, poly: bv16)
    ensures Xor16(Xor16(p, q), poly) == Xor16(Xor16(p, poly), q)
  {
    Xor16Assoc(p, q, poly);
    Xor16Laws(q, poly);
    Xor16Assoc(p, poly, q);
  }

  lemma CancelShift(p: bv16, bit: bv16, poly: bv16)
    requires p < 0x8000 && bit < 0x8000 && poly < 0x8000
    ensures Cancel(Double(p), Double(bit), Double(poly)) == Double(Cancel(p, bit, poly))
    ensures Cancel(p, bit, poly) < 0x8000
  {
  }

  lemma BitIsSingle(k: nat)
    requires k < 8
    ensures Bit(k) != 0 && Bit(k) & (Bit(k) - 1) == 0
    ensures k < 7 ==> Bit(k) < 0x8000 && Poly(k) < 0x8000
  {
    assert k == 0 || k == 1 || k == 2 || k == 3 || k == 4 || k == 5 || k == 6 || k == 7;
  }

  lemma {:induction false} ModLinear(p: bv16, q: bv16, k: nat)
    requires k <= 8
    ensures Mod(Xor16(p, q), k) == Xor16(Mod(p, k), Mod(q, k))
    decreases k
  {
    if k > 0 {
      BitIsSingle(k - 1);
      CancelLinear(p, q, Bit(k - 1), Poly(k - 1));
      ModLinear(Cancel(p, Bit(k - 1), Poly(k - 1)), Cancel(q, Bit(k - 1), Poly(k - 1)), k - 1);
    }
  }

  // Dividing x * p is dividing p, multiplying the remainder by x and cancelling once more.
  lemma {:induction false} ModShift(p: bv16, k: nat)
    requires k < 8 && p < 0x8000
    ensures Mod(Double(p), k + 1) == Cancel(Double(Mod(p, k)), 0x100, 0x11b)
    decreases k
  {
    if k > 0 {
      BitIsSingle(k - 1);
      CancelShift(p, Bit(k - 1), Poly(k - 1));
      ModShift(Cancel(p, Bit(k - 1), Poly(k - 1)), k - 1);
    }
  }

  function Widen(a: bv8): bv16 { a as bv16 }

  lemma WidenXor(a: bv8, b: bv8)
    ensures Widen(Xor(a, b)) == Xor16(Widen(a), Widen(b))
  {
  }

  lemma XtimeIsModulo(r: bv8)
    ensures Cancel(Double(Widen(r)), 0x100, 0x11b) == Widen(Xtime(r))
  {
  }

  // The largest product an i-fold doubled byte can be.
  function Top(i: nat): bv16 { if i == 0 then 0xff else Double(Top(i - 1)) | 1 }

  lemma BoundsStep(w: bv16, b: bv8, i: nat)
    requires i <= 8 && w <= Top(i) && b <= Ceiling(i) && b != 0
    ensures i < 8 && w < 0x8000 && Double(w) <= Top(i + 1) && b >> 1 <= Ceiling(i + 1)
  {
    assert i == 0 || i == 1 || i == 2 || i == 3 || i == 4 || i == 5 || i == 6 || i == 7 || i == 8;
  }

  // What the proof needs of the remainder: additive, and doubling under it is Xtime.
  ghost predicate Residue(f: bv16 -> bv16) {
    && f(0) == 0
    && (forall p, q :: f(Xor16(p, q)) == Xor16(f(p), f(q)))
    && (forall w, r :: w < 0x8000 && f(w) == Widen(r) ==> f(Double(w)) == Widen(Xtime(r)))
  }

  lemma {:induction false} ProductUnder(f: bv16 -> bv16, w: bv16, r: bv8, b: bv8, i: nat)
    requires Residue(f)
    requires i <= 8 && w <= Top(i) && b <= Ceiling(i)
    requires f(w) == Widen(r)
    ensures f(Carryless(w, b)) == Widen(Mul(r, b))
    decreases b
  {
    if b != 0 {
      BoundsStep(w, b, i);
      ShiftShrinks(b);
      ProductUnder(f, Double(w), Xtime(r), b >> 1, i + 1);
      WidenXor(r, Mul(Xtime(r), b >> 1));
    }
  }

  lemma ModDouble(w: bv16, r: bv8)
    requires w < 0x8000 && Mod(w, 8) == Widen(r)
    ensures Mod(Double(w), 8) == Widen(Xtime(r))
  {
    assert Bit(7) == 0x8000;
    ModShift(w, 7);
    XtimeIsModulo(r);
  }

  lemma ModIsResidue(f: bv16 -> bv16, k: nat)
    requires k == 8 && forall p :: f(p) == Mod(p, k)
    ensures Residue(f)
  {
    ModSmall(0, k);
    forall p, q
      ensures f(Xor16(p, q)) == Xor16(f(p), f(q))
    {
      ModLinear(p, q, k);
    }
    forall w, r | w < 0x8000 && f(w) == Widen(r)
      ensures f(Double(w)) == Widen(Xtime(r))
    {
      ModDouble(w, r);
    }
  }

  /** The product is the product of the two polynomials, reduced modulo x^8 + x^4 + x^3 + x + 1. */
  lemma MulIsPolynomialProduct(a: bv8, b: bv8)
    ensures Widen(Mul(a, b)) == Mod(Carryless(Widen(a), b), 8)
  {
    var f := p => Mod(p, 8);
    ModIsResidue(f, 8);
    ModSmall(Widen(a), 8);
    ProductUnder(f, Widen(a), a, b, 0);
  }

  lemma {:induction false} ModSmall(p: bv16, k: nat)
    requires p < 0x100 && k <= 8
    ensures Mod(p, k) == p
    decreases k
  {
    if k > 0 {
      NoHighBit(p, k - 1);
      ModSmall(p, k - 1);
    }
  }

  lemma NoHighBit(p: bv16, k: nat)
    requires p < 0x100 && k < 8
    ensures p & Bit(k) == 0
  {
    assert k == 0 || k == 1 || k == 2 || k == 3 || k == 4 || k == 5 || k == 6 || k == 7;
  }
}
