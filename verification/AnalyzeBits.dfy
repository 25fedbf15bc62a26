/** The 64-bit arithmetic of the instruction-effect analyzer and of the interpreter it describes. */
module AnalyzeBits {
  type word = bv64

  datatype Width = W8 | W16 | W32 | W64 | W128

  function Mask(w: Width): word {
    match w
    case W8 => 0xFF
    case W16 => 0xFFFF
    case W32 => 0xFFFF_FFFF
    case W64 => 0xFFFF_FFFF_FFFF_FFFF
    case W128 => 0xFFFF_FFFF_FFFF_FFFF
  }

  const ONES: word := 0xFFFF_FFFF_FFFF_FFFF

  function And(a: word, b: word): word { a & b }

  function Or(a: word, b: word): word { a | b }

  function Xor(a: word, b: word): word { a ^ b }

  function Not(a: word): word { !a }

  function Add(a: word, b: word): word { a + b }

  function Sub(a: word, b: word): word { a - b }

  // Wrapping multiplication by a scale, as repeated addition.
  function Mul(a: word, n: nat): word { if n == 0 then 0 else Add(a, Mul(a, n - 1)) }

  // One place down, as the interpreter rotates through carry: the carry is taken as clear.
  function Half(v: word): word { v >> 1 }

  // The value at a width.
  function Cut(v: word, w: Width): word { And(v, Mask(w)) }

  // ---- Masks -------------------------------------------------------------------------------

  // Reading at width w of something known at width k loses nothing.
  predicate Covers(k: Width, w: Width) { And(Mask(k), Mask(w)) == Mask(w) }

  lemma AndLaws(a: word, b: word, c: word)
    ensures And(And(a, b), c) == And(a, And(b, c)) && And(a, b) == And(b, a) && And(a, a) == a
    ensures And(ONES, a) == a
  {
  }

  lemma CutTwice(v: word, k: Width, w: Width)
    requires Covers(k, w)
    ensures Cut(Cut(v, k), w) == Cut(v, w) && Cut(Cut(v, w), w) == Cut(v, w)
  {
    AndLaws(v, Mask(k), Mask(w));
    AndLaws(v, Mask(w), Mask(w));
  }

  lemma CutOnes(k: Width, w: Width)
    ensures Cut(Cut(ONES, k), w) == Cut(ONES, w) <==> Covers(k, w)
  {
    AndLaws(Mask(k), Mask(w), 0);
    AndLaws(Mask(w), 0, 0);
  }

  lemma CoversSelf(w: Width)
    ensures Covers(w, w)
  {
    AndLaws(Mask(w), 0, 0);
  }

  // Bits set above a mask do not show below it.
  lemma AboveMask(v: word, m: word)
    ensures And(Or(v, Not(m)), m) == And(v, m)
  {
  }

  // Bits kept from above a mask do not show below it either.
  lemma KeptAbove(p: word, v: word, m: word)
    ensures And(Or(And(p, Not(m)), v), m) == And(v, m)
  {
  }

  // ---- Neutral operands --------------------------------------------------------------------

  lemma NeutralZero(a: word)
    ensures Add(a, 0) == a && Sub(a, 0) == a && Or(a, 0) == a && Xor(a, 0) == a
  {
  }

  lemma ZeroTerms(a: word)
    ensures Add(0, a) == a
  {
  }

  lemma NeutralOnes(a: word, m: word, w: Width)
    requires Cut(m, w) == Cut(ONES, w)
    ensures Cut(And(a, m), w) == Cut(a, w)
  {
    AndLaws(a, m, Mask(w));
    AndLaws(Mask(w), 0, 0);
  }

  lemma XorSame(a: word, b: word, m: word)
    requires And(a, m) == And(b, m)
    ensures And(Xor(a, b), m) == 0
  {
  }

  lemma XorOnlySame(a: word, b: word, m: word)
    requires And(Xor(a, b), m) == 0
    ensures And(a, m) == And(b, m)
  {
  }

  // ---- Sign extension ----------------------------------------------------------------------

  function SignBit(w: Width): word {
    match w
    case W8 => 0x80
    case W16 => 0x8000
    case W32 => 0x8000_0000
    case W64 => 0x8000_0000_0000_0000
    case W128 => 0x8000_0000_0000_0000
  }

  // The low bits shifted to the top and back down.
  function UpAndDown(v: word, from: Width): word {
    match from
    case W8 => Shift56(v)
    case W16 => Shift48(v)
    case W32 => Shift32(v)
    case W64 => v
    case W128 => v
  }

  function Shift56(v: word): word { (v << 56) >> 56 }

  function Shift48(v: word): word { (v << 48) >> 48 }

  function Shift32(v: word): word { (v << 32) >> 32 }

  // The analyzer shifts down with the sign, which fills the bits above it.
  function SignFill(v: word, from: Width): word {
    if And(v, SignBit(from)) != 0 then Or(UpAndDown(v, from), Not(Mask(from))) else UpAndDown(v, from)
  }

  // The interpreter masks and then sets the bits above the sign.
  function SignExtended(v: word, from: Width): word {
    if And(Cut(v, from), SignBit(from)) != 0 then Or(Cut(v, from), Not(Mask(from))) else Cut(v, from)
  }

  lemma Shift56Is(v: word)
    ensures Shift56(v) == And(v, 0xFF)
  {
  }

  lemma Shift48Is(v: word)
    ensures Shift48(v) == And(v, 0xFFFF)
  {
  }

  lemma Shift32Is(v: word)
    ensures Shift32(v) == And(v, 0xFFFF_FFFF)
  {
  }

  lemma UpAndDownIsCut(v: word, from: Width)
    ensures UpAndDown(v, from) == Cut(v, from)
  {
    match from
    case W8 => Shift56Is(v);
    case W16 => Shift48Is(v);
    case W32 => Shift32Is(v);
    case W64 => AndLaws(v, Mask(W64), 0);
    case W128 => AndLaws(v, Mask(W128), 0);
  }

  lemma SignBitInside(w: Width)
    ensures And(Mask(w), SignBit(w)) == SignBit(w)
  {
  }

  /** The two ways to extend a sign agree on every value and width. */
  lemma SignFillIsExtended(v: word, from: Width)
    ensures SignFill(v, from) == SignExtended(v, from)
  {
    UpAndDownIsCut(v, from);
    AndLaws(v, Mask(from), SignBit(from));
    SignBitInside(from);
  }
}
