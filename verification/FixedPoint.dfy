/**
 Q47.16 fixed-point square root by sixteen Newton steps whose divisor is truncated to an integer.
 Values are raw 64-bit integers, 65536 standing for one.
 */
module FixedPoint {
  import opened Common

  const ONE: int := 65536
  const TWO63: int := 0x8000_0000_0000_0000

  // The largest value whose square fits 64 bits; no iterate from there on down has a larger one.
  const LIMIT: int := 0xB5_04F3_33F9

  type i64 = x: int | -TWO63 <= x < TWO63

  function Wrap(z: int): i64 {
    if -TWO63 <= z < TWO63 then z else (z + TWO63) % TWO64 - TWO63
  }

  // Shifts right and the cast to 64 bits, as the operators do them.
  function Mul(a: i64, b: i64): i64 { Wrap((a * b) / ONE) }

  function Sub(a: i64, b: i64): i64 { Wrap(a - b) }

  function Add(a: i64, b: i64): i64 { Wrap(a + b) }

  // Division truncates towards zero.
  function Quotient(a: int, b: int): int
    requires b != 0
  {
    if a >= 0 then a / b else -((-a) / b)
  }

  // The divisor of a step: twice x, shifted down to an integer.
  function Divisor(x: i64): int { Wrap(2 * x) / ONE }

  // One step, or none when it would divide by zero.
  function Step(s: i64, x: i64): Option<i64> {
    if Wrap(2 * x) == 0 then Some(x)
    else if Divisor(x) == 0 then None
    else Some(Wrap(x + Quotient(Sub(s, Mul(x, x)), Divisor(x))))
  }

  // ---- One step ----------------------------------------------------------------------------

  // x is not below the root by more than the truncation can take it: x^2 >= s - 1/4, in raw units.
  ghost predicate NotFarBelow(s: int, x: int) { 4 * (x * x) >= 4 * (s * ONE) - ONE * ONE }

  // Iterates stay where products fit.
  ghost predicate Fits(s: int, x: int) { 0 < x <= Cap(s) }

  function Cap(s: int): int { if s > 2 * ONE then s else 2 * ONE + ONE / 4 }

  lemma SquareFloor(x: int)
    requires 0 <= x
    ensures 0 <= x * x && ONE * ((x * x) / ONE) <= x * x < ONE * ((x * x) / ONE) + ONE
  {
  }

  lemma SquareMonotone(a: int, b: int)
    requires 0 <= a <= b
    ensures a * a <= b * b
  {
  }

  /** Squares fit 64 bits up to the limit and no further. */
  lemma SquareFits(x: int)
    requires 0 < x
    ensures 0 <= (x * x) / ONE
    ensures (x * x) / ONE < TWO63 <==> x <= LIMIT
  {
    if x <= LIMIT {
      SquareMonotone(x, LIMIT);
    } else {
      SquareMonotone(LIMIT + 1, x);
    }
    FloorBelow(x * x);
  }

  lemma FloorBelow(sq: int)
    requires 0 <= sq
    ensures 0 <= sq / ONE
    ensures sq <= LIMIT * LIMIT ==> sq / ONE < TWO63
    ensures sq >= (LIMIT + 1) * (LIMIT + 1) ==> sq / ONE >= TWO63
  {
  }

  // The exact value of a step.
  function Next(s: int, x: int): int
    requires 2 * x / ONE != 0
  {
    x + Quotient(s - (x * x) / ONE, 2 * x / ONE)
  }

  /** Inside the limit, products fit: the arithmetic of a step is exact. */
  lemma StepExact(s: i64, x: i64)
    requires 0 < s <= LIMIT && Fits(s, x)
    ensures Step(s, x) == if 2 * x < ONE then None else Some(Next(s, x))
  {
    SquareFits(x);
    assert Mul(x, x) == (x * x) / ONE;
    if 2 * x >= ONE {
      QuotientSmall(s - (x * x) / ONE, 2 * x / ONE);
    }
  }

  lemma QuotientSmall(a: int, b: int)
    requires b > 0
    ensures a >= 0 ==> 0 <= Quotient(a, b) <= a
    ensures a < 0 ==> a <= Quotient(a, b) <= 0
  {
    if a >= 0 {
      DivSmall(a, b);
    } else {
      DivSmall(-a, b);
    }
  }

  lemma DivSmall(a: int, b: int)
    requires a >= 0 && b > 0
    ensures 0 <= a / b <= a && a / b * b <= a < (a / b + 1) * b
  {
    var q := a / b;
    assert a == q * b + a % b;
    assert (q + 1) * b == q * b + b;
    if q > 0 {
      assert q * b >= q;
    }
  }

  lemma HalfReached(s: int, x: int)
    requires 2 * s >= ONE && x > 0 && NotFarBelow(s, x)
    ensures 2 * x >= ONE
  {
    if 2 * x < ONE {
      SquareMonotone(2 * x, ONE - 1);
    }
  }

  /** Rising or falling, a step never ends far below the root. */
  lemma StepKeeps(s: int, x: int)
    requires 0 < s && 0 < x && NotFarBelow(s, x) && 2 * x >= ONE
    ensures NotFarBelow(s, Next(s, x)) && Next(s, x) > 0
  {
    var sq := x * x;
    var q, d := sq / ONE, 2 * x / ONE;
    SquareFloor(x);
    QuotientSmall(s - q, d);
    if s >= q {
      RisingStep(s, x, Quotient(s - q, d));
    } else {
      DivSmall(q - s, d);
      FallingStep(s, x, q, d, (q - s) / d);
      StaysPositive(s, x, q, d, (q - s) / d);
    }
  }

  lemma RisingStep(s: int, x: int, t: int)
    requires 0 < x && 0 <= t && NotFarBelow(s, x)
    ensures NotFarBelow(s, x + t)
  {
    SquareMonotone(x, x + t);
  }

  // With u = floor((q - s) / d), x - u has lost no more than a quarter of the truncated part squared.
  lemma FallingStep(s: int, x: int, q: int, d: int, u: int)
    requires x > 0 && ONE * q <= x * x && ONE * d <= 2 * x < ONE * d + ONE
    requires 0 <= u && u * d <= q - s
    ensures NotFarBelow(s, x - u)
  {
    var g := 2 * x - ONE * d;
    assert (x - u) * (x - u) == x * x - 2 * x * u + u * u;
    assert 2 * x * u == g * u + ONE * (u * d);
    assert (x - u) * (x - u) >= ONE * q - ONE * (u * d) - g * u + u * u;
    assert ONE * (u * d) <= ONE * (q - s);
    assert (2 * u - g) * (2 * u - g) >= 0;
    assert (2 * u - g) * (2 * u - g) == 4 * (u * u) - 4 * (g * u) + g * g;
    SquareMonotone(g, ONE);
  }

  lemma StaysPositive(s: int, x: int, q: int, d: int, u: int)
    requires s > 0 && 2 * x >= ONE && ONE * q <= x * x && 2 * x < ONE * d + ONE
    requires 0 <= u && u * d <= q - s
    ensures u < x
  {
    assert ONE * d >= x;
    assert u * x <= u * (ONE * d) == ONE * (u * d);
    if u >= x {
      Scaled(x, u, x);
    }
  }

  lemma Scaled(a: int, b: int, c: int)
    requires a <= b && 0 <= c
    ensures a * c <= b * c
  {
  }

  lemma FitsKept(s: int, x: int)
    requires 0 < s && Fits(s, x) && NotFarBelow(s, x) && 2 * x >= ONE
    ensures Next(s, x) <= Cap(s)
  {
    var sq := x * x;
    var q, d := sq / ONE, 2 * x / ONE;
    SquareFloor(x);
    QuotientSmall(s - q, d);
    if s >= q {
      assert s - q <= ONE / 4;
      RootBelowCap(s, x);
    }
  }

  // A value whose square is not above s stays a quarter below the cap.
  lemma RootBelowCap(s: int, x: int)
    requires 0 < s && 0 < x && x * x < ONE * s + ONE
    ensures x <= Cap(s) - ONE / 4
  {
    var t := Cap(s) - ONE / 4;
    if x > t {
      SquareMonotone(t, x);
      Scaled(7 * ONE, 4 * t, t);
      assert false;
    }
  }

  // ---- Accuracy from above -----------------------------------------------------------------

  // Any integer not below the root, in raw units.
  ghost predicate Above(s: int, r: int) { r > 0 && r * r >= s * ONE }

  /** The distance to a quarter above the root at least halves with every step. */
  lemma StepHalves(s: int, x: int, r: int)
    requires ONE <= 2 * s && 0 < x && NotFarBelow(s, x) && 2 * x >= ONE && Above(s, r)
    ensures Next(s, x) <= r + ONE / 4 || 2 * (Next(s, x) - r - 1) <= x - r - 1
  {
    var sq := x * x;
    var q, d := sq / ONE, 2 * x / ONE;
    SquareFloor(x);
    QuotientSmall(s - q, d);
    if s >= q {
      assert s - q <= ONE / 4;
      RisingBelow(s, x, r, q);
    } else if x > r {
      DivSmall(q - s, d);
      FallingFar(s, x, r, q, d, (q - s) / d);
    }
  }

  lemma RisingBelow(s: int, x: int, r: int, q: int)
    requires ONE <= 2 * s && 0 < x && Above(s, r) && x * x < ONE * q + ONE && q <= s
    ensures x <= r
  {
    HalfAbove(s, r);
    if x > r {
      SquareMonotone(r + 1, x);
    }
  }

  lemma HalfAbove(s: int, r: int)
    requires ONE <= 2 * s && Above(s, r)
    ensures 2 * r >= ONE
  {
    if 2 * r < ONE {
      SquareMonotone(2 * r, ONE - 1);
    }
  }

  lemma FallingFar(s: int, x: int, r: int, q: int, d: int, u: int)
    requires 0 < r < x && Above(s, r) && x * x < ONE * q + ONE && ONE * d <= 2 * x
    requires 0 <= u && q - s < (u + 1) * d
    ensures 2 * u >= x - r - 1
  {
    assert ONE * (q - s + 1) <= ONE * ((u + 1) * d) == (u + 1) * (ONE * d);
    Scaled(ONE * d, 2 * x, u + 1);
    assert (u + 1) * (2 * x) > x * x - r * r;
    assert x * x - r * r == (x - r) * (x + r);
    Scaled(x, x + r, x - r);
    assert (2 * (u + 1)) * x > (x - r) * x;
    if 2 * (u + 1) <= x - r {
      Scaled(2 * (u + 1), x - r, x);
    }
  }

  // ---- The whole root ----------------------------------------------------------------------

  const STEPS: nat := 16

  function Iterate(s: i64, n: nat): Option<i64> {
    if n == 0 then Some(s)
    else match Iterate(s, n - 1)
      case None => None
      case Some(x) => Step(s, x)
  }

  // Where n steps have brought x: not far below the root, and above it by no more than a quarter and
  // what halving n times has left.
  ghost predicate Closing(s: int, x: int, n: nat, r: int) {
    Fits(s, x) && NotFarBelow(s, x) && Pow2(n) * (x - r - ONE / 4 - 1) <= s
  }

  lemma {:induction false} Converges(s: i64, n: nat, r: int)
    requires ONE <= 2 * s && s <= LIMIT && Above(s, r)
    ensures Iterate(s, n).Some? && Closing(s, Iterate(s, n).value, n, r)
  {
    if n == 0 {
      FirstGuess(s);
    } else {
      Converges(s, n - 1, r);
      CloseStep(s, Iterate(s, n - 1).value, n - 1, r);
      StepExact(s, Iterate(s, n - 1).value);
    }
  }

  lemma FirstGuess(s: int)
    requires 0 < s
    ensures Fits(s, s) && NotFarBelow(s, s)
  {
    assert (2 * s - ONE) * (2 * s - ONE) >= 0;
    assert (2 * s - ONE) * (2 * s - ONE) == 4 * (s * s) - 4 * (s * ONE) + ONE * ONE;
  }

  lemma CloseStep(s: int, x: int, n: nat, r: int)
    requires ONE <= 2 * s && Above(s, r) && Closing(s, x, n, r)
    ensures 2 * x >= ONE && Closing(s, Next(s, x), n + 1, r)
  {
    HalfReached(s, x);
    StepKeeps(s, x);
    FitsKept(s, x);
    StepHalves(s, x, r);
    Halved(Pow2(n), s, x - r - ONE / 4 - 1, Next(s, x) - r - ONE / 4 - 1);
  }

  lemma Halved(p: int, s: int, before: int, after: int)
    requires p > 0 && s >= 0 && p * before <= s && (after <= 0 || 2 * after <= before)
    ensures (2 * p) * after <= s
  {
    if after <= 0 {
      Scaled(after, 0, 2 * p);
    } else {
      Scaled(2 * after, before, p);
      assert (2 * p) * after == (2 * after) * p;
    }
  }

  lemma {:induction false} TooSmall(s: i64, n: nat)
    requires 0 < 2 * s < ONE && n > 0
    ensures Iterate(s, n) == None
  {
    if n == 1 {
      StepExact(s, s);
    } else {
      TooSmall(s, n - 1);
    }
  }

  /** The square root as the code computes it: none stands for the division by zero it runs into, which
      happens exactly below one half.  From there on its square is at least s less a quarter, and it
      exceeds no upper bound of the root by more than a quarter, s / 65536 and one unit. */
  method Sqrt(s: i64) returns (r: Option<i64>)
    ensures s <= 0 ==> r == Some(0)
    ensures 0 < s <= LIMIT ==> (r.None? <==> 2 * s < ONE)
    ensures 0 < s <= LIMIT && r.Some? ==> NotFarBelow(s, r.value)
    ensures 0 < s <= LIMIT && r.Some? ==>
      forall root :: Above(s, root) ==> ONE * (r.value - root - ONE / 4 - 1) <= s
  {
    if s <= 0 {
      return Some(0);
    }
    if s <= LIMIT {
      RootBounds(s);
    }
    var x := s;
    for i := 0 to STEPS
      invariant Iterate(s, i) == Some(x)
    {
      var x2 := Mul(x, x);
      var diff := Sub(s, x2);
      var twoX := Wrap(2 * x);
      if twoX != 0 {
        if twoX / ONE == 0 {
          Stuck(s, i + 1, STEPS);
          return None;
        }
        x := Wrap(x + Quotient(diff, twoX / ONE));
      }
    }
    return Some(x);
  }

  lemma {:induction false} Stuck(s: i64, i: nat, n: nat)
    requires i <= n && Iterate(s, i) == None
    ensures Iterate(s, n) == None
  {
    if i < n {
      Stuck(s, i, n - 1);
    }
  }

  lemma RootBounds(s: i64)
    requires 0 < s <= LIMIT
    ensures Iterate(s, STEPS).None? <==> 2 * s < ONE
    ensures Iterate(s, STEPS).Some? ==> NotFarBelow(s, Iterate(s, STEPS).value)
    ensures Iterate(s, STEPS).Some? ==>
      forall root :: Above(s, root) ==> ONE * (Iterate(s, STEPS).value - root - ONE / 4 - 1) <= s
  {
    if 2 * s < ONE {
      TooSmall(s, STEPS);
    } else {
      SixteenHalvings();
      forall root | Above(s, root)
        ensures Iterate(s, STEPS).Some? && Closing(s, Iterate(s, STEPS).value, STEPS, root)
      {
        Converges(s, STEPS, root);
      }
      assert Above(s, s + ONE);
    }
  }

  lemma SixteenHalvings()
    ensures Pow2(STEPS) == ONE
  {
    assert Pow2(4) == 16;
    assert Pow2(8) == 16 * Pow2(4);
    assert Pow2(12) == 16 * Pow2(8);
    assert Pow2(16) == 16 * Pow2(12);
  }

  // The square root, none standing for a division by zero.
  function Root(s: i64): Option<i64> { if s <= 0 then Some(0) else Iterate(s, STEPS) }

  // The square of the distance of two bodies, softened by one, as the wrapping operators compute it.
  function DistanceSquared(x: i64, y: i64, z: i64): i64 {
    Add(Add(Add(Mul(x, x), Mul(y, y)), Mul(z, z)), ONE)
  }

  /** Wherever the wrapped sum of squares is inside the limit, the n-body root divides by zero exactly when that
      sum is above zero and below one half. */
  lemma DistanceRoot(x: i64, y: i64, z: i64)
    requires DistanceSquared(x, y, z) <= LIMIT
    ensures Root(DistanceSquared(x, y, z)).None? <==> 0 < 2 * DistanceSquared(x, y, z) < ONE
  {
    if DistanceSquared(x, y, z) > 0 {
      RootBounds(DistanceSquared(x, y, z));
    }
  }

  /** Where the sum does not wrap it is never below one, so the n-body step never divides by zero. */
  lemma SoftenedDistance(x: i64, y: i64, z: i64)
    requires (x * x) / ONE + (y * y) / ONE + (z * z) / ONE + ONE <= LIMIT
    ensures ONE <= DistanceSquared(x, y, z) <= LIMIT && Root(DistanceSquared(x, y, z)).Some?
  {
    SquareNotNegative(x);
    SquareNotNegative(y);
    SquareNotNegative(z);
    DistanceRoot(x, y, z);
  }

  lemma SquareNotNegative(x: int)
    ensures 0 <= (x * x) / ONE
  {
    var sq := x * x;
    assert sq >= 0;
  }

  /** Two bodies so far apart that the softened sum wraps round to 20029, less than a third: their root divides
      by zero. */
  lemma FarApart()
    ensures DistanceSquared(LIMIT, LIMIT, 1642755) == 20029 && Root(20029).None?
  {
    assert Mul(LIMIT, LIMIT) == LIMIT * LIMIT / ONE;
    DistanceRoot(LIMIT, LIMIT, 1642755);
  }
}
