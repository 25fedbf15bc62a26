/** Facts of division that several of the models lean on. */
module Arith {
  lemma MulMonotone(a: nat, b: nat, p: nat)
    requires a <= b
    ensures a * p <= b * p
  {
  }

  lemma DivModUnique(e: nat, p: nat, q: nat, r: nat)
    requires p > 0 && r < p && e == q * p + r
    ensures e / p == q && e % p == r
  {
    if q < e / p {
      MulMonotone(q + 1, e / p, p);
    } else if e / p < q {
      MulMonotone(e / p + 1, q, p);
    }
  }

  // floor(e/p) grows by one exactly when e reaches a multiple of p.
  lemma DivStep(e: nat, p: nat)
    requires p > 0
    ensures (e + 1) / p == if (e / p + 1) * p == e + 1 then e / p + 1 else e / p
    ensures e + 1 <= (e / p + 1) * p <= e + p
  {
    var q, r := e / p, e % p;
    assert e == q * p + r;
    assert (q + 1) * p == q * p + p;
    if r == p - 1 {
      DivModUnique(e + 1, p, q + 1, 0);
    } else {
      DivModUnique(e + 1, p, q, r + 1);
    }
  }

  // What is left of b when m has been taken off as often as it goes: for a power of two, the low bits.
  function Low(b: nat, m: nat): (r: nat)
    requires m > 0
    ensures r < m
  {
    if b < m then b else Low(b - m, m)
  }

  lemma {:induction false} LowIsRemainder(b: nat, m: nat)
    requires m > 0
    ensures Low(b, m) == b % m
  {
    if b < m {
      DivModUnique(b, m, 0, b);
    } else {
      LowIsRemainder(b - m, m);
      var q, r := (b - m) / m, (b - m) % m;
      assert (q + 1) * m == q * m + m;
      DivModUnique(b, m, q + 1, r);
    }
  }
}
