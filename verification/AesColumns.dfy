/** MixColumns and its inverse (FIPS-197 sections 5.1.3 and 5.3.3) undo each other. */
module AesColumns {
  import opened AesField

  function Xor4(a: bv8, b: bv8, c: bv8, d: bv8): bv8 { Xor(Xor(a, b), Xor(c, d)) }

  // First rows of the two circulant matrices; the other rows rotate the arguments.
  function MixRow(a: bv8, b: bv8, c: bv8, d: bv8): bv8 { Xor4(Mul(a, 2), Mul(b, 3), c, d) }
  function InvMixRow(a: bv8, b: bv8, c: bv8, d: bv8): bv8 {
    Xor4(Mul(a, 14), Mul(b, 11), Mul(c, 13), Mul(d, 9))
  }

  lemma Xor4Add(a: bv8, b: bv8, c: bv8, d: bv8, e: bv8, f: bv8, g: bv8, h: bv8)
    ensures Xor(Xor4(a, b, c, d), Xor4(e, f, g, h)) == Xor4(Xor(a, e), Xor(b, f), Xor(c, g), Xor(d, h))
  {
    XorSwap(Xor(a, b), Xor(c, d), Xor(e, f), Xor(g, h));
    XorSwap(a, b, e, f);
    XorSwap(c, d, g, h);
  }

  lemma MulOne(a: bv8)
    ensures Mul(a, 1) == a
  {
    assert Mul(Xtime(a), 0) == 0;
    XorZero(a);
  }

  // The constants of the two matrices, as sums of powers of x.
  lemma Constants(a: bv8)
    ensures Mul(a, 2) == Xtime(a)
    ensures Mul(a, 3) == Xor(a, Xtime(a))
    ensures Mul(a, 9) == Xor(a, Xtime(Xtime(Xtime(a))))
    ensures Mul(a, 11) == Xor(a, Xor(Xtime(a), Xtime(Xtime(Xtime(a)))))
    ensures Mul(a, 13) == Xor(a, Xor(Xtime(Xtime(a)), Xtime(Xtime(Xtime(a)))))
    ensures Mul(a, 14) == Xor(Xtime(a), Xor(Xtime(Xtime(a)), Xtime(Xtime(Xtime(a)))))
  {
    var a2, a4, a8 := Xtime(a), Xtime(Xtime(a)), Xtime(Xtime(Xtime(a)));
    MulOne(a2);
    MulOne(a4);
    MulOne(a8);
    assert Mul(a4, 2) == a8 && Mul(a4, 3) == Xor(a4, a8);
    assert Mul(a2, 4) == a8 && Mul(a2, 5) == Xor(a2, a8) && Mul(a2, 6) == Xor(a4, a8);
    assert Mul(a2, 7) == Xor(a2, Xor(a4, a8));
  }

  // Multiplying a by the first-row constants in turn, as sums of powers of x.
  lemma DoubleConstants(a: bv8, x2: bv8, x4: bv8, x8: bv8, x16: bv8)
    requires x2 == Xtime(a) && x4 == Xtime(x2) && x8 == Xtime(x4) && x16 == Xtime(x8)
    ensures Mul(Mul(a, 2), 14) == Mul(Mul(a, 14), 2) == Xor(x4, Xor(x8, x16))
    ensures Mul(Mul(a, 2), 11) == Mul(Mul(a, 11), 2) == Xor(x2, Xor(x4, x16))
    ensures Mul(Mul(a, 2), 13) == Mul(Mul(a, 13), 2) == Xor(x2, Xor(x8, x16))
    ensures Mul(Mul(a, 2), 9) == Mul(Mul(a, 9), 2) == Xor(x2, x16)
  {
    Constants(a);
    Constants(x2);
    Constants(Mul(a, 14));
    Constants(Mul(a, 11));
    Constants(Mul(a, 13));
    Constants(Mul(a, 9));
    XtimeLinear(x2, Xor(x4, x8));
    XtimeLinear(x4, x8);
    XtimeLinear(a, Xor(x2, x8));
    XtimeLinear(x2, x8);
    XtimeLinear(a, Xor(x4, x8));
    XtimeLinear(a, x8);
  }

  lemma TripleIs(a: bv8, k: bv8)
    ensures Mul(Mul(a, 3), k) == Xor(Mul(a, k), Mul(Mul(a, 2), k))
    ensures Mul(Mul(a, k), 3) == Xor(Mul(a, k), Mul(Mul(a, k), 2))
  {
    Constants(a);
    MulLinear(a, Xtime(a), k);
    Constants(Mul(a, k));
  }

  // Sums of powers that cancel: all that is left is x1, or nothing.
  lemma Telescope(p: bv8, u: bv8, q: bv8)
    ensures Xor(Xor(p, u), Xor(u, q)) == Xor(p, q) == Xor(Xor(u, p), Xor(u, q))
  {
    XorAssoc(p, u, Xor(u, q));
    XorAssoc(u, u, q);
    XorZero(u);
    XorZero(q);
    XorComm(u, p);
  }

  lemma CancelTo1(x1: bv8, x2: bv8, x4: bv8, x8: bv8, x16: bv8)
    ensures Xor4(Xor(x4, Xor(x8, x16)), Xor(x1, Xor(x2, x8)), Xor(x1, Xor(x4, x8)), Xor(Xor(x1, x8), Xor(x2, x16))) == x1
  {
    var p, q, r := Xor(x4, Xor(x8, x16)), Xor(x1, Xor(x2, x8)), Xor(x1, Xor(x4, x8));
    XorSwap(p, q, r, Xor(Xor(x1, x8), Xor(x2, x16)));
    XorSwap(x1, x8, x2, x16);
    XorAssoc(x1, x2, x8);
    Telescope(x8, Xor(x1, x2), Xor(x8, x16));
    XorAssoc(x8, x8, x16);
    XorZero(x8);
    XorZero(x16);
    XorAssoc(x4, x8, x16);
    XorComm(p, r);
    Telescope(x1, Xor(x4, x8), x16);
    XorAssoc(x1, x16, x16);
    XorZero(x1);
  }

  lemma CancelTo0A(x1: bv8, x2: bv8, x4: bv8, x8: bv8, x16: bv8)
    ensures Xor4(Xor(Xor(x2, Xor(x4, x8)), Xor(x4, Xor(x8, x16))), Xor(x2, Xor(x4, x16)),
                 Xor(x1, Xor(x4, x8)), Xor(x1, x8)) == 0
  {
    XorAssoc(x4, x8, x16);
    Telescope(x2, Xor(x4, x8), x16);
    XorComm(x4, x16);
    XorAssoc(x2, x16, x4);
    XorAssoc(Xor(x2, x16), Xor(x2, x16), x4);
    XorZero(Xor(x2, x16));
    Telescope(Xor(x4, x8), x1, x8);
    XorAssoc(x4, x8, x8);
    XorZero(x8);
    XorZero(x4);
  }

  lemma CancelTo0B(x1: bv8, x2: bv8, x4: bv8, x8: bv8, x16: bv8)
    ensures Xor4(Xor(x2, Xor(x4, x8)), Xor(Xor(x1, Xor(x2, x8)), Xor(x2, Xor(x4, x16))),
                 Xor(x2, Xor(x8, x16)), Xor(x1, x8)) == 0
  {
    var t9, w := Xor(x1, x8), Xor(x4, x16);
    XorComm(x2, x8);
    XorAssoc(x1, x8, x2);
    Telescope(t9, x2, w);
    XorSwap(Xor(x2, Xor(x4, x8)), Xor(t9, w), Xor(x2, Xor(x8, x16)), t9);
    XorComm(t9, w);
    XorAssoc(w, t9, t9);
    Telescope(Xor(x4, x8), x2, Xor(x8, x16));
    Telescope(x4, x8, x16);
    XorZero(t9);
    XorZero(w);
  }

  lemma CancelTo0C(x1: bv8, x2: bv8, x4: bv8, x8: bv8, x16: bv8)
    ensures Xor4(Xor(x2, Xor(x4, x8)), Xor(x1, Xor(x2, x8)),
                 Xor(Xor(x1, Xor(x4, x8)), Xor(x2, Xor(x8, x16))), Xor(x2, x16)) == 0
  {
    var u, w := Xor(x2, x16), Xor(x1, x4);
    XorComm(x4, x8);
    XorAssoc(x2, x8, x4);
    Telescope(x4, Xor(x2, x8), x1);
    XorComm(Xor(x2, x8), x4);
    XorComm(x1, Xor(x2, x8));
    XorComm(x1, x4);
    XorAssoc(x1, x4, x8);
    XorAssoc(x2, x8, x16);
    XorComm(x2, x8);
    XorAssoc(x8, x2, x16);
    Telescope(w, x8, u);
    XorAssoc(w, u, u);
    XorZero(u);
    XorZero(w);
  }

  // The four entries of the first row of the product matrix, applied to a.
  lemma ProductMatrix(a: bv8)
    ensures Xor4(Mul(Mul(a, 2), 14), Mul(a, 11), Mul(a, 13), Mul(Mul(a, 3), 9)) == a
    ensures Xor4(Mul(Mul(a, 3), 14), Mul(Mul(a, 2), 11), Mul(a, 13), Mul(a, 9)) == 0
    ensures Xor4(Mul(a, 14), Mul(Mul(a, 3), 11), Mul(Mul(a, 2), 13), Mul(a, 9)) == 0
    ensures Xor4(Mul(a, 14), Mul(a, 11), Mul(Mul(a, 3), 13), Mul(Mul(a, 2), 9)) == 0
  {
    var x2 := Xtime(a);
    var x4 := Xtime(x2);
    var x8 := Xtime(x4);
    var x16 := Xtime(x8);
    DoubleConstants(a, x2, x4, x8, x16);
    Constants(a);
    TripleIs(a, 9);
    TripleIs(a, 14);
    TripleIs(a, 11);
    TripleIs(a, 13);
    CancelTo1(a, x2, x4, x8, x16);
    CancelTo0A(a, x2, x4, x8, x16);
    CancelTo0B(a, x2, x4, x8, x16);
    CancelTo0C(a, x2, x4, x8, x16);
  }

  lemma MixRowAdds(a: bv8, b: bv8, c: bv8, d: bv8, e: bv8, f: bv8, g: bv8, h: bv8)
    ensures MixRow(Xor(a, e), Xor(b, f), Xor(c, g), Xor(d, h)) == Xor(MixRow(a, b, c, d), MixRow(e, f, g, h))
  {
    MulLinear(a, e, 2);
    MulLinear(b, f, 3);
    Xor4Add(Mul(a, 2), Mul(b, 3), c, d, Mul(e, 2), Mul(f, 3), g, h);
  }

  lemma InvMixRowAdds(a: bv8, b: bv8, c: bv8, d: bv8, e: bv8, f: bv8, g: bv8, h: bv8)
    ensures InvMixRow(Xor(a, e), Xor(b, f), Xor(c, g), Xor(d, h)) == Xor(InvMixRow(a, b, c, d), InvMixRow(e, f, g, h))
  {
    MulLinear(a, e, 14);
    MulLinear(b, f, 11);
    MulLinear(c, g, 13);
    MulLinear(d, h, 9);
    Xor4Add(Mul(a, 14), Mul(b, 11), Mul(c, 13), Mul(d, 9), Mul(e, 14), Mul(f, 11), Mul(g, 13), Mul(h, 9));
  }

  datatype Column = Column(a: bv8, b: bv8, c: bv8, d: bv8)

  function Sum(x: Column, y: Column): Column {
    Column(Xor(x.a, y.a), Xor(x.b, y.b), Xor(x.c, y.c), Xor(x.d, y.d))
  }

  function Rotated(x: Column): Column { Column(x.b, x.c, x.d, x.a) }

  function MixColumn(x: Column): Column {
    Column(MixRow(x.a, x.b, x.c, x.d), MixRow(x.b, x.c, x.d, x.a),
           MixRow(x.c, x.d, x.a, x.b), MixRow(x.d, x.a, x.b, x.c))
  }

  function InvMixColumn(x: Column): Column {
    Column(InvMixRow(x.a, x.b, x.c, x.d), InvMixRow(x.b, x.c, x.d, x.a),
           InvMixRow(x.c, x.d, x.a, x.b), InvMixRow(x.d, x.a, x.b, x.c))
  }

  lemma MixColumnAdds(x: Column, y: Column)
    ensures MixColumn(Sum(x, y)) == Sum(MixColumn(x), MixColumn(y))
  {
    MixRowAdds(x.a, x.b, x.c, x.d, y.a, y.b, y.c, y.d);
    MixRowAdds(x.b, x.c, x.d, x.a, y.b, y.c, y.d, y.a);
    MixRowAdds(x.c, x.d, x.a, x.b, y.c, y.d, y.a, y.b);
    MixRowAdds(x.d, x.a, x.b, x.c, y.d, y.a, y.b, y.c);
  }

  lemma InvMixColumnAdds(x: Column, y: Column)
    ensures InvMixColumn(Sum(x, y)) == Sum(InvMixColumn(x), InvMixColumn(y))
  {
    InvMixRowAdds(x.a, x.b, x.c, x.d, y.a, y.b, y.c, y.d);
    InvMixRowAdds(x.b, x.c, x.d, x.a, y.b, y.c, y.d, y.a);
    InvMixRowAdds(x.c, x.d, x.a, x.b, y.c, y.d, y.a, y.b);
    InvMixRowAdds(x.d, x.a, x.b, x.c, y.d, y.a, y.b, y.c);
  }

  // A sum with one term.
  lemma OneTerm(p: bv8)
    ensures Xor4(p, 0, 0, 0) == p && Xor4(0, p, 0, 0) == p && Xor4(0, 0, p, 0) == p && Xor4(0, 0, 0, p) == p
  {
    XorZero(0);
    XorZero(p);
  }

  lemma MulOfZero()
    ensures Mul(0, 2) == 0 && Mul(0, 3) == 0
    ensures Mul(0, 14) == 0 && Mul(0, 11) == 0 && Mul(0, 13) == 0 && Mul(0, 9) == 0
  {
    Constants(0);
    XorZero(0);
    assert Xtime(0) == 0;
  }

  lemma MixRowsOfUnit(a: bv8)
    ensures MixRow(a, 0, 0, 0) == Mul(a, 2) && MixRow(0, a, 0, 0) == Mul(a, 3)
    ensures MixRow(0, 0, a, 0) == a && MixRow(0, 0, 0, a) == a
  {
    MulOfZero();
    OneTerm(Mul(a, 2));
    OneTerm(Mul(a, 3));
    OneTerm(a);
  }

  lemma InvMixRowsOfUnit(a: bv8)
    ensures InvMixRow(a, 0, 0, 0) == Mul(a, 14) && InvMixRow(0, a, 0, 0) == Mul(a, 11)
    ensures InvMixRow(0, 0, a, 0) == Mul(a, 13) && InvMixRow(0, 0, 0, a) == Mul(a, 9)
  {
    MulOfZero();
    OneTerm(Mul(a, 14));
    OneTerm(Mul(a, 11));
    OneTerm(Mul(a, 13));
    OneTerm(Mul(a, 9));
  }

  lemma RowsOfUnit(a: bv8)
    ensures MixRow(a, 0, 0, 0) == Mul(a, 2) && MixRow(0, a, 0, 0) == Mul(a, 3)
    ensures MixRow(0, 0, a, 0) == a && MixRow(0, 0, 0, a) == a
    ensures InvMixRow(a, 0, 0, 0) == Mul(a, 14) && InvMixRow(0, a, 0, 0) == Mul(a, 11)
    ensures InvMixRow(0, 0, a, 0) == Mul(a, 13) && InvMixRow(0, 0, 0, a) == Mul(a, 9)
  {
    MixRowsOfUnit(a);
    InvMixRowsOfUnit(a);
  }

  lemma Xor4SwapOdd(a: bv8, b: bv8, c: bv8, d: bv8)
    ensures Xor4(a, b, c, d) == Xor4(a, d, c, b)
  {
    XorSwap(a, b, c, d);
    XorSwap(a, d, c, b);
    XorComm(b, d);
  }

  lemma Xor4SwapPairs(a: bv8, b: bv8, c: bv8, d: bv8)
    ensures Xor4(a, b, c, d) == Xor4(b, a, d, c)
  {
    XorComm(a, b);
    XorComm(c, d);
  }

  lemma ConstantsCommute(a: bv8)
    ensures Mul(Mul(a, 9), 3) == Mul(Mul(a, 3), 9) && Mul(Mul(a, 11), 3) == Mul(Mul(a, 3), 11)
    ensures Mul(Mul(a, 13), 3) == Mul(Mul(a, 3), 13) && Mul(Mul(a, 14), 3) == Mul(Mul(a, 3), 14)
    ensures Mul(Mul(a, 9), 2) == Mul(Mul(a, 2), 9) && Mul(Mul(a, 11), 2) == Mul(Mul(a, 2), 11)
    ensures Mul(Mul(a, 13), 2) == Mul(Mul(a, 2), 13) && Mul(Mul(a, 14), 2) == Mul(Mul(a, 2), 14)
  {
    var x2 := Xtime(a);
    var x4 := Xtime(x2);
    var x8 := Xtime(x4);
    DoubleConstants(a, x2, x4, x8, Xtime(x8));
    TripleIs(a, 9);
    TripleIs(a, 14);
    TripleIs(a, 11);
    TripleIs(a, 13);
  }

  lemma UnitColumn(a: bv8)
    ensures InvMixColumn(MixColumn(Column(a, 0, 0, 0))) == Column(a, 0, 0, 0)
    ensures MixColumn(InvMixColumn(Column(a, 0, 0, 0))) == Column(a, 0, 0, 0)
  {
    RowsOfUnit(a);
    ProductMatrix(a);
    ConstantsCommute(a);
    Xor4SwapOdd(Mul(Mul(a, 2), 14), Mul(a, 11), Mul(a, 13), Mul(Mul(a, 3), 9));
    Xor4SwapPairs(Mul(Mul(a, 3), 14), Mul(Mul(a, 2), 11), Mul(a, 13), Mul(a, 9));
    Xor4SwapPairs(Mul(a, 14), Mul(Mul(a, 3), 11), Mul(Mul(a, 2), 13), Mul(a, 9));
    Xor4SwapOdd(Mul(Mul(a, 3), 11), Mul(a, 14), Mul(a, 9), Mul(Mul(a, 2), 13));
    Xor4SwapPairs(Mul(Mul(a, 3), 11), Mul(Mul(a, 2), 13), Mul(a, 9), Mul(a, 14));
    Xor4SwapOdd(Mul(Mul(a, 2), 13), Mul(Mul(a, 3), 11), Mul(a, 14), Mul(a, 9));
    Xor4SwapOdd(Mul(a, 14), Mul(a, 11), Mul(Mul(a, 3), 13), Mul(Mul(a, 2), 9));
    Xor4SwapPairs(Mul(a, 14), Mul(Mul(a, 2), 9), Mul(Mul(a, 3), 13), Mul(a, 11));
  }

  ghost predicate Undone(x: Column) {
    InvMixColumn(MixColumn(x)) == x && MixColumn(InvMixColumn(x)) == x
  }

  lemma RotatedUndone(x: Column)
    requires Undone(x)
    ensures Undone(Rotated(x))
  {
    assert MixColumn(Rotated(x)) == Rotated(MixColumn(x));
    assert InvMixColumn(Rotated(x)) == Rotated(InvMixColumn(x));
    assert InvMixColumn(Rotated(MixColumn(x))) == Rotated(InvMixColumn(MixColumn(x)));
    assert MixColumn(Rotated(InvMixColumn(x))) == Rotated(MixColumn(InvMixColumn(x)));
  }

  lemma RotatedUnits(b: bv8, c: bv8, d: bv8)
    ensures Undone(Column(0, 0, 0, d)) && Undone(Column(0, 0, c, 0)) && Undone(Column(0, b, 0, 0))
  {
    UnitColumn(d);
    RotatedUndone(Column(d, 0, 0, 0));
    UnitColumn(c);
    RotatedUndone(Column(c, 0, 0, 0));
    RotatedUndone(Column(0, 0, 0, c));
    UnitColumn(b);
    RotatedUndone(Column(b, 0, 0, 0));
    RotatedUndone(Column(0, 0, 0, b));
    RotatedUndone(Column(0, 0, b, 0));
  }

  lemma ColumnIsSum(x: Column)
    ensures x == Sum(Sum(Column(x.a, 0, 0, 0), Column(0, x.b, 0, 0)), Sum(Column(0, 0, x.c, 0), Column(0, 0, 0, x.d)))
  {
    XorZero(x.a);
    XorZero(x.b);
    XorZero(x.c);
    XorZero(x.d);
    XorZero(0);
  }

  /** InvMixColumns undoes MixColumns. */
  lemma InvMixUndoesMix(x: Column)
    ensures InvMixColumn(MixColumn(x)) == x
  {
    var u, v := Sum(Column(x.a, 0, 0, 0), Column(0, x.b, 0, 0)), Sum(Column(0, 0, x.c, 0), Column(0, 0, 0, x.d));
    MixColumnAdds(Column(x.a, 0, 0, 0), Column(0, x.b, 0, 0));
    MixColumnAdds(Column(0, 0, x.c, 0), Column(0, 0, 0, x.d));
    MixColumnAdds(u, v);
    InvMixColumnAdds(MixColumn(Column(x.a, 0, 0, 0)), MixColumn(Column(0, x.b, 0, 0)));
    InvMixColumnAdds(MixColumn(Column(0, 0, x.c, 0)), MixColumn(Column(0, 0, 0, x.d)));
    InvMixColumnAdds(MixColumn(u), MixColumn(v));
    UnitColumn(x.a);
    RotatedUnits(x.b, x.c, x.d);
    ColumnIsSum(x);
  }

  /** MixColumns undoes InvMixColumns. */
  lemma MixUndoesInvMix(x: Column)
    ensures MixColumn(InvMixColumn(x)) == x
  {
    var u, v := Sum(Column(x.a, 0, 0, 0), Column(0, x.b, 0, 0)), Sum(Column(0, 0, x.c, 0), Column(0, 0, 0, x.d));
    InvMixColumnAdds(Column(x.a, 0, 0, 0), Column(0, x.b, 0, 0));
    InvMixColumnAdds(Column(0, 0, x.c, 0), Column(0, 0, 0, x.d));
    InvMixColumnAdds(u, v);
    MixColumnAdds(InvMixColumn(Column(x.a, 0, 0, 0)), InvMixColumn(Column(0, x.b, 0, 0)));
    MixColumnAdds(InvMixColumn(Column(0, 0, x.c, 0)), InvMixColumn(Column(0, 0, 0, x.d)));
    MixColumnAdds(InvMixColumn(u), InvMixColumn(v));
    UnitColumn(x.a);
    RotatedUnits(x.b, x.c, x.d);
    ColumnIsSum(x);
  }
}
