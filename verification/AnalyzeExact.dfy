/**
 The condition under which the analyzer's inferences are sound is exact: where it fails, some state that
 the environment describes makes the claim wrong.
 */
module AnalyzeExact {
  import opened AnalyzeBits
  import opened Analyze
  import opened AnalyzeSound

  // What every environment of a run satisfies: widths are known and constants fit theirs.
  ghost predicate WellFormed(env: Env) {
    forall id :: id in env.values ==>
      id in env.widths && (env.values[id].Constant? ==> Cut(env.values[id].v, env.widths[id]) == env.values[id].v)
  }

  // Right in every state the environment describes after the registers in `written` have been written.
  ghost predicate RightAfter(env: Env, op: Op, pc: word, written: set<int>) {
    forall world: World, start, s | world.pc == pc && Describes(env, start, s, written) :: Right(env, op, world, start, s)
  }

  ghost predicate AlwaysRight(env: Env, op: Op, pc: word) { RightAfter(env, op, pc, {}) }

  // ---- A state for every environment -------------------------------------------------------

  function ValueOf(env: Env, id: int, start: State): word
    requires id in env.values && id in env.widths
  {
    match env.values[id]
    case Unknown => 0
    case Constant(c) => c
    case Register(r) => Cut(Get(start.arch, r), env.widths[id])
  }

  ghost function Witness(env: Env, start: State): State
    requires WellFormed(env)
  {
    State(start.arch, map id | id in env.values :: ValueOf(env, id, start))
  }

  lemma WitnessDescribed(env: Env, start: State)
    requires WellFormed(env)
    ensures Describes(env, start, Witness(env, start), {})
  {
  }

  // Register r all ones, every other zero.
  function Ones(r: int): State { State(map[r := ONES], map[]) }

  function Plainly(pc: word): World { World(pc, (s, v) => v, op => 0, false) }

  lemma NotFar(a: Symbolic, k: Width, w: Width)
    requires !Far(a, k, w)
    ensures a.Register? && Cut(Cut(ONES, k), w) != Cut(ONES, w)
  {
    CutOnes(k, w);
  }

  // In that state an operand with provenance r reads as far as it is known.
  lemma OnesRead(env: Env, o: Operand, r: int)
    requires WellFormed(env) && SymbolicOf(env, o) == Register(r)
    ensures ReadOperand(Witness(env, Ones(r)), o) == Cut(ONES, Known(env, o))
  {
    WitnessDescribed(env, Ones(r));
    OperandFact(env, o, Ones(r), Witness(env, Ones(r)), {});
  }

  // A claim of register r at width w is wrong of a value known less far.
  lemma ClaimWrong(r: int, k: Width, w: Width)
    requires Cut(Cut(ONES, k), w) != Cut(ONES, w)
    ensures !Fact(Register(r), Cut(Cut(ONES, k), w), w, Ones(r))
  {
  }

  lemma Refuted(env: Env, op: Op, pc: word, start: State)
    requires WellFormed(env) && !Right(env, op, Plainly(pc), start, Witness(env, start))
    ensures !AlwaysRight(env, op, pc)
  {
    WitnessDescribed(env, start);
  }

  // ---- Operation by operation --------------------------------------------------------------

  lemma MovNeeds(env: Env, dst: Place, addr: Address, src: Src, w: Width, pc: word)
    requires WellFormed(env) && !Odd(src) && !MovFine(env, src, w)
    ensures !AlwaysRight(env, Mov(dst, src, w), pc) && !AlwaysRight(env, Store(addr, src, w), pc)
  {
    var a := SymbolicSrc(env, src);
    NotFar(a, Known(env, src.o), w);
    OnesRead(env, src.o, a.r);
    ClaimWrong(a.r, Known(env, src.o), w);
    MovIs(env, dst, addr, src, w, Plainly(pc), Witness(env, Ones(a.r)));
    Refuted(env, Mov(dst, src, w), pc, Ones(a.r));
    Refuted(env, Store(addr, src, w), pc, Ones(a.r));
  }

  // ---- The odd shift -----------------------------------------------------------------------

  // Register r is one, every other zero.
  function Single(r: int): State { State(map[r := 1], map[]) }

  lemma OneBit(w: Width)
    ensures Cut(1, w) == 1 && Half(1) == 0 && Half(0) == 0 && Cut(0, w) == 0
  {
  }

  // In that state an operand with provenance r reads as one.
  lemma SingleRead(env: Env, o: Operand, r: int)
    requires WellFormed(env) && SymbolicOf(env, o) == Register(r)
    ensures ReadOperand(Witness(env, Single(r)), o) == 1
  {
    WitnessDescribed(env, Single(r));
    OperandFact(env, o, Single(r), Witness(env, Single(r)), {});
    OneBit(Known(env, o));
  }

  lemma HalfWrong(env: Env, src: Src, w: Width, pc: word) returns (start: State)
    requires WellFormed(env) && Odd(src) && !HalfFine(SymbolicSrc(env, src), w)
    ensures !Fact(CutSymbolic(SymbolicSrc(env, src), w), Cut(ReadSrc(Witness(env, start), src, Plainly(pc).odd), w), w, start)
  {
    var a := SymbolicSrc(env, src);
    if a.Constant? {
      start := Single(0);
      WitnessDescribed(env, start);
      OddFact(env, src, Plainly(pc).odd, start, Witness(env, start), {});
    } else {
      start := Single(a.r);
      SingleRead(env, src.o, a.r);
      OneBit(w);
    }
  }

  // A claim that does not survive moving one place down is wrong.
  lemma OddNeeds(env: Env, dst: Place, addr: Address, src: Src, w: Width, pc: word)
    requires WellFormed(env) && Odd(src) && !HalfFine(SymbolicSrc(env, src), w)
    ensures !AlwaysRight(env, Mov(dst, src, w), pc) && !AlwaysRight(env, Store(addr, src, w), pc)
  {
    var start := HalfWrong(env, src, w, pc);
    MovIs(env, dst, addr, src, w, Plainly(pc), Witness(env, start));
    Refuted(env, Mov(dst, src, w), pc, start);
    Refuted(env, Store(addr, src, w), pc, start);
  }

  lemma ZeroConstantNeeds(env: Env, dst: Place, o: Operand, k: Width, w: Width, pc: word)
    requires WellFormed(env) && !ZeroFine(SymbolicOf(env, o), k, w)
    ensures !AlwaysRight(env, ZeroExtend(dst, o, k, w), pc)
  {
    var start, c := Ones(0), SymbolicOf(env, o).v;
    WitnessDescribed(env, start);
    OperandFact(env, o, start, Witness(env, start), {});
    ZeroIs(env, dst, o, k, w, Plainly(pc), Witness(env, start));
    CutIdempotent(c, w);
    Refuted(env, ZeroExtend(dst, o, k, w), pc, start);
  }

  lemma ZeroNeeds(env: Env, dst: Place, o: Operand, w: Width, pc: word)
    requires WellFormed(env) && !Far(SymbolicOf(env, o), Known(env, o), w)
    ensures !AlwaysRight(env, ZeroExtend(dst, o, w, w), pc)
  {
    var a := SymbolicOf(env, o);
    NotFar(a, Known(env, o), w);
    OnesRead(env, o, a.r);
    ClaimWrong(a.r, Known(env, o), w);
    CutIdempotent(Cut(ONES, Known(env, o)), w);
    ZeroIs(env, dst, o, w, w, Plainly(pc), Witness(env, Ones(a.r)));
    Refuted(env, ZeroExtend(dst, o, w, w), pc, Ones(a.r));
  }

  lemma TruncateNeeds(env: Env, dst: Place, o: Operand, w: Width, pc: word)
    requires WellFormed(env) && !Far(SymbolicOf(env, o), Known(env, o), w)
    ensures !AlwaysRight(env, Truncate(dst, o, w, w), pc)
  {
    var a := SymbolicOf(env, o);
    NotFar(a, Known(env, o), w);
    OnesRead(env, o, a.r);
    ClaimWrong(a.r, Known(env, o), w);
    TruncateIs(env, dst, o, w, w, Plainly(pc), Witness(env, Ones(a.r)));
    Refuted(env, Truncate(dst, o, w, w), pc, Ones(a.r));
  }

  lemma SignNeeds(env: Env, dst: Place, o: Operand, w: Width, pc: word)
    requires WellFormed(env) && !Far(SymbolicOf(env, o), Known(env, o), w)
    ensures !AlwaysRight(env, SignExtend(dst, o, w, w), pc)
  {
    var a := SymbolicOf(env, o);
    NotFar(a, Known(env, o), w);
    OnesRead(env, o, a.r);
    ClaimWrong(a.r, Known(env, o), w);
    SignThenCut(Cut(ONES, Known(env, o)), w);
    SignIs(env, dst, o, w, w, Plainly(pc), Witness(env, Ones(a.r)));
    Refuted(env, SignExtend(dst, o, w, w), pc, Ones(a.r));
  }

  lemma XorNeeds(env: Env, dst: Place, o: Operand, src: Src, w: Width, r: int, pc: word)
    requires WellFormed(env) && !Odd(src) && SymbolicOf(env, o) == SymbolicSrc(env, src) == Register(r)
    requires And(Mask(Known(env, o)), Mask(w)) != And(Mask(Known(env, src.o)), Mask(w))
    ensures !AlwaysRight(env, Binary(XorOp, dst, o, src, w), pc)
  {
    var s := Witness(env, Ones(r));
    OnesRead(env, o, r);
    OnesRead(env, src.o, r);
    XorDiffers(Known(env, o), Known(env, src.o), w);
    BinaryIs(env, XorOp, dst, o, src, w, Plainly(pc), s);
    InferSame(Fn(XorOp), Register(r), w);
    CutZero(w);
    Refuted(env, Binary(XorOp, dst, o, src, w), pc, Ones(r));
  }

  lemma XorDiffers(ka: Width, kb: Width, w: Width)
    requires And(Mask(ka), Mask(w)) != And(Mask(kb), Mask(w))
    ensures Cut(Fn(XorOp)(Cut(ONES, ka), Cut(ONES, kb)), w) != 0
  {
    AndLaws(Mask(ka), 0, 0);
    AndLaws(Mask(kb), 0, 0);
    XorLaw(Cut(ONES, ka), Cut(ONES, kb), w);
  }

  lemma NeutralResult(env: Env, bop: BinaryOp, o: Operand, src: Src, w: Width, r: int, pc: word)
    requires WellFormed(env) && !Odd(src) && IsNeutral(bop, SymbolicOf(env, o), SymbolicSrc(env, src), w)
    requires SymbolicOf(env, o) == Register(r)
    ensures Cut(Fn(bop)(ReadOperand(Witness(env, Ones(r)), o), ReadSrc(Witness(env, Ones(r)), src, Plainly(pc).odd)), w)
         == Cut(Cut(ONES, Known(env, o)), w)
  {
    var s := Witness(env, Ones(r));
    OnesRead(env, o, r);
    WitnessDescribed(env, Ones(r));
    SrcFact(env, src, Plainly(pc).odd, Ones(r), s, {});
    FnLawful(bop);
    NeutralLow(bop, Fn(bop), ReadOperand(s, o), Register(r), SymbolicSrc(env, src), w);
  }

  lemma NeutralLow(bop: BinaryOp, f: (word, word) -> word, x: word, a: Symbolic, b: Symbolic, w: Width)
    requires Lawful(bop, f) && IsNeutral(bop, a, b, w)
    ensures Cut(f(x, b.v), w) == Cut(x, w)
  {
    var y := b.v;
    if bop == AndOp {
      assert Cut(y, w) == Cut(ONES, w) ==> Cut(f(x, y), w) == Cut(x, w);
    } else {
      assert f(x, 0) == x;
    }
  }

  lemma NeutralNeeds(env: Env, bop: BinaryOp, dst: Place, o: Operand, src: Src, w: Width, pc: word)
    requires WellFormed(env) && !Odd(src) && IsNeutral(bop, SymbolicOf(env, o), SymbolicSrc(env, src), w)
    requires !Far(SymbolicOf(env, o), Known(env, o), w)
    ensures !AlwaysRight(env, Binary(bop, dst, o, src, w), pc)
  {
    var a, b := SymbolicOf(env, o), SymbolicSrc(env, src);
    NotFar(a, Known(env, o), w);
    ClaimWrong(a.r, Known(env, o), w);
    NeutralResult(env, bop, o, src, w, a.r, pc);
    BinaryIs(env, bop, dst, o, src, w, Plainly(pc), Witness(env, Ones(a.r)));
    InferNeutral(bop, Fn(bop), a, b, w);
    Refuted(env, Binary(bop, dst, o, src, w), pc, Ones(a.r));
  }

  // The bits common to two words fill a mask only if each of them does.
  lemma BothFull(h: word, k: Width, w: Width)
    requires Cut(And(Cut(ONES, k), h), w) == Cut(ONES, w)
    ensures Covers(k, w) && Cut(h, w) == Cut(ONES, w)
  {
    FullBits(Mask(k), h, Mask(w));
    AndLaws(Mask(k), 0, 0);
    AndLaws(Mask(w), 0, 0);
  }

  lemma FullBits(m: word, h: word, n: word)
    requires And(And(m, h), n) == n
    ensures And(m, n) == n && And(h, n) == n
  {
  }

  // Two constants fold alike or the claim is wrong of every state.
  lemma OddFoldWrong(env: Env, bop: BinaryOp, o: Operand, src: Src, w: Width, pc: word)
    requires WellFormed(env) && Odd(src) && SymbolicOf(env, o).Constant? && SymbolicSrc(env, src).Constant?
    requires !OddGood(bop, Fn(bop), SymbolicOf(env, o), Known(env, o), SymbolicSrc(env, src), w)
    ensures var s := Witness(env, Single(0));
      !Fact(CutSymbolic(InferBinary(bop, Fn(bop), SymbolicOf(env, o), SymbolicSrc(env, src), w), w),
            Cut(Fn(bop)(ReadOperand(s, o), ReadSrc(s, src, Plainly(pc).odd)), w), w, Single(0))
  {
    var a, b, s := SymbolicOf(env, o), SymbolicSrc(env, src), Witness(env, Single(0));
    WitnessDescribed(env, Single(0));
    OperandFact(env, o, Single(0), s, {});
    OddFact(env, src, Plainly(pc).odd, Single(0), s, {});
    FnLawful(bop);
    FoldApart(bop, Fn(bop), a, ReadOperand(s, o), Known(env, o), b, ReadSrc(s, src, Plainly(pc).odd), w, Single(0));
  }

  lemma FoldApart(bop: BinaryOp, f: (word, word) -> word, a: Symbolic, x: word, ka: Width, b: Symbolic, y: word, w: Width,
                  start: State)
    requires Lawful(bop, f) && a.Constant? && b.Constant? && x == a.v && y == Half(b.v) && !OddGood(bop, f, a, ka, b, w)
    ensures !Fact(CutSymbolic(InferBinary(bop, f, a, b, w), w), Cut(f(x, y), w), w, start)
  {
    FoldClaims(bop, f, a, b, w);
  }

  lemma FoldClaims(bop: BinaryOp, f: (word, word) -> word, a: Symbolic, b: Symbolic, w: Width)
    requires Lawful(bop, f) && a.Constant? && b.Constant?
    ensures CutSymbolic(InferBinary(bop, f, a, b, w), w) == Constant(Cut(f(a.v, b.v), w))
  {
    CutIdempotent(f(a.v, b.v), w);
    CutZero(w);
    if bop == XorOp && a == b {
      InferSame(f, a, w);
      assert Cut(f(a.v, b.v), w) == 0;
    } else {
      InferFolded(bop, f, a, b, w);
    }
  }

  lemma OddXorWrong(env: Env, o: Operand, src: Src, w: Width, r: int, pc: word)
    requires WellFormed(env) && Odd(src) && SymbolicOf(env, o) == SymbolicSrc(env, src) == Register(r)
    ensures var s := Witness(env, Single(r));
      Cut(Fn(XorOp)(ReadOperand(s, o), ReadSrc(s, src, Plainly(pc).odd)), w) != 0
  {
    SingleRead(env, o, r);
    SingleRead(env, src.o, r);
    OneBit(w);
    XorLaw(1, 0, w);
  }

  lemma OddNeutralLow(bop: BinaryOp, k: Width, c: word, w: Width, r: int)
    requires IsNeutral(bop, Register(r), Constant(c), w)
    requires !(Covers(k, w) && IsNeutral(bop, Register(r), Constant(Half(c)), w))
    ensures Cut(Fn(bop)(Cut(ONES, k), Half(c)), w) != Cut(ONES, w)
  {
    if bop == AndOp {
      if Cut(And(Cut(ONES, k), Half(c)), w) == Cut(ONES, w) {
        BothFull(Half(c), k, w);
      }
    } else {
      OneBit(w);
      NeutralZero(Cut(ONES, k));
      CutOnes(k, w);
    }
  }

  lemma OddNeutralWrong(env: Env, bop: BinaryOp, o: Operand, src: Src, w: Width, r: int, pc: word)
    requires WellFormed(env) && Odd(src) && SymbolicOf(env, o) == Register(r)
    requires IsNeutral(bop, SymbolicOf(env, o), SymbolicSrc(env, src), w)
    requires !OddGood(bop, Fn(bop), SymbolicOf(env, o), Known(env, o), SymbolicSrc(env, src), w)
    ensures var s := Witness(env, Ones(r));
      Cut(Fn(bop)(ReadOperand(s, o), ReadSrc(s, src, Plainly(pc).odd)), w) != Cut(ONES, w)
  {
    OnesRead(env, o, r);
    WitnessDescribed(env, Ones(r));
    OddFact(env, src, Plainly(pc).odd, Ones(r), Witness(env, Ones(r)), {});
    OddNeutralLow(bop, Known(env, o), SymbolicSrc(env, src).v, w, r);
  }

  lemma OddFoldNeeds(env: Env, bop: BinaryOp, dst: Place, o: Operand, src: Src, w: Width, pc: word)
    requires WellFormed(env) && Odd(src) && SymbolicOf(env, o).Constant? && SymbolicSrc(env, src).Constant?
    requires !OddGood(bop, Fn(bop), SymbolicOf(env, o), Known(env, o), SymbolicSrc(env, src), w)
    ensures !AlwaysRight(env, Binary(bop, dst, o, src, w), pc)
  {
    OddFoldWrong(env, bop, o, src, w, pc);
    BinaryIs(env, bop, dst, o, src, w, Plainly(pc), Witness(env, Single(0)));
    Refuted(env, Binary(bop, dst, o, src, w), pc, Single(0));
  }

  lemma OddXorNeeds(env: Env, dst: Place, o: Operand, src: Src, w: Width, r: int, pc: word)
    requires WellFormed(env) && Odd(src) && SymbolicOf(env, o) == SymbolicSrc(env, src) == Register(r)
    ensures !AlwaysRight(env, Binary(XorOp, dst, o, src, w), pc)
  {
    OddXorWrong(env, o, src, w, r, pc);
    InferSame(Fn(XorOp), Register(r), w);
    CutZero(w);
    BinaryIs(env, XorOp, dst, o, src, w, Plainly(pc), Witness(env, Single(r)));
    Refuted(env, Binary(XorOp, dst, o, src, w), pc, Single(r));
  }

  lemma OddNeutralNeeds(env: Env, bop: BinaryOp, dst: Place, o: Operand, src: Src, w: Width, r: int, pc: word)
    requires WellFormed(env) && Odd(src) && SymbolicOf(env, o) == Register(r)
    requires IsNeutral(bop, SymbolicOf(env, o), SymbolicSrc(env, src), w)
    requires !OddGood(bop, Fn(bop), SymbolicOf(env, o), Known(env, o), SymbolicSrc(env, src), w)
    ensures !AlwaysRight(env, Binary(bop, dst, o, src, w), pc)
  {
    InferNeutral(bop, Fn(bop), Register(r), SymbolicSrc(env, src), w);
    OddNeutralWrong(env, bop, o, src, w, r, pc);
    BinaryIs(env, bop, dst, o, src, w, Plainly(pc), Witness(env, Ones(r)));
    Refuted(env, Binary(bop, dst, o, src, w), pc, Ones(r));
  }

  lemma OddBinaryNeeds(env: Env, bop: BinaryOp, dst: Place, o: Operand, src: Src, w: Width, pc: word)
    requires WellFormed(env) && Odd(src)
    requires !OddGood(bop, Fn(bop), SymbolicOf(env, o), Known(env, o), SymbolicSrc(env, src), w)
    ensures !AlwaysRight(env, Binary(bop, dst, o, src, w), pc)
  {
    var a, b := SymbolicOf(env, o), SymbolicSrc(env, src);
    if a.Constant? && b.Constant? {
      OddFoldNeeds(env, bop, dst, o, src, w, pc);
    } else if bop == XorOp && a == b {
      OddXorNeeds(env, dst, o, src, w, a.r, pc);
    } else {
      OddNeutralNeeds(env, bop, dst, o, src, w, a.r, pc);
    }
  }

  lemma BinaryNeeds(env: Env, bop: BinaryOp, dst: Place, o: Operand, src: Src, w: Width, pc: word)
    requires WellFormed(env) && !BinaryFine(env, bop, o, src, w)
    ensures !AlwaysRight(env, Binary(bop, dst, o, src, w), pc)
  {
    if Odd(src) {
      OddBinaryNeeds(env, bop, dst, o, src, w, pc);
    } else {
      PlainBinaryNeeds(env, bop, dst, o, src, w, pc);
    }
  }

  lemma PlainBinaryNeeds(env: Env, bop: BinaryOp, dst: Place, o: Operand, src: Src, w: Width, pc: word)
    requires WellFormed(env) && !Odd(src) && !BinaryFine(env, bop, o, src, w)
    ensures !AlwaysRight(env, Binary(bop, dst, o, src, w), pc)
  {
    var a, b := SymbolicOf(env, o), SymbolicSrc(env, src);
    if bop == XorOp && a == b && a != Unknown {
      XorNeeds(env, dst, o, src, w, a.r, pc);
    } else {
      InferNeutral(bop, Fn(bop), a, b, w);
      NeutralNeeds(env, bop, dst, o, src, w, pc);
    }
  }

  lemma PlainAddress(env: Env, addr: Address, o: Operand, r: int, pc: word)
    requires WellFormed(env) && SymbolicOf(env, o) == Register(r) && (addr == Direct(o) || addr == BaseOffset(o, 0))
    ensures CutSymbolic(SymbolicAddress(env, addr, pc), W64) == Register(r)
    ensures Effective(Witness(env, Ones(r)), addr, pc) == Cut(Cut(ONES, Known(env, o)), W64)
  {
    OnesRead(env, o, r);
    WholeWord(Cut(ONES, Known(env, o)));
    NeutralZero(ReadOperand(Witness(env, Ones(r)), o));
  }

  lemma LeaNeeds(env: Env, dst: Place, addr: Address, pc: word)
    requires WellFormed(env) && !LeaFine(env, addr)
    ensures !AlwaysRight(env, Lea(dst, addr), pc)
  {
    var a := SymbolicOf(env, addr.o);
    NotFar(a, Known(env, addr.o), W64);
    ClaimWrong(a.r, Known(env, addr.o), W64);
    PlainAddress(env, addr, addr.o, a.r, pc);
    LeaIs(env, dst, addr, Plainly(pc), Witness(env, Ones(a.r)));
    Refuted(env, Lea(dst, addr), pc, Ones(a.r));
  }

  // ---- Registers written before ------------------------------------------------------------

  // A state the environment describes after r was written: r started at one and is zero now.
  ghost function Cleared(env: Env, r: int): State
    requires WellFormed(env)
  {
    Witness(env, Single(r)).(arch := map[r := 0])
  }

  lemma ClearedDescribed(env: Env, r: int, written: set<int>)
    requires WellFormed(env) && r in written
    ensures Describes(env, Single(r), Cleared(env, r), written)
  {
    WitnessDescribed(env, Single(r));
  }

  // In it the register reads as zero, and anything else with its provenance as one.
  lemma ClearedReads(env: Env, o: Operand, r: int)
    requires WellFormed(env)
    ensures o == Arch(r) ==> ReadOperand(Cleared(env, r), o) == 0
    ensures !o.Arch? ==> ReadOperand(Cleared(env, r), o) == ReadOperand(Witness(env, Single(r)), o)
    ensures !o.Arch? && SymbolicOf(env, o) == Register(r) ==> ReadOperand(Cleared(env, r), o) == 1
    ensures SymbolicOf(env, o).Constant? ==> ReadOperand(Cleared(env, r), o) == SymbolicOf(env, o).v
  {
    if !o.Arch? && SymbolicOf(env, o) == Register(r) {
      SingleRead(env, o, r);
    }
    if SymbolicOf(env, o).Constant? {
      WitnessDescribed(env, Single(r));
      OperandFact(env, o, Single(r), Witness(env, Single(r)), {});
    }
  }

  // The claim of a register that started at one is wrong of zero.
  lemma ZeroWrong(r: int, w: Width)
    ensures Cut(0, w) == 0 && !Fact(Register(r), 0, w, Single(r))
  {
    OneBit(w);
  }

  lemma Spoils(env: Env, op: Op, pc: word, r: int, written: set<int>)
    requires WellFormed(env) && r in written && !Right(env, op, Plainly(pc), Single(r), Cleared(env, r))
    ensures !RightAfter(env, op, pc, written)
  {
    ClearedDescribed(env, r, written);
  }

  lemma MovCleared(env: Env, src: Src, w: Width, pc: word, r: int)
    requires WellFormed(env) && MovFine(env, src, w) && src.o == Arch(r) && SymbolicSrc(env, src) != Unknown
    ensures SymbolicSrc(env, src) == Register(r) && ReadSrc(Cleared(env, r), src, Plainly(pc).odd) == 0
  {
    ClearedReads(env, src.o, r);
    PlainReads(env, src, Plainly(pc).odd, Cleared(env, r));
  }

  lemma MovSpoilt(env: Env, dst: Place, addr: Address, src: Src, w: Width, pc: word, r: int, written: set<int>)
    requires WellFormed(env) && MovFine(env, src, w) && src.o == Arch(r) && r in written && SymbolicSrc(env, src) != Unknown
    ensures !RightAfter(env, Mov(dst, src, w), pc, written) && !RightAfter(env, Store(addr, src, w), pc, written)
  {
    MovCleared(env, src, w, pc, r);
    ZeroWrong(r, w);
    MovIs(env, dst, addr, src, w, Plainly(pc), Cleared(env, r));
    Spoils(env, Mov(dst, src, w), pc, r, written);
    Spoils(env, Store(addr, src, w), pc, r, written);
  }

  lemma ExtendSpoilt(env: Env, dst: Place, k: Width, w: Width, pc: word, r: int, written: set<int>)
    requires WellFormed(env) && r in written && k == w
    ensures !RightAfter(env, ZeroExtend(dst, Arch(r), k, w), pc, written)
    ensures !RightAfter(env, Truncate(dst, Arch(r), k, w), pc, written)
  {
    ClearedReads(env, Arch(r), r);
    ZeroWrong(r, w);
    ZeroIs(env, dst, Arch(r), k, w, Plainly(pc), Cleared(env, r));
    TruncateIs(env, dst, Arch(r), k, w, Plainly(pc), Cleared(env, r));
    Spoils(env, ZeroExtend(dst, Arch(r), k, w), pc, r, written);
    Spoils(env, Truncate(dst, Arch(r), k, w), pc, r, written);
  }

  lemma SignSpoilt(env: Env, dst: Place, k: Width, w: Width, pc: word, r: int, written: set<int>)
    requires WellFormed(env) && r in written && k == w
    ensures !RightAfter(env, SignExtend(dst, Arch(r), k, w), pc, written)
  {
    ClearedReads(env, Arch(r), r);
    ZeroWrong(r, w);
    SignThenCut(0, w);
    SignIs(env, dst, Arch(r), k, w, Plainly(pc), Cleared(env, r));
    Spoils(env, SignExtend(dst, Arch(r), k, w), pc, r, written);
  }

  lemma LeaSpoilt(env: Env, dst: Place, addr: Address, pc: word, r: int, written: set<int>)
    requires WellFormed(env) && r in written && (addr == Direct(Arch(r)) || addr == BaseOffset(Arch(r), 0))
    ensures !RightAfter(env, Lea(dst, addr), pc, written)
  {
    ClearedReads(env, Arch(r), r);
    ZeroWrong(r, W64);
    NeutralZero(0);
    LeaIs(env, dst, addr, Plainly(pc), Cleared(env, r));
    assert Effective(Cleared(env, r), addr, pc) == 0;
    Spoils(env, Lea(dst, addr), pc, r, written);
  }

  // What a source with a constant for its symbol reads as.
  function Shown(src: Src, c: word): word { if Odd(src) then Half(c) else c }

  lemma ClearedSource(env: Env, src: Src, pc: word, r: int)
    requires WellFormed(env) && SymbolicSrc(env, src).Constant?
    ensures ReadSrc(Cleared(env, r), src, Plainly(pc).odd) == Shown(src, SymbolicSrc(env, src).v)
  {
    ClearedReads(env, src.o, r);
    if !Odd(src) {
      PlainReads(env, src, Plainly(pc).odd, Cleared(env, r));
    }
  }

  lemma ShownNeutral(env: Env, bop: BinaryOp, src: Src, w: Width, r: int)
    requires BinaryFine(env, bop, Arch(r), src, w) && IsNeutral(bop, Register(r), SymbolicSrc(env, src), w)
    ensures IsNeutral(bop, Register(r), Constant(Shown(src, SymbolicSrc(env, src).v)), w)
  {
  }

  lemma NeutralOfZero(bop: BinaryOp, f: (word, word) -> word, r: int, c: word, w: Width)
    requires Lawful(bop, f) && IsNeutral(bop, Register(r), Constant(c), w)
    ensures Cut(f(0, c), w) == 0
  {
    NeutralLow(bop, f, 0, Register(r), Constant(c), w);
    CutZero(w);
  }

  // A neutral operand leaves the register the claim rests on.
  lemma NeutralSpoilt(env: Env, bop: BinaryOp, dst: Place, src: Src, w: Width, pc: word, r: int, written: set<int>)
    requires WellFormed(env) && r in written && BinaryFine(env, bop, Arch(r), src, w)
    requires IsNeutral(bop, Register(r), SymbolicSrc(env, src), w)
    ensures !RightAfter(env, Binary(bop, dst, Arch(r), src, w), pc, written)
  {
    NeutralCleared(env, bop, src, w, pc, r);
    ZeroWrong(r, w);
    InferNeutral(bop, Fn(bop), Register(r), SymbolicSrc(env, src), w);
    BinaryIs(env, bop, dst, Arch(r), src, w, Plainly(pc), Cleared(env, r));
    Spoils(env, Binary(bop, dst, Arch(r), src, w), pc, r, written);
  }

  lemma NeutralCleared(env: Env, bop: BinaryOp, src: Src, w: Width, pc: word, r: int)
    requires WellFormed(env) && BinaryFine(env, bop, Arch(r), src, w)
    requires IsNeutral(bop, Register(r), SymbolicSrc(env, src), w)
    ensures Cut(Fn(bop)(ReadOperand(Cleared(env, r), Arch(r)), ReadSrc(Cleared(env, r), src, Plainly(pc).odd)), w) == 0
  {
    ClearedReads(env, Arch(r), r);
    ClearedSource(env, src, pc, r);
    ShownNeutral(env, bop, src, w, r);
    FnLawful(bop);
    NeutralOfZero(bop, Fn(bop), r, Shown(src, SymbolicSrc(env, src).v), w);
  }

  // One operand of an exclusive or of equals was written, and the other is another copy of it.
  lemma XorSpoilt(env: Env, dst: Place, o: Operand, src: Src, w: Width, pc: word, r: int, written: set<int>)
    requires WellFormed(env) && r in written && !Odd(src) && SymbolicOf(env, o) == SymbolicSrc(env, src) == Register(r)
    requires (o == Arch(r)) != (src.o == Arch(r))
    ensures !RightAfter(env, Binary(XorOp, dst, o, src, w), pc, written)
  {
    var s := Cleared(env, r);
    ClearedReads(env, o, r);
    ClearedReads(env, src.o, r);
    PlainReads(env, src, Plainly(pc).odd, s);
    OneBit(w);
    XorLaw(1, 0, w);
    XorLaw(0, 1, w);
    InferSame(Fn(XorOp), Register(r), w);
    BinaryIs(env, XorOp, dst, o, src, w, Plainly(pc), s);
    Spoils(env, Binary(XorOp, dst, o, src, w), pc, r, written);
  }

  lemma BinarySpoilt(env: Env, bop: BinaryOp, dst: Place, o: Operand, src: Src, w: Width, pc: word, written: set<int>)
    requires WellFormed(env) && BinaryFine(env, bop, o, src, w) && !Unspoilt(env, Binary(bop, dst, o, src, w), pc, written)
    ensures !RightAfter(env, Binary(bop, dst, o, src, w), pc, written)
  {
    BinaryClaims(env, bop, dst, o, src, w, pc);
    if bop == XorOp && SymbolicOf(env, o) == SymbolicSrc(env, src) {
      XorRestsOn(env, o, src, w);
      XorSpoilt(env, dst, o, src, w, pc, SymbolicOf(env, o).r, written);
    } else {
      BinaryRestsOn(env, bop, o, src, w);
      NeutralSpoilt(env, bop, dst, src, w, pc, o.r, written);
    }
  }

  lemma BinaryClaims(env: Env, bop: BinaryOp, dst: Place, o: Operand, src: Src, w: Width, pc: word)
    ensures Infer(env, Binary(bop, dst, o, src, w), pc) != Unknown
        <==> InferBinary(bop, Fn(bop), SymbolicOf(env, o), SymbolicSrc(env, src), w) != Unknown
  {
  }

  // An exclusive or of equals that rests on a register and is in order.
  lemma XorRestsOn(env: Env, o: Operand, src: Src, w: Width)
    requires BinaryFine(env, XorOp, o, src, w) && SymbolicOf(env, o) == SymbolicSrc(env, src) != Unknown
    requires src.o != o && (o.Arch? || src.o.Arch?)
    ensures !Odd(src) && SymbolicOf(env, o).Register?
    ensures (o == Arch(SymbolicOf(env, o).r)) != (src.o == Arch(SymbolicOf(env, o).r))
  {
  }

  // A claim that is no exclusive or of equals and rests on a register is that of its first operand.
  lemma BinaryRestsOn(env: Env, bop: BinaryOp, o: Operand, src: Src, w: Width)
    requires InferBinary(bop, Fn(bop), SymbolicOf(env, o), SymbolicSrc(env, src), w) != Unknown
    requires !(bop == XorOp && SymbolicOf(env, o) == SymbolicSrc(env, src)) && (o.Arch? || src.o.Arch?)
    ensures o.Arch? && !src.o.Arch? && IsNeutral(bop, Register(o.r), SymbolicSrc(env, src), w)
  {
  }

  /** A claim that rests on a register written before is wrong of some state. */
  lemma SpoiltNeeds(env: Env, op: Op, pc: word, written: set<int>)
    requires WellFormed(env) && Fine(env, op) && !Unspoilt(env, op, pc, written)
    ensures !RightAfter(env, op, pc, written)
  {
    match op
    case Mov(dst, src, w) => MovSpoilt(env, dst, Absolute(0), src, w, pc, src.o.r, written);
    case Store(addr, src, w) => MovSpoilt(env, InMemory, addr, src, w, pc, src.o.r, written);
    case ZeroExtend(dst, o, k, w) => ExtendSpoilt(env, dst, k, w, pc, o.r, written);
    case Truncate(dst, o, k, w) => ExtendSpoilt(env, dst, k, w, pc, o.r, written);
    case SignExtend(dst, o, k, w) => SignSpoilt(env, dst, k, w, pc, o.r, written);
    case Binary(bop, dst, o, src, w) => BinarySpoilt(env, bop, dst, o, src, w, pc, written);
    case Lea(dst, addr) => LeaSpoilt(env, dst, addr, pc, addr.o.r, written);
  }

  // What is wrong when no register was written is wrong after some were.
  lemma MoreStates(env: Env, op: Op, pc: word, written: set<int>)
    requires !AlwaysRight(env, op, pc)
    ensures !RightAfter(env, op, pc, written)
  {
    var world: World, start, s :|
      world.pc == pc && Describes(env, start, s, {}) && !Right(env, op, world, start, s);
    assert Describes(env, start, s, written);
  }

  lemma FineSuffices(env: Env, op: Op, pc: word, written: set<int>)
    requires Fine(env, op) && Unspoilt(env, op, pc, written)
    ensures RightAfter(env, op, pc, written)
  {
    forall world: World, start, s | world.pc == pc && Describes(env, start, s, written)
      ensures Right(env, op, world, start, s)
    {
      InferSound(env, op, world, start, s, written);
    }
  }

  /** Exactly when: an operation is inferred rightly in every state its environment describes, whatever registers
      were written before, if and only if its inference is in order and rests on none of them. */
  lemma FineExact(env: Env, op: Op, pc: word, written: set<int>)
    requires WellFormed(env)
    ensures RightAfter(env, op, pc, written) <==> Fine(env, op) && Unspoilt(env, op, pc, written)
  {
    if Fine(env, op) && Unspoilt(env, op, pc, written) {
      FineSuffices(env, op, pc, written);
    } else if Fine(env, op) {
      SpoiltNeeds(env, op, pc, written);
    } else {
      Needed(env, op, pc);
      MoreStates(env, op, pc, written);
    }
  }

  lemma MoveNeeds(env: Env, dst: Place, addr: Address, src: Src, w: Width, pc: word)
    requires WellFormed(env) && !MovFine(env, src, w)
    ensures !AlwaysRight(env, Mov(dst, src, w), pc) && !AlwaysRight(env, Store(addr, src, w), pc)
  {
    if Odd(src) {
      OddNeeds(env, dst, addr, src, w, pc);
    } else {
      MovNeeds(env, dst, addr, src, w, pc);
    }
  }

  lemma Needed(env: Env, op: Op, pc: word)
    requires WellFormed(env) && !Fine(env, op)
    ensures !AlwaysRight(env, op, pc)
  {
    match op
    case Mov(dst, src, w) => MoveNeeds(env, dst, Absolute(0), src, w, pc);
    case Store(addr, src, w) => MoveNeeds(env, InMemory, addr, src, w, pc);
    case ZeroExtend(dst, o, k, w) =>
      if !ZeroFine(SymbolicOf(env, o), k, w) {
        ZeroConstantNeeds(env, dst, o, k, w, pc);
      } else {
        ZeroNeeds(env, dst, o, w, pc);
      }
    case SignExtend(dst, o, k, w) => SignNeeds(env, dst, o, w, pc);
    case Truncate(dst, o, k, w) => TruncateNeeds(env, dst, o, w, pc);
    case Binary(bop, dst, o, src, w) => BinaryNeeds(env, bop, dst, o, src, w, pc);
    case Lea(dst, addr) => LeaNeeds(env, dst, addr, pc);
  }

  // ---- Where it fails ----------------------------------------------------------------------

  /** The zero extension of an immediate ignores the width it is extended from: a byte of ones to 32 bits is
      reported as 32 ones. */
  lemma ZeroExtendOfImmediate(pc: word)
    ensures !AlwaysRight(Env(map[], map[]), ZeroExtend(InArch(0), Imm(ONES), W8, W32), pc)
  {
    OnesDoNotFit();
    FineExact(Env(map[], map[]), ZeroExtend(InArch(0), Imm(ONES), W8, W32), pc, {});
  }

  lemma OnesDoNotFit()
    ensures !Fine(Env(map[], map[]), ZeroExtend(InArch(0), Imm(ONES), W8, W32))
  {
    ByteIsNarrow();
    CutOnes(W8, W32);
    assert !ZeroFine(Constant(ONES), W8, W32);
  }

  lemma ByteIsNarrow()
    ensures !Covers(W8, W32)
  {
  }

  /** A rotation through carry by nothing is reported as the register it rotates: with that register at one,
      the interpreter writes zero and the report says one. */
  lemma RotateThroughCarry(pc: word)
    ensures var op := Mov(InArch(0), Shifted(Arch(1), Rrx, 0), W64);
      && Infer(Env(map[], map[]), op, pc) == Register(1) && Result(Single(1), op, Plainly(pc)) == 0
      && !Right(Env(map[], map[]), op, Plainly(pc), Single(1), Single(1))
  {
    var env, src := Env(map[], map[]), Shifted(Arch(1), Rrx, 0);
    OneBit(W64);
    MovIs(env, InArch(0), Absolute(0), src, W64, Plainly(pc), Single(1));
    assert ReadSrc(Single(1), src, Plainly(pc).odd) == 0;
  }

  /** The same rotation of a constant can be right: zero stays zero. */
  lemma RotateOfZero(env: Env, id: int, pc: word)
    requires WellFormed(env) && id in env.values && env.values[id] == Constant(0)
    ensures AlwaysRight(env, Mov(InArch(0), Shifted(Virtual(id), Rrx, 0), W64), pc)
  {
    OneBit(W64);
    FineExact(env, Mov(InArch(0), Shifted(Virtual(id), Rrx, 0), W64), pc, {});
  }

  /** A register read after the same instruction wrote it is still reported as it was at the start. */
  lemma ReadAfterWrite(pc: word)
    ensures exists start :: StaleRead(Plainly(pc), start)
  {
    var start, world := State(map[], map[]), Plainly(pc);
    var s := State(map[0 := 1], map[]);
    WholeWord(1);
    WholeWord(0);
    MovIs(Env(map[], map[]), InArch(0), Absolute(0), Plain(Imm(1)), W64, world, start);
    assert Executed(start, Mov(InArch(0), Plain(Imm(1)), W64), world) == s;
    MovIs(Env(map[], map[]), InArch(1), Absolute(0), Plain(Arch(0)), W64, world, s);
    assert ReadSrc(s, Plain(Arch(0)), world.odd) == 1;
    assert StaleRead(world, start);
  }

  ghost predicate StaleRead(world: World, start: State) {
    !Right(Env(map[], map[]), Mov(InArch(1), Plain(Arch(0)), W64), world, start,
           Executed(start, Mov(InArch(0), Plain(Imm(1)), W64), world))
  }

  /** Cleared by an exclusive or with itself, it is reported rightly even so. */
  lemma ClearAfterWrite(env: Env, dst: Place, r: int, w: Width, pc: word, written: set<int>)
    ensures RightAfter(env, Binary(XorOp, dst, Arch(r), Plain(Arch(r)), w), pc, written)
  {
    FineSuffices(env, Binary(XorOp, dst, Arch(r), Plain(Arch(r)), w), pc, written);
  }
}
