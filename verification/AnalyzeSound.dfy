/** What the analyzer reports is what the interpreter does. */
module AnalyzeSound {
  import opened AnalyzeBits
  import opened Analyze

  // ---- What an environment says about a state ----------------------------------------------

  // A virtual register of width w holds v.
  ghost predicate Matches(sym: Symbolic, w: Width, v: word, start: State) {
    match sym
    case Unknown => true
    case Constant(c) => v == c && Cut(c, w) == c
    case Register(r) => v == Cut(Get(start.arch, r), w)
  }

  ghost predicate Knows(env: Env, start: State, s: State) {
    forall id :: id in env.values ==>
      id in env.widths && Matches(env.values[id], env.widths[id], Get(s.virt, id), start)
  }

  // Architectural registers outside `written` still hold what they started with.
  ghost predicate Untouched(written: set<int>, start: State, s: State) {
    forall r :: r !in written ==> Get(s.arch, r) == Get(start.arch, r)
  }

  // Registers an operation reads as architectural operands.
  function ArchOf(o: Operand): set<int> { if o.Arch? then {o.r} else {} }

  function ArchOfAddress(a: Address): set<int> {
    match a
    case Absolute(_) => {}
    case PcRelative(_, _) => {}
    case Direct(o) => ArchOf(o)
    case BaseOffset(o, _) => ArchOf(o)
    case BaseIndexScale(b, i, _, _) => ArchOf(i) + if b.Some? then ArchOf(b.value) else {}
    case SegmentRel(g, b, i, _, _) =>
      ArchOf(g) + (if b.Some? then ArchOf(b.value) else {}) + (if i.Some? then ArchOf(i.value) else {})
  }

  function Reads(op: Op): set<int> {
    match op
    case Mov(_, src, _) => ArchOf(src.o)
    case Binary(_, _, o, src, _) => ArchOf(o) + ArchOf(src.o)
    case Lea(_, addr) => ArchOfAddress(addr)
    case Load(_, addr, _) => ArchOfAddress(addr)
    case Store(addr, src, _) => ArchOfAddress(addr) + ArchOf(src.o)
    case Unmodelled(_, _) => {}
    case _ => ArchOf(op.o)
  }

  // The width at which the provenance of an operand is known.
  function Known(env: Env, o: Operand): Width {
    if o.Virtual? && o.id in env.widths then env.widths[o.id] else W64
  }

  // ---- Inference on values -----------------------------------------------------------------

  // x is what the symbol says, known at width k.
  ghost predicate Fact(a: Symbolic, x: word, k: Width, start: State) {
    match a
    case Unknown => true
    case Constant(c) => x == c
    case Register(r) => x == Cut(Get(start.arch, r), k)
  }

  predicate Far(a: Symbolic, k: Width, w: Width) { a.Register? ==> Covers(k, w) }

  lemma CutIdempotent(v: word, w: Width)
    ensures Cut(Cut(v, w), w) == Cut(v, w)
  {
    AndLaws(v, Mask(w), Mask(w));
    AndLaws(Mask(w), 0, 0);
  }

  lemma MovFact(a: Symbolic, x: word, k: Width, w: Width, start: State)
    requires Fact(a, x, k, start) && Far(a, k, w)
    ensures Fact(CutSymbolic(a, w), Cut(x, w), w, start)
  {
    if a.Register? {
      CutTwice(Get(start.arch, a.r), k, w);
    }
  }

  lemma ExtendFact(a: Symbolic, x: word, k: Width, f: Width, w: Width, start: State)
    requires Fact(a, x, k, start) && (f == w ==> Far(a, k, w))
    ensures Fact(CutSymbolic(InferExtend(a, f, w), w), Cut(x, w), w, start)
    ensures (a.Constant? ==> Cut(Cut(a.v, f), w) == Cut(a.v, w)) ==>
      Fact(CutSymbolic(InferExtend(a, f, w), w), Cut(Cut(x, f), w), w, start)
  {
    CutIdempotent(x, w);
    if f == w {
      MovFact(a, x, k, w, start);
    }
  }

  lemma SignFact(a: Symbolic, x: word, k: Width, f: Width, w: Width, start: State)
    requires Fact(a, x, k, start) && (f == w ==> Far(a, k, w))
    ensures Fact(CutSymbolic(InferSign(a, f, w), w), Cut(SignExtended(x, f), w), w, start)
  {
    if a.Constant? {
      SignFillIsExtended(x, f);
      CutIdempotent(SignFill(x, f), w);
    } else if f == w {
      SignThenCut(x, w);
      MovFact(a, x, k, w, start);
    }
  }

  lemma SignThenCut(x: word, w: Width)
    ensures Cut(SignExtended(x, w), w) == Cut(x, w)
  {
    CutIdempotent(x, w);
    AboveMask(Cut(x, w), Mask(w));
  }

  lemma ComplementFact(a: Symbolic, x: word, k: Width, w: Width, start: State)
    requires Fact(a, x, k, start)
    ensures Fact(CutSymbolic(InferNot(a, w), w), Cut(Not(x), w), w, start)
  {
    CutIdempotent(Not(x), w);
  }

  lemma NegateFact(a: Symbolic, x: word, k: Width, w: Width, start: State)
    requires Fact(a, x, k, start)
    ensures Fact(CutSymbolic(InferNeg(a, w), w), Cut(Sub(0, x), w), w, start)
  {
    CutIdempotent(Sub(0, x), w);
  }

  lemma OffsetFact(a: Symbolic, x: word, k: Width, offset: word, start: State)
    requires Fact(a, x, k, start) && (offset == 0 ==> Far(a, k, W64))
    ensures Fact(CutSymbolic(InferOffset(a, offset), W64), Add(x, offset), W64, start)
  {
    WholeWord(Add(x, offset));
    if a.Register? && offset == 0 {
      NeutralZero(x);
      MovFact(a, x, k, W64, start);
      WholeWord(x);
    }
  }

  lemma WholeWord(v: word)
    ensures Cut(v, W64) == v
  {
    AndLaws(v, Mask(W64), 0);
  }

  // What the inference relies on: neutral operands, and an exclusive or of equals.
  ghost predicate Lawful(bop: BinaryOp, f: (word, word) -> word) {
    && (bop != AndOp ==> forall x :: f(x, 0) == x)
    && (bop == AndOp ==> forall x, y, w :: Cut(y, w) == Cut(ONES, w) ==> Cut(f(x, y), w) == Cut(x, w))
    && (bop == XorOp ==> forall x, y, w :: Cut(f(x, y), w) == 0 <==> Cut(x, w) == Cut(y, w))
  }

  lemma FnLawful(bop: BinaryOp)
    ensures Lawful(bop, Fn(bop))
  {
    var f := Fn(bop);
    forall x
      ensures bop != AndOp ==> f(x, 0) == x
    {
      NeutralZero(x);
    }
    forall x, y, w | bop == AndOp && Cut(y, w) == Cut(ONES, w)
      ensures Cut(f(x, y), w) == Cut(x, w)
    {
      NeutralOnes(x, y, w);
    }
    forall x, y, w | bop == XorOp
      ensures Cut(f(x, y), w) == 0 <==> Cut(x, w) == Cut(y, w)
    {
      XorLaw(x, y, w);
    }
  }

  lemma XorLaw(x: word, y: word, w: Width)
    ensures Cut(Xor(x, y), w) == 0 <==> Cut(x, w) == Cut(y, w)
  {
    if Cut(x, w) == Cut(y, w) {
      XorSame(x, y, Mask(w));
    }
    if Cut(Xor(x, y), w) == 0 {
      XorOnlySame(x, y, Mask(w));
    }
  }

  // When a binary inference is right: for an exclusive or of equals, both are known equally far.
  predicate BinaryGood(bop: BinaryOp, f: (word, word) -> word, a: Symbolic, ka: Width, b: Symbolic, kb: Width, w: Width) {
    if bop == XorOp && a == b && a != Unknown
    then a.Register? ==> And(Mask(ka), Mask(w)) == And(Mask(kb), Mask(w))
    else InferBinary(bop, f, a, b, w) != Unknown ==> Far(a, ka, w)
  }

  lemma SameBits(a: Symbolic, x: word, ka: Width, y: word, kb: Width, w: Width, start: State)
    requires Fact(a, x, ka, start) && Fact(a, y, kb, start) && a != Unknown
    requires a.Register? ==> And(Mask(ka), Mask(w)) == And(Mask(kb), Mask(w))
    ensures Cut(x, w) == Cut(y, w)
  {
    if a.Register? {
      AndLaws(Get(start.arch, a.r), Mask(ka), Mask(w));
      AndLaws(Get(start.arch, a.r), Mask(kb), Mask(w));
    }
  }

  lemma CutZero(w: Width)
    ensures Cut(0, w) == 0
  {
  }

  // The three ways a binary operation is inferred.
  lemma InferSame(f: (word, word) -> word, a: Symbolic, w: Width)
    requires a != Unknown
    ensures InferBinary(XorOp, f, a, a, w) == Constant(0)
  {
  }

  lemma InferFolded(bop: BinaryOp, f: (word, word) -> word, a: Symbolic, b: Symbolic, w: Width)
    requires a.Constant? && b.Constant? && !(bop == XorOp && a == b)
    ensures InferBinary(bop, f, a, b, w) == Constant(Cut(f(a.v, b.v), w))
  {
  }

  lemma InferNeutral(bop: BinaryOp, f: (word, word) -> word, a: Symbolic, b: Symbolic, w: Width)
    requires !(a.Constant? && b.Constant?) && !(bop == XorOp && a == b)
    ensures InferBinary(bop, f, a, b, w) == Unknown || InferBinary(bop, f, a, b, w) == a
    ensures InferBinary(bop, f, a, b, w) == Unknown <==> !IsNeutral(bop, a, b, w)
  {
  }

  predicate IsNeutral(bop: BinaryOp, a: Symbolic, b: Symbolic, w: Width) {
    a.Register? && b.Constant? && ((bop != AndOp && b.v == 0) || (bop == AndOp && Cut(b.v, w) == Cut(ONES, w)))
  }

  lemma FoldedFact(v: word, w: Width, start: State)
    ensures Fact(CutSymbolic(Constant(Cut(v, w)), w), Cut(v, w), w, start)
  {
    CutIdempotent(v, w);
  }

  lemma NeutralFact(bop: BinaryOp, f: (word, word) -> word, a: Symbolic, x: word, ka: Width, b: Symbolic, w: Width, start: State)
    requires Lawful(bop, f) && Fact(a, x, ka, start) && IsNeutral(bop, a, b, w) && Covers(ka, w)
    ensures Fact(a, Cut(f(x, b.v), w), w, start)
  {
    MovFact(a, x, ka, w, start);
  }

  lemma BinaryFact(bop: BinaryOp, f: (word, word) -> word, a: Symbolic, x: word, ka: Width,
                   b: Symbolic, y: word, kb: Width, w: Width, start: State)
    requires Lawful(bop, f) && Fact(a, x, ka, start) && Fact(b, y, kb, start) && BinaryGood(bop, f, a, ka, b, kb, w)
    ensures Fact(CutSymbolic(InferBinary(bop, f, a, b, w), w), Cut(f(x, y), w), w, start)
  {
    if bop == XorOp && a == b && a != Unknown {
      InferSame(f, a, w);
      SameBits(a, x, ka, y, kb, w, start);
      CutZero(w);
    } else if a.Constant? && b.Constant? {
      InferFolded(bop, f, a, b, w);
      FoldedFact(f(x, y), w, start);
    } else {
      BinaryNeutral(bop, f, a, x, ka, b, y, w, start);
    }
  }

  lemma BinaryNeutral(bop: BinaryOp, f: (word, word) -> word, a: Symbolic, x: word, ka: Width,
                      b: Symbolic, y: word, w: Width, start: State)
    requires Lawful(bop, f) && Fact(a, x, ka, start) && (b.Constant? ==> y == b.v)
    requires !(a.Constant? && b.Constant?) && !(bop == XorOp && a == b && a != Unknown)
    requires InferBinary(bop, f, a, b, w) != Unknown ==> Far(a, ka, w)
    ensures Fact(CutSymbolic(InferBinary(bop, f, a, b, w), w), Cut(f(x, y), w), w, start)
  {
    if a != Unknown {
      InferNeutral(bop, f, a, b, w);
      if IsNeutral(bop, a, b, w) {
        NeutralFact(bop, f, a, x, ka, b, w, start);
      }
    }
  }

  // ---- One operation -----------------------------------------------------------------------

  // The state is one the environment describes, and the registers read have not been written.
  ghost predicate Consistent(env: Env, regs: set<int>, start: State, s: State, written: set<int>) {
    Knows(env, start, s) && Untouched(written, start, s) && regs !! written
  }

  lemma OperandFact(env: Env, o: Operand, start: State, s: State, written: set<int>)
    requires Consistent(env, ArchOf(o), start, s, written)
    ensures Fact(SymbolicOf(env, o), ReadOperand(s, o), Known(env, o), start)
  {
    match o
    case Imm(_) =>
    case Arch(r) =>
      assert r !in written;
      WholeWord(Get(start.arch, r));
    case Virtual(id) =>
  }

  // The one shift by nothing that is not the register itself.
  predicate Odd(s: Src) { s.Shifted? && s.amount == 0 && s.shift == Rrx }

  lemma SrcFact(env: Env, src: Src, odd: (Src, word) -> word, start: State, s: State, written: set<int>)
    requires Consistent(env, ArchOf(src.o), start, s, written) && !Odd(src)
    ensures Fact(SymbolicSrc(env, src), ReadSrc(s, src, odd), Known(env, src.o), start)
  {
    OperandFact(env, src.o, start, s, written);
  }

  // The source reads one place down: a constant is known then too.
  lemma OddFact(env: Env, src: Src, odd: (Src, word) -> word, start: State, s: State, written: set<int>)
    requires Consistent(env, ArchOf(src.o), start, s, written) && Odd(src)
    ensures SymbolicSrc(env, src).Constant? ==> ReadSrc(s, src, odd) == Half(SymbolicSrc(env, src).v)
  {
    OperandFact(env, src.o, start, s, written);
  }

  /** When the inference for an operation is right, in terms of what the environment holds: provenance is
      claimed no wider than it is known, a constant fits the width it is extended from, and an exclusive
      or of equals compares registers known equally far.  A rotation through carry by nothing, which is
      taken for the register itself, has conditions of its own. */
  predicate Fine(env: Env, op: Op) {
    match op
    case Mov(_, src, w) => MovFine(env, src, w)
    case ZeroExtend(_, o, k, w) => ZeroFine(SymbolicOf(env, o), k, w) && (k == w ==> Far(SymbolicOf(env, o), Known(env, o), w))
    case SignExtend(_, o, k, w) => k == w ==> Far(SymbolicOf(env, o), Known(env, o), w)
    case Truncate(_, o, k, w) => k == w ==> Far(SymbolicOf(env, o), Known(env, o), w)
    case Binary(bop, _, o, src, w) => BinaryFine(env, bop, o, src, w)
    case Lea(_, addr) => LeaFine(env, addr)
    case Store(_, src, w) => MovFine(env, src, w)
    case _ => true
  }

  predicate MovFine(env: Env, src: Src, w: Width) {
    if Odd(src) then HalfFine(SymbolicSrc(env, src), w) else Far(SymbolicSrc(env, src), Known(env, src.o), w)
  }

  // A claim that survives moving one place down: of a constant with the same bits there, never of a register.
  predicate HalfFine(a: Symbolic, w: Width) {
    match a
    case Unknown => true
    case Constant(c) => Cut(Half(c), w) == Cut(c, w)
    case Register(_) => false
  }

  predicate ZeroFine(a: Symbolic, k: Width, w: Width) {
    a.Constant? ==> Cut(Cut(a.v, k), w) == Cut(a.v, w)
  }

  predicate BinaryFine(env: Env, bop: BinaryOp, o: Operand, src: Src, w: Width) {
    var a, b := SymbolicOf(env, o), SymbolicSrc(env, src);
    if Odd(src) then OddGood(bop, Fn(bop), a, Known(env, o), b, w)
    else BinaryGood(bop, Fn(bop), a, Known(env, o), b, Known(env, src.o), w)
  }

  // The same when the second operand reads one place down: constants fold alike, a neutral operand stays
  // neutral, and an exclusive or of a register with itself is out.
  predicate OddGood(bop: BinaryOp, f: (word, word) -> word, a: Symbolic, ka: Width, b: Symbolic, w: Width) {
    if a.Constant? && b.Constant? then Cut(f(a.v, Half(b.v)), w) == Cut(f(a.v, b.v), w)
    else if bop == XorOp && a == b then a == Unknown
    else IsNeutral(bop, a, b, w) ==> Covers(ka, w) && IsNeutral(bop, a, Constant(Half(b.v)), w)
  }

  lemma OddBinaryFact(bop: BinaryOp, f: (word, word) -> word, a: Symbolic, x: word, ka: Width,
                      b: Symbolic, y: word, w: Width, start: State)
    requires Lawful(bop, f) && Fact(a, x, ka, start) && (b.Constant? ==> y == Half(b.v)) && OddGood(bop, f, a, ka, b, w)
    ensures Fact(CutSymbolic(InferBinary(bop, f, a, b, w), w), Cut(f(x, y), w), w, start)
  {
    if a.Constant? && b.Constant? {
      FoldedFact(f(a.v, b.v), w, start);
      if bop == XorOp && a == b {
        InferSame(f, a, w);
        CutZero(w);
        assert Cut(f(a.v, b.v), w) == 0;
      } else {
        InferFolded(bop, f, a, b, w);
      }
    } else if !(bop == XorOp && a == b) {
      InferNeutral(bop, f, a, b, w);
      if IsNeutral(bop, a, b, w) {
        NeutralFact(bop, f, a, x, ka, Constant(Half(b.v)), w, start);
      }
    }
  }

  predicate LeaFine(env: Env, addr: Address) {
    match addr
    case Direct(o) => Far(SymbolicOf(env, o), Known(env, o), W64)
    case BaseOffset(o, offset) => offset == 0 ==> Far(SymbolicOf(env, o), Known(env, o), W64)
    case _ => true
  }

  // The inference for an operation is right about its result.
  ghost predicate Right(env: Env, op: Op, world: World, start: State, s: State) {
    Fact(Infer(env, op, world.pc), Result(s, op, world), op.Width(), start)
  }

  lemma MovIs(env: Env, dst: Place, addr: Address, src: Src, w: Width, world: World, s: State)
    ensures Infer(env, Mov(dst, src, w), world.pc) == CutSymbolic(SymbolicSrc(env, src), w)
    ensures Result(s, Mov(dst, src, w), world) == Cut(ReadSrc(s, src, world.odd), w)
    ensures Infer(env, Store(addr, src, w), world.pc) == CutSymbolic(SymbolicSrc(env, src), w)
    ensures Result(s, Store(addr, src, w), world) == Cut(ReadSrc(s, src, world.odd), w)
  {
  }

  lemma MovOperand(env: Env, src: Src, w: Width, world: World, start: State, s: State, written: set<int>)
    requires Consistent(env, ArchOf(src.o), start, s, written) && MovFine(env, src, w)
    ensures Fact(CutSymbolic(SymbolicSrc(env, src), w), Cut(ReadSrc(s, src, world.odd), w), w, start)
  {
    if Odd(src) {
      OddFact(env, src, world.odd, start, s, written);
    } else {
      SrcFact(env, src, world.odd, start, s, written);
      MovFact(SymbolicSrc(env, src), ReadSrc(s, src, world.odd), Known(env, src.o), w, start);
    }
  }

  lemma MovRight(env: Env, dst: Place, addr: Address, src: Src, w: Width, world: World, start: State, s: State, written: set<int>)
    requires Consistent(env, ArchOf(src.o), start, s, written) && MovFine(env, src, w)
    ensures Right(env, Mov(dst, src, w), world, start, s) && Right(env, Store(addr, src, w), world, start, s)
  {
    MovIs(env, dst, addr, src, w, world, s);
    MovOperand(env, src, w, world, start, s, written);
  }

  lemma ZeroIs(env: Env, dst: Place, o: Operand, k: Width, w: Width, world: World, s: State)
    ensures Infer(env, ZeroExtend(dst, o, k, w), world.pc) == CutSymbolic(InferExtend(SymbolicOf(env, o), k, w), w)
    ensures Result(s, ZeroExtend(dst, o, k, w), world) == Cut(Cut(ReadOperand(s, o), k), w)
  {
  }

  lemma ZeroOperand(env: Env, dst: Place, o: Operand, k: Width, w: Width, world: World, start: State, s: State, written: set<int>)
    requires Consistent(env, ArchOf(o), start, s, written) && Fine(env, ZeroExtend(dst, o, k, w))
    ensures Fact(CutSymbolic(InferExtend(SymbolicOf(env, o), k, w), w), Cut(Cut(ReadOperand(s, o), k), w), w, start)
  {
    OperandFact(env, o, start, s, written);
    ExtendFact(SymbolicOf(env, o), ReadOperand(s, o), Known(env, o), k, w, start);
  }

  lemma ZeroRight(env: Env, dst: Place, o: Operand, k: Width, w: Width, world: World, start: State, s: State, written: set<int>)
    requires Consistent(env, ArchOf(o), start, s, written) && Fine(env, ZeroExtend(dst, o, k, w))
    ensures Right(env, ZeroExtend(dst, o, k, w), world, start, s)
  {
    ZeroIs(env, dst, o, k, w, world, s);
    ZeroOperand(env, dst, o, k, w, world, start, s, written);
  }

  lemma TruncateIs(env: Env, dst: Place, o: Operand, k: Width, w: Width, world: World, s: State)
    ensures Infer(env, Truncate(dst, o, k, w), world.pc) == CutSymbolic(InferExtend(SymbolicOf(env, o), k, w), w)
    ensures Result(s, Truncate(dst, o, k, w), world) == Cut(ReadOperand(s, o), w)
  {
  }

  lemma TruncateOperand(env: Env, dst: Place, o: Operand, k: Width, w: Width, world: World, start: State, s: State, written: set<int>)
    requires Consistent(env, ArchOf(o), start, s, written) && Fine(env, Truncate(dst, o, k, w))
    ensures Fact(CutSymbolic(InferExtend(SymbolicOf(env, o), k, w), w), Cut(ReadOperand(s, o), w), w, start)
  {
    OperandFact(env, o, start, s, written);
    ExtendFact(SymbolicOf(env, o), ReadOperand(s, o), Known(env, o), k, w, start);
  }

  lemma TruncateRight(env: Env, dst: Place, o: Operand, k: Width, w: Width, world: World, start: State, s: State, written: set<int>)
    requires Consistent(env, ArchOf(o), start, s, written) && Fine(env, Truncate(dst, o, k, w))
    ensures Right(env, Truncate(dst, o, k, w), world, start, s)
  {
    TruncateIs(env, dst, o, k, w, world, s);
    TruncateOperand(env, dst, o, k, w, world, start, s, written);
  }

  lemma SignIs(env: Env, dst: Place, o: Operand, k: Width, w: Width, world: World, s: State)
    ensures Infer(env, SignExtend(dst, o, k, w), world.pc) == CutSymbolic(InferSign(SymbolicOf(env, o), k, w), w)
    ensures Result(s, SignExtend(dst, o, k, w), world) == Cut(SignExtended(ReadOperand(s, o), k), w)
  {
  }

  lemma SignOperand(env: Env, dst: Place, o: Operand, k: Width, w: Width, world: World, start: State, s: State, written: set<int>)
    requires Consistent(env, ArchOf(o), start, s, written) && Fine(env, SignExtend(dst, o, k, w))
    ensures Fact(CutSymbolic(InferSign(SymbolicOf(env, o), k, w), w), Cut(SignExtended(ReadOperand(s, o), k), w), w, start)
  {
    OperandFact(env, o, start, s, written);
    SignFact(SymbolicOf(env, o), ReadOperand(s, o), Known(env, o), k, w, start);
  }

  lemma SignRight(env: Env, dst: Place, o: Operand, k: Width, w: Width, world: World, start: State, s: State, written: set<int>)
    requires Consistent(env, ArchOf(o), start, s, written) && Fine(env, SignExtend(dst, o, k, w))
    ensures Right(env, SignExtend(dst, o, k, w), world, start, s)
  {
    SignIs(env, dst, o, k, w, world, s);
    SignOperand(env, dst, o, k, w, world, start, s, written);
  }

  lemma BinaryIs(env: Env, bop: BinaryOp, dst: Place, o: Operand, src: Src, w: Width, world: World, s: State)
    ensures Infer(env, Binary(bop, dst, o, src, w), world.pc)
         == CutSymbolic(InferBinary(bop, Fn(bop), SymbolicOf(env, o), SymbolicSrc(env, src), w), w)
    ensures Result(s, Binary(bop, dst, o, src, w), world)
         == Cut(Fn(bop)(ReadOperand(s, o), ReadSrc(s, src, world.odd)), w)
  {
  }

  lemma BinaryRight(env: Env, bop: BinaryOp, dst: Place, o: Operand, src: Src, w: Width, world: World,
                    start: State, s: State, written: set<int>)
    requires Consistent(env, ArchOf(o) + ArchOf(src.o), start, s, written) && BinaryFine(env, bop, o, src, w)
    ensures Right(env, Binary(bop, dst, o, src, w), world, start, s)
  {
    BinaryIs(env, bop, dst, o, src, w, world, s);
    if Odd(src) {
      OddOperands(env, bop, o, src, w, world, start, s, written);
    } else {
      BinaryOperands(env, bop, o, src, w, world, start, s, written);
    }
  }

  lemma OddOperands(env: Env, bop: BinaryOp, o: Operand, src: Src, w: Width, world: World,
                    start: State, s: State, written: set<int>)
    requires Consistent(env, ArchOf(o) + ArchOf(src.o), start, s, written) && Odd(src)
    requires OddGood(bop, Fn(bop), SymbolicOf(env, o), Known(env, o), SymbolicSrc(env, src), w)
    ensures Fact(CutSymbolic(InferBinary(bop, Fn(bop), SymbolicOf(env, o), SymbolicSrc(env, src), w), w),
                 Cut(Fn(bop)(ReadOperand(s, o), ReadSrc(s, src, world.odd)), w), w, start)
  {
    OperandFact(env, o, start, s, written);
    OddFact(env, src, world.odd, start, s, written);
    FnLawful(bop);
    OddBinaryFact(bop, Fn(bop), SymbolicOf(env, o), ReadOperand(s, o), Known(env, o),
                  SymbolicSrc(env, src), ReadSrc(s, src, world.odd), w, start);
  }

  lemma BinaryOperands(env: Env, bop: BinaryOp, o: Operand, src: Src, w: Width, world: World,
                       start: State, s: State, written: set<int>)
    requires Consistent(env, ArchOf(o) + ArchOf(src.o), start, s, written) && !Odd(src)
    requires BinaryGood(bop, Fn(bop), SymbolicOf(env, o), Known(env, o), SymbolicSrc(env, src), Known(env, src.o), w)
    ensures Fact(CutSymbolic(InferBinary(bop, Fn(bop), SymbolicOf(env, o), SymbolicSrc(env, src), w), w),
                 Cut(Fn(bop)(ReadOperand(s, o), ReadSrc(s, src, world.odd)), w), w, start)
  {
    OperandFact(env, o, start, s, written);
    SrcFact(env, src, world.odd, start, s, written);
    FnLawful(bop);
    BinaryFact(bop, Fn(bop), SymbolicOf(env, o), ReadOperand(s, o), Known(env, o),
               SymbolicSrc(env, src), ReadSrc(s, src, world.odd), Known(env, src.o), w, start);
  }

  lemma ComplementIs(env: Env, dst: Place, o: Operand, w: Width, world: World, s: State)
    ensures Infer(env, Complement(dst, o, w), world.pc) == CutSymbolic(InferNot(SymbolicOf(env, o), w), w)
    ensures Result(s, Complement(dst, o, w), world) == Cut(Not(ReadOperand(s, o)), w)
  {
  }

  lemma ComplementOperand(env: Env, dst: Place, o: Operand, w: Width, world: World, start: State, s: State, written: set<int>)
    requires Consistent(env, ArchOf(o), start, s, written)
    ensures Fact(CutSymbolic(InferNot(SymbolicOf(env, o), w), w), Cut(Not(ReadOperand(s, o)), w), w, start)
  {
    OperandFact(env, o, start, s, written);
    ComplementFact(SymbolicOf(env, o), ReadOperand(s, o), Known(env, o), w, start);
  }

  lemma ComplementRight(env: Env, dst: Place, o: Operand, w: Width, world: World, start: State, s: State, written: set<int>)
    requires Consistent(env, ArchOf(o), start, s, written)
    ensures Right(env, Complement(dst, o, w), world, start, s)
  {
    ComplementIs(env, dst, o, w, world, s);
    ComplementOperand(env, dst, o, w, world, start, s, written);
  }

  lemma NegateIs(env: Env, dst: Place, o: Operand, w: Width, world: World, s: State)
    ensures Infer(env, Negate(dst, o, w), world.pc) == CutSymbolic(InferNeg(SymbolicOf(env, o), w), w)
    ensures Result(s, Negate(dst, o, w), world) == Cut(Sub(0, ReadOperand(s, o)), w)
  {
  }

  lemma NegateOperand(env: Env, dst: Place, o: Operand, w: Width, world: World, start: State, s: State, written: set<int>)
    requires Consistent(env, ArchOf(o), start, s, written)
    ensures Fact(CutSymbolic(InferNeg(SymbolicOf(env, o), w), w), Cut(Sub(0, ReadOperand(s, o)), w), w, start)
  {
    OperandFact(env, o, start, s, written);
    NegateFact(SymbolicOf(env, o), ReadOperand(s, o), Known(env, o), w, start);
  }

  lemma NegateRight(env: Env, dst: Place, o: Operand, w: Width, world: World, start: State, s: State, written: set<int>)
    requires Consistent(env, ArchOf(o), start, s, written)
    ensures Right(env, Negate(dst, o, w), world, start, s)
  {
    NegateIs(env, dst, o, w, world, s);
    NegateOperand(env, dst, o, w, world, start, s, written);
  }

  // An address claimed as a value is the address computed.
  lemma AddressFact(env: Env, addr: Address, pc: word, start: State, s: State, written: set<int>)
    requires Consistent(env, ArchOfAddress(addr), start, s, written) && LeaFine(env, addr)
    ensures Fact(CutSymbolic(SymbolicAddress(env, addr, pc), W64), Effective(s, addr, pc), W64, start)
  {
    match addr
    case Absolute(a) => WholeWord(a);
    case PcRelative(base, offset) => WholeWord(Add(if base.Some? then base.value else pc, offset));
    case Direct(o) =>
      OperandFact(env, o, start, s, written);
      MovFact(SymbolicOf(env, o), ReadOperand(s, o), Known(env, o), W64, start);
      WholeWord(ReadOperand(s, o));
    case BaseOffset(o, offset) =>
      OperandFact(env, o, start, s, written);
      OffsetFact(SymbolicOf(env, o), ReadOperand(s, o), Known(env, o), offset, start);
    case BaseIndexScale(_, _, _, _) =>
    case SegmentRel(_, _, _, _, _) =>
  }

  lemma LeaIs(env: Env, dst: Place, addr: Address, world: World, s: State)
    ensures Infer(env, Lea(dst, addr), world.pc) == CutSymbolic(SymbolicAddress(env, addr, world.pc), W64)
    ensures Result(s, Lea(dst, addr), world) == Effective(s, addr, world.pc)
  {
  }

  lemma LeaRight(env: Env, dst: Place, addr: Address, world: World, start: State, s: State, written: set<int>)
    requires Consistent(env, ArchOfAddress(addr), start, s, written) && LeaFine(env, addr)
    ensures Right(env, Lea(dst, addr), world, start, s)
  {
    LeaIs(env, dst, addr, world, s);
    AddressFact(env, addr, world.pc, start, s, written);
  }

  // ---- Registers written before ------------------------------------------------------------

  // The environment is true of the state, whose registers in `written` may hold anything.
  ghost predicate Describes(env: Env, start: State, s: State, written: set<int>) {
    Knows(env, start, s) && Untouched(written, start, s)
  }

  predicate Fresh(o: Operand, written: set<int>) { o.Arch? ==> o.r !in written }

  // What an operation's claim would rest on holds what it held at the start; an exclusive or of an operand with
  // itself rests on nothing.
  predicate RestsOnFresh(op: Op, written: set<int>) {
    match op
    case Mov(_, src, _) => Fresh(src.o, written)
    case Store(_, src, _) => Fresh(src.o, written)
    case Binary(bop, _, o, src, _) => (bop == XorOp && src.o == o) || (Fresh(o, written) && Fresh(src.o, written))
    case Lea(_, addr) => addr.Direct? || addr.BaseOffset? ==> Fresh(addr.o, written)
    case Load(_, _, _) => true
    case Unmodelled(_, _) => true
    case _ => Fresh(op.o, written)
  }

  predicate Unspoilt(env: Env, op: Op, pc: word, written: set<int>) {
    Infer(env, op, pc) != Unknown ==> RestsOnFresh(op, written)
  }

  lemma FreshIs(o: Operand, written: set<int>)
    ensures Fresh(o, written) <==> ArchOf(o) !! written
  {
  }

  // A source with the symbol of a register reads as its operand.
  lemma PlainReads(env: Env, src: Src, odd: (Src, word) -> word, s: State)
    requires !Odd(src) && SymbolicSrc(env, src) != Unknown
    ensures ReadSrc(s, src, odd) == ReadOperand(s, src.o)
  {
  }

  lemma SelfXor(x: word, w: Width)
    ensures Cut(Fn(XorOp)(x, x), w) == 0
  {
    XorLaw(x, x, w);
  }

  // An exclusive or of a value with itself, whatever it is.
  lemma SelfXorRight(env: Env, dst: Place, o: Operand, src: Src, w: Width, world: World, start: State, s: State)
    requires src.o == o && !Odd(src) && SymbolicSrc(env, src) == SymbolicOf(env, o) != Unknown
    ensures Right(env, Binary(XorOp, dst, o, src, w), world, start, s)
  {
    PlainReads(env, src, world.odd, s);
    SelfXor(ReadOperand(s, o), w);
    InferSame(Fn(XorOp), SymbolicOf(env, o), w);
    CutZero(w);
    BinaryIs(env, XorOp, dst, o, src, w, world, s);
  }

  lemma BinarySound(env: Env, bop: BinaryOp, dst: Place, o: Operand, src: Src, w: Width, world: World,
                    start: State, s: State, written: set<int>)
    requires Describes(env, start, s, written) && BinaryFine(env, bop, o, src, w)
    requires Unspoilt(env, Binary(bop, dst, o, src, w), world.pc, written)
    ensures Right(env, Binary(bop, dst, o, src, w), world, start, s)
  {
    var a, b := SymbolicOf(env, o), SymbolicSrc(env, src);
    BinaryIs(env, bop, dst, o, src, w, world, s);
    FreshIs(o, written);
    FreshIs(src.o, written);
    if ArchOf(o) + ArchOf(src.o) !! written {
      BinaryRight(env, bop, dst, o, src, w, world, start, s, written);
    } else if InferBinary(bop, Fn(bop), a, b, w) != Unknown {
      StaleRight(env, dst, o, src, w, world, start, s);
    }
  }

  lemma StaleRight(env: Env, dst: Place, o: Operand, src: Src, w: Width, world: World, start: State, s: State)
    requires o.Arch? && src.o == o && BinaryFine(env, XorOp, o, src, w)
    requires InferBinary(XorOp, Fn(XorOp), SymbolicOf(env, o), SymbolicSrc(env, src), w) != Unknown
    ensures Right(env, Binary(XorOp, dst, o, src, w), world, start, s)
  {
    StaleXor(env, o, src, w);
    SelfXorRight(env, dst, o, src, w, world, start, s);
  }

  // The one claim of an exclusive or of a register with itself.
  lemma StaleXor(env: Env, o: Operand, src: Src, w: Width)
    requires o.Arch? && src.o == o && BinaryFine(env, XorOp, o, src, w)
    requires InferBinary(XorOp, Fn(XorOp), SymbolicOf(env, o), SymbolicSrc(env, src), w) != Unknown
    ensures !Odd(src) && SymbolicSrc(env, src) == SymbolicOf(env, o)
  {
  }

  lemma LeaSound(env: Env, dst: Place, addr: Address, world: World, start: State, s: State, written: set<int>)
    requires Describes(env, start, s, written) && LeaFine(env, addr)
    requires Unspoilt(env, Lea(dst, addr), world.pc, written)
    ensures Right(env, Lea(dst, addr), world, start, s)
  {
    LeaIs(env, dst, addr, world, s);
    if addr.Direct? || addr.BaseOffset? {
      FreshIs(addr.o, written);
    }
    if ArchOfAddress(addr) !! written {
      LeaRight(env, dst, addr, world, start, s, written);
    }
  }

  lemma MovSound(env: Env, dst: Place, addr: Address, src: Src, w: Width, world: World, start: State, s: State, written: set<int>)
    requires Describes(env, start, s, written) && MovFine(env, src, w)
    requires SymbolicSrc(env, src) != Unknown ==> Fresh(src.o, written)
    ensures Right(env, Mov(dst, src, w), world, start, s) && Right(env, Store(addr, src, w), world, start, s)
  {
    FreshIs(src.o, written);
    if Fresh(src.o, written) {
      MovRight(env, dst, addr, src, w, world, start, s, written);
    } else {
      MovIs(env, dst, addr, src, w, world, s);
    }
  }

  // An operation on one operand.
  lemma UnarySound(env: Env, op: Op, world: World, start: State, s: State, written: set<int>)
    requires op.ZeroExtend? || op.SignExtend? || op.Truncate? || op.Complement? || op.Negate?
    requires Describes(env, start, s, written) && Fine(env, op) && Unspoilt(env, op, world.pc, written)
    ensures Right(env, op, world, start, s)
  {
    FreshIs(op.o, written);
    if Fresh(op.o, written) {
      match op
      case ZeroExtend(dst, o, k, w) => ZeroRight(env, dst, o, k, w, world, start, s, written);
      case SignExtend(dst, o, k, w) => SignRight(env, dst, o, k, w, world, start, s, written);
      case Truncate(dst, o, k, w) => TruncateRight(env, dst, o, k, w, world, start, s, written);
      case Complement(dst, o, w) => ComplementRight(env, dst, o, w, world, start, s, written);
      case Negate(dst, o, w) => NegateRight(env, dst, o, w, world, start, s, written);
    }
  }

  lemma MovUnspoilt(env: Env, dst: Place, addr: Address, src: Src, w: Width, pc: word, written: set<int>)
    ensures Unspoilt(env, Mov(dst, src, w), pc, written) <==> (SymbolicSrc(env, src) != Unknown ==> Fresh(src.o, written))
    ensures Unspoilt(env, Store(addr, src, w), pc, written) <==> (SymbolicSrc(env, src) != Unknown ==> Fresh(src.o, written))
  {
  }

  /** Every value the analyzer claims for an operation is the value the operation writes, in every state its
      environment describes, also after registers its claim does not rest on were written. */
  lemma InferSound(env: Env, op: Op, world: World, start: State, s: State, written: set<int>)
    requires Describes(env, start, s, written) && Fine(env, op) && Unspoilt(env, op, world.pc, written)
    ensures Right(env, op, world, start, s)
  {
    match op
    case Mov(dst, src, w) =>
      MovUnspoilt(env, dst, Absolute(0), src, w, world.pc, written);
      MovSound(env, dst, Absolute(0), src, w, world, start, s, written);
    case Store(addr, src, w) =>
      MovUnspoilt(env, InMemory, addr, src, w, world.pc, written);
      MovSound(env, InMemory, addr, src, w, world, start, s, written);
    case Binary(bop, dst, o, src, w) => BinarySound(env, bop, dst, o, src, w, world, start, s, written);
    case Lea(dst, addr) => LeaSound(env, dst, addr, world, start, s, written);
    case Load(_, _, _) =>
    case Unmodelled(_, _) =>
    case _ => UnarySound(env, op, world, start, s, written);
  }

  // An operation that reads no register written before rests on none.
  lemma ReadsNone(env: Env, op: Op, pc: word, written: set<int>)
    requires Reads(op) !! written
    ensures Unspoilt(env, op, pc, written)
  {
  }
}
