/** A memory address reported as complete is the address the interpreter computes. */
module AnalyzeAddress {
  import opened AnalyzeBits
  import opened Analyze
  import opened AnalyzeSound
  import opened AnalyzeRun
  import opened Common

  ghost function Term(r: Option<int>, start: State): word { if r.Some? then Get(start.arch, r.value) else 0 }

  // The address a report stands for, from the registers as they were at the start.
  ghost function Meaning(p: Place64, start: State): word {
    match p
    case At(a) => a
    case Sum(g, b, i, scale, d) => Add(Add(Add(Term(g, start), Term(b, start)), Mul(Term(i, start), scale)), d)
  }

  // Virtual registers in an address stand for whole registers.
  predicate Whole(env: Env, o: Operand) { Far(SymbolicOf(env, o), Known(env, o), W64) }

  predicate WholeOr0(env: Env, o: Option<Operand>) { o.Some? ==> Whole(env, o.value) }

  predicate AddressFine(env: Env, addr: Address) {
    match addr
    case Absolute(_) => true
    case PcRelative(_, _) => true
    case Direct(o) => Whole(env, o)
    case BaseOffset(o, _) => Whole(env, o)
    case BaseIndexScale(b, i, _, _) => WholeOr0(env, b) && Whole(env, i)
    case SegmentRel(g, b, i, _, _) => Whole(env, g) && WholeOr0(env, b) && WholeOr0(env, i)
  }

  // x is what the symbol says, whole.
  ghost predicate Exactly(a: Symbolic, x: word, start: State) {
    match a
    case Unknown => true
    case Constant(c) => x == c
    case Register(r) => x == Get(start.arch, r)
  }

  lemma OperandExact(env: Env, o: Operand, start: State, s: State, written: set<int>)
    requires Consistent(env, ArchOf(o), start, s, written) && Whole(env, o)
    ensures Exactly(SymbolicOf(env, o), ReadOperand(s, o), start)
  {
    OperandFact(env, o, start, s, written);
    var a := SymbolicOf(env, o);
    if a.Register? {
      CutTwice(Get(start.arch, a.r), Known(env, o), W64);
      WholeWord(Get(start.arch, a.r));
      WholeWord(ReadOperand(s, o));
    }
  }

  function ReadOr0(s: State, o: Option<Operand>): word { if o.Some? then ReadOperand(s, o.value) else 0 }

  lemma OptionExact(env: Env, o: Option<Operand>, start: State, s: State, written: set<int>)
    requires Consistent(env, if o.Some? then ArchOf(o.value) else {}, start, s, written) && WholeOr0(env, o)
    ensures Exactly(SymbolicOr0(env, o), ReadOr0(s, o), start)
  {
    if o.Some? {
      OperandExact(env, o.value, start, s, written);
    }
  }

  lemma OffsetMeans(a: Symbolic, x: word, offset: word, start: State)
    requires Exactly(a, x, start) && FillOffset(a, offset).Some?
    ensures Meaning(FillOffset(a, offset).value, start) == Add(x, offset)
  {
    ZeroTerms(x);
    NeutralZero(x);
  }

  lemma ScaledMeans(a: Symbolic, x: word, b: Symbolic, y: word, scale: nat, disp: word, start: State)
    requires Exactly(a, x, start) && Exactly(b, y, start) && FillScaled(a, b, scale, disp).Some?
    ensures Meaning(FillScaled(a, b, scale, disp).value, start) == Add(Add(x, Mul(y, scale)), disp)
  {
    if b.Register? {
      SumMeans(AsBase(a), x, b.r, y, scale, disp, start);
    }
  }

  lemma SumMeans(base: Option<int>, x: word, index: int, y: word, scale: nat, disp: word, start: State)
    requires x == Term(base, start) && y == Get(start.arch, index)
    ensures Meaning(Sum(None, base, Some(index), scale, disp), start) == Add(Add(x, Mul(y, scale)), disp)
  {
    ZeroTerms(x);
  }

  lemma SegmentMeans(g: Symbolic, z: word, a: Symbolic, x: word, b: Symbolic, y: word, scale: nat, disp: word, start: State)
    requires Exactly(g, z, start) && Exactly(a, x, start) && Exactly(b, y, start)
    requires FillSegment(g, a, b, scale, disp).Some?
    ensures Meaning(FillSegment(g, a, b, scale, disp).value, start) == Add(Add(Add(z, x), Mul(y, scale)), disp)
  {
  }

  /** Whenever an address is reported complete, it means what the interpreter computes, in every state the
      environment describes. */
  lemma AddressMeans(env: Env, addr: Address, pc: word, start: State, s: State, written: set<int>)
    requires Consistent(env, ArchOfAddress(addr), start, s, written) && AddressFine(env, addr)
    requires FillAddress(env, addr, pc).Some?
    ensures Meaning(FillAddress(env, addr, pc).value, start) == Effective(s, addr, pc)
  {
    match addr
    case Absolute(_) =>
    case PcRelative(_, _) =>
    case Direct(o) =>
      OperandExact(env, o, start, s, written);
      OffsetMeans(SymbolicOf(env, o), ReadOperand(s, o), 0, start);
      NeutralZero(ReadOperand(s, o));
    case BaseOffset(o, offset) =>
      OperandExact(env, o, start, s, written);
      OffsetMeans(SymbolicOf(env, o), ReadOperand(s, o), offset, start);
    case BaseIndexScale(b, i, scale, disp) =>
      OptionExact(env, b, start, s, written);
      OperandExact(env, i, start, s, written);
      ScaledMeans(SymbolicOr0(env, b), ReadOr0(s, b), SymbolicOf(env, i), ReadOperand(s, i), scale, disp, start);
    case SegmentRel(g, b, i, scale, disp) =>
      OperandExact(env, g, start, s, written);
      OptionExact(env, b, start, s, written);
      OptionExact(env, i, start, s, written);
      SegmentMeans(SymbolicOf(env, g), ReadOperand(s, g), SymbolicOr0(env, b), ReadOr0(s, b),
                   SymbolicOr0(env, i), ReadOr0(s, i), scale, disp, start);
  }

  /** The same along every run: the address of operation i, from the registers at the start. */
  lemma AddressesMean(ops: seq<Op>, i: nat, addr: Address, world: World, start: State)
    requires WellRead(Inferrer(world.pc), Sure(world.pc), ops) && i < |ops| && ArchOfAddress(addr) !! WrittenAt(ops, i)
    requires AddressFine(EnvAt(Inferrer(world.pc), ops, i), addr)
    requires FillAddress(EnvAt(Inferrer(world.pc), ops, i), addr, world.pc).Some?
    ensures Meaning(FillAddress(EnvAt(Inferrer(world.pc), ops, i), addr, world.pc).value, start)
         == Effective(StateAt(Executor(world), ops, i, start), addr, world.pc)
  {
    RunKnows(ops, i, world, start);
    AddressMeans(EnvAt(Inferrer(world.pc), ops, i), addr, world.pc, start, StateAt(Executor(world), ops, i, start), WrittenAt(ops, i));
  }
}
