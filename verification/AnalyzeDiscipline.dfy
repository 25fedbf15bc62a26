/**
 A discipline on operation lists that can be checked on their text alone, and under which every report of
 the analyzer is true: a virtual register is read no wider than it was last written, or through an
 extension from the width it was written at; and no architectural register is read after it was written.
 */
module AnalyzeDiscipline {
  import opened AnalyzeBits
  import opened Analyze
  import opened AnalyzeSound
  import opened AnalyzeRun
  import opened AnalyzeAddress
  import opened AnalyzeExact
  import opened Analyzer

  // The widths at which the first n operations last wrote each virtual register.
  function WidthsAt(ops: seq<Op>, n: nat): map<int, Width>
    requires n <= |ops|
  {
    if n == 0 then map[]
    else
      var op := ops[n - 1];
      if op.Destination().InVirtual? then WidthsAt(ops, n - 1)[op.Destination().id := op.Width()]
      else WidthsAt(ops, n - 1)
  }

  predicate Enough(widths: map<int, Width>, o: Operand, w: Width) {
    o.Virtual? && o.id in widths ==> Covers(widths[o.id], w)
  }

  // An operand extended from width k: written at k, or an immediate that fits it.
  predicate ExtendedFrom(widths: map<int, Width>, o: Operand, k: Width) {
    match o
    case Imm(v) => Cut(v, k) == v
    case Arch(_) => true
    case Virtual(id) => id in widths ==> widths[id] == k
  }

  predicate EnoughFor(widths: map<int, Width>, addr: Address) {
    forall o :: o in AddressOperands(addr) ==> Enough(widths, o, W64)
  }

  predicate Disciplined(widths: map<int, Width>, op: Op) {
    match op
    case Mov(_, src, w) => !Odd(src) && Enough(widths, src.o, w)
    case Store(addr, src, w) => !Odd(src) && Enough(widths, src.o, w) && EnoughFor(widths, addr)
    case ZeroExtend(_, o, k, w) => ExtendedFrom(widths, o, k)
    case SignExtend(_, o, k, w) => Enough(widths, o, w) || ExtendedFrom(widths, o, k)
    case Truncate(_, o, _, w) => Enough(widths, o, w)
    case Binary(_, _, o, src, w) => !Odd(src) && Enough(widths, o, w) && Enough(widths, src.o, w)
    case Lea(_, addr) => EnoughFor(widths, addr)
    case Load(_, addr, _) => EnoughFor(widths, addr)
    case _ => true
  }

  // ---- What the environments of a run look like --------------------------------------------

  lemma {:induction false} EnvWidths(pc: word, ops: seq<Op>, n: nat)
    requires n <= |ops|
    ensures EnvAt(Inferrer(pc), ops, n).widths == WidthsAt(ops, n)
  {
    if n > 0 {
      EnvWidths(pc, ops, n - 1);
    }
  }

  lemma LearnedWellFormed(env: Env, op: Op, a: Symbolic)
    requires WellFormed(env) && (a.Constant? ==> Cut(a.v, op.Width()) == a.v)
    ensures WellFormed(Learned(env, op, a))
  {
  }

  lemma {:induction false} EnvWellFormed(infer: (Env, Op) -> Symbolic, ops: seq<Op>, n: nat)
    requires n <= |ops|
    requires forall env, op :: infer(env, op).Constant? ==> Cut(infer(env, op).v, op.Width()) == infer(env, op).v
    ensures WellFormed(EnvAt(infer, ops, n))
  {
    if n > 0 {
      EnvWellFormed(infer, ops, n - 1);
      var env := EnvAt(infer, ops, n - 1);
      LearnedWellFormed(env, ops[n - 1], infer(env, ops[n - 1]));
    }
  }

  lemma InferredFits(pc: word)
    ensures forall env, op :: Inferrer(pc)(env, op).Constant? ==> Cut(Inferrer(pc)(env, op).v, op.Width()) == Inferrer(pc)(env, op).v
  {
    forall env, op
      ensures Inferrer(pc)(env, op).Constant? ==> Cut(Inferrer(pc)(env, op).v, op.Width()) == Inferrer(pc)(env, op).v
    {
      CutSymbolicIsCut(InferRaw(env, op, pc), op.Width());
    }
  }

  // ---- Discipline makes inferences right ---------------------------------------------------

  lemma EnoughIsFar(env: Env, o: Operand, w: Width)
    requires WellFormed(env) && Enough(env.widths, o, w)
    ensures Far(SymbolicOf(env, o), Known(env, o), w)
  {
    CoversAll(w);
  }

  lemma ExtendedIsFine(env: Env, o: Operand, k: Width, w: Width)
    requires WellFormed(env) && ExtendedFrom(env.widths, o, k)
    ensures ZeroFine(SymbolicOf(env, o), k, w) && (k == w ==> Far(SymbolicOf(env, o), Known(env, o), w))
  {
    CoversAll(w);
    CoversSelf(w);
  }

  lemma BinaryDisciplined(env: Env, bop: BinaryOp, o: Operand, src: Src, w: Width)
    requires WellFormed(env) && !Odd(src) && Enough(env.widths, o, w) && Enough(env.widths, src.o, w)
    ensures BinaryFine(env, bop, o, src, w)
  {
    EnoughIsFar(env, o, w);
    EnoughIsFar(env, src.o, w);
  }

  lemma DisciplinedIsFine(env: Env, op: Op)
    requires WellFormed(env) && Disciplined(env.widths, op)
    ensures Fine(env, op)
  {
    match op
    case Mov(_, src, w) => EnoughIsFar(env, src.o, w);
    case Store(_, src, w) => EnoughIsFar(env, src.o, w);
    case ZeroExtend(_, o, k, w) => ExtendedIsFine(env, o, k, w);
    case SignExtend(_, o, k, w) =>
      if Enough(env.widths, o, w) {
        EnoughIsFar(env, o, w);
      } else {
        ExtendedIsFine(env, o, k, w);
      }
    case Truncate(_, o, _, w) => EnoughIsFar(env, o, w);
    case Binary(bop, _, o, src, w) => BinaryDisciplined(env, bop, o, src, w);
    case Lea(_, addr) =>
      if addr.Direct? || addr.BaseOffset? {
        EnoughIsFar(env, addr.o, W64);
      }
    case _ =>
  }

  lemma AddressDisciplined(env: Env, addr: Address)
    requires WellFormed(env) && EnoughFor(env.widths, addr)
    ensures AddressFine(env, addr)
  {
    forall o | o in AddressOperands(addr)
      ensures Whole(env, o)
    {
      EnoughIsFar(env, o, W64);
    }
    match addr
    case Absolute(_) =>
    case PcRelative(_, _) =>
    case Direct(o) =>
      assert o in AddressOperands(addr);
    case BaseOffset(o, _) =>
      assert o in AddressOperands(addr);
    case BaseIndexScale(b, i, _, _) =>
      assert i in AddressOperands(addr);
    case SegmentRel(g, b, i, _, _) =>
      assert g in AddressOperands(addr);
  }

  // ---- Whole lists -------------------------------------------------------------------------

  ghost predicate WellWritten(ops: seq<Op>) {
    forall i :: 0 <= i < |ops| ==> Reads(ops[i]) !! WrittenAt(ops, i) && Disciplined(WidthsAt(ops, i), ops[i])
  }

  /** The discipline, which mentions no value, makes every inference along the list right. */
  lemma DisciplineSuffices(ops: seq<Op>, pc: word)
    requires WellWritten(ops)
    ensures WellRead(Inferrer(pc), Sure(pc), ops)
  {
    InferredFits(pc);
    forall i | 0 <= i < |ops|
      ensures Sure(pc)(EnvAt(Inferrer(pc), ops, i), ops[i], WrittenAt(ops, i))
    {
      ReadsNone(EnvAt(Inferrer(pc), ops, i), ops[i], pc, WrittenAt(ops, i));
      EnvWidths(pc, ops, i);
      EnvWellFormed(Inferrer(pc), ops, i);
      DisciplinedIsFine(EnvAt(Inferrer(pc), ops, i), ops[i]);
    }
  }

  /** So every register write reported for a disciplined list holds in every run from every start. */
  lemma DisciplinedReportsHold(ops: seq<Op>, pc: word, write: RegisterWrite) returns (i: nat)
    requires WellWritten(ops) && Reported(ops, |ops|, pc, RegisterWrites(write))
    ensures i < |ops| && ops[i].Destination() == InArch(write.reg) && HoldsAfter(ops, i, pc, write)
  {
    DisciplineSuffices(ops, pc);
    i := ReportsHold(ops, pc, write);
  }

  lemma AddressReady(ops: seq<Op>, i: nat, addr: Address, pc: word)
    requires i <= |ops| && EnoughFor(WidthsAt(ops, i), addr)
    ensures AddressFine(EnvAt(Inferrer(pc), ops, i), addr)
  {
    InferredFits(pc);
    EnvWidths(pc, ops, i);
    EnvWellFormed(Inferrer(pc), ops, i);
    AddressDisciplined(EnvAt(Inferrer(pc), ops, i), addr);
  }

  /** And every complete address reported for it is the one the interpreter computes. */
  lemma DisciplinedAddress(ops: seq<Op>, i: nat, addr: Address, world: World, start: State)
    requires WellWritten(ops) && i < |ops| && (ops[i].Load? || ops[i].Store?) && addr == ops[i].addr
    requires FillAddress(EnvAt(Inferrer(world.pc), ops, i), addr, world.pc).Some?
    ensures Meaning(FillAddress(EnvAt(Inferrer(world.pc), ops, i), addr, world.pc).value, start)
         == Effective(StateAt(Executor(world), ops, i, start), addr, world.pc)
  {
    DisciplineSuffices(ops, world.pc);
    AddressReady(ops, i, addr, world.pc);
    AccessReads(ops[i], addr);
    AddressesMean(ops, i, addr, world, start);
  }

  lemma AccessReads(op: Op, addr: Address)
    requires (op.Load? || op.Store?) && addr == op.addr
    ensures ArchOfAddress(addr) <= Reads(op)
  {
  }
}
