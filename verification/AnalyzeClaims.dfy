/** What the analyzer does claim: it stays silent no more often than its tables make it. */
module AnalyzeClaims {
  import opened AnalyzeBits
  import opened Analyze
  import opened AnalyzeReads
  import opened Common

  // A source taken as it is.
  predicate Direct(s: Src) { s.Plain? || (s.Shifted? && s.amount == 0) }

  // An operation whose result the analyzer can work out from its operands.
  predicate Computable(op: Op) {
    match op
    case Mov(_, s, _) => Direct(s)
    case Store(_, s, _) => Direct(s)
    case Binary(_, _, _, s, _) => Direct(s)
    case Lea(_, addr) => !addr.BaseIndexScale? && !addr.SegmentRel?
    case Load(_, _, _) => false
    case Unmodelled(_, _) => false
    case _ => true
  }

  /** An operation on constants has a constant for its result. */
  lemma ConstantsFold(env: Env, op: Op, pc: word)
    requires Computable(op) && forall o :: Uses(op, o) ==> SymbolicOf(env, o).Constant?
    ensures Infer(env, op, pc).Constant?
  {
    if op.Mov? || op.Store? {
      assert Uses(op, op.from.o);
    } else if op.Binary? {
      assert Uses(op, op.o) && Uses(op, op.from.o);
    } else if op.Lea? {
      assert op.addr.Direct? || op.addr.BaseOffset? ==> Uses(op, op.addr.o);
    } else {
      assert Uses(op, op.o);
    }
  }

  /** A register copied is still known as that register. */
  lemma CopiesFollowed(env: Env, dst: Place, o: Operand, r: int, w: Width, pc: word)
    requires SymbolicOf(env, o) == Register(r)
    ensures Infer(env, Mov(dst, Plain(o), w), pc) == Register(r)
    ensures Infer(env, ZeroExtend(dst, o, w, w), pc) == Infer(env, SignExtend(dst, o, w, w), pc) == Register(r)
    ensures Infer(env, Lea(dst, Address.Direct(o)), pc) == Infer(env, Lea(dst, BaseOffset(o, 0)), pc) == Register(r)
  {
  }

  /** So is one combined with what leaves it alone; with itself it gives zero. */
  lemma NeutralsFollowed(env: Env, bop: BinaryOp, dst: Place, o: Operand, r: int, w: Width, pc: word)
    requires SymbolicOf(env, o) == Register(r)
    ensures bop != AndOp ==> Infer(env, Binary(bop, dst, o, Plain(Imm(0)), w), pc) == Register(r)
    ensures Infer(env, Binary(AndOp, dst, o, Plain(Imm(ONES)), w), pc) == Register(r)
    ensures Infer(env, Binary(XorOp, dst, o, Plain(o), w), pc) == Constant(0)
  {
    CutZero(w);
    NeutralTable(bop, Fn(bop), r, w);
    NeutralTable(AndOp, Fn(AndOp), r, w);
    NeutralTable(XorOp, Fn(XorOp), r, w);
  }

  lemma NeutralTable(bop: BinaryOp, f: (word, word) -> word, r: int, w: Width)
    ensures InferBinary(bop, f, Register(r), if bop == AndOp then Constant(ONES) else Constant(0), w) == Register(r)
    ensures bop == XorOp ==> InferBinary(bop, f, Register(r), Register(r), w) == Constant(0)
  {
  }

  lemma CutZero(w: Width)
    ensures Cut(0, w) == 0
  {
  }

  // A base or index that is a register, or left out.
  predicate RegisterOr0(env: Env, o: Option<Operand>) { o.Some? ==> SymbolicOf(env, o.value).Register? }

  /** An address over registers and constants, of the forms the machines use, is reported completely. */
  lemma AddressesFilled(env: Env, addr: Address, pc: word)
    requires match addr
             case Absolute(_) => true
             case PcRelative(_, _) => true
             case Direct(o) => SymbolicOf(env, o) != Unknown
             case BaseOffset(o, _) => SymbolicOf(env, o) != Unknown
             case BaseIndexScale(b, i, _, _) => RegisterOr0(env, b) && SymbolicOf(env, i).Register?
             case SegmentRel(g, b, i, _, _) => SymbolicOf(env, g).Register? && RegisterOr0(env, b) && RegisterOr0(env, i)
    ensures FillAddress(env, addr, pc).Some?
  {
  }

  lemma OneMore(a: word)
    ensures Add(a, 1) != a && Add(ONES, 1) == 0
  {
  }

  lemma DeMorgan(a: word, b: word)
    ensures Not(And(a, b)) == Or(Not(a), Not(b))
  {
  }

  lemma Opposites(a: word)
    ensures Not(Not(a)) == a && And(a, Not(a)) == 0 && Or(a, a) == a && Xor(a, a) == 0 && Xor(a, Not(a)) == ONES
  {
  }

  /** The operators on 64-bit words are what their names say. */
  lemma OperatorLaws(a: word, b: word)
    ensures Fn(SubOp)(3, 5) == Not(1) && Fn(AddOp)(3, 5) == 8 && Fn(AddOp)(a, 1) != a && Fn(AddOp)(ONES, 1) == 0
    ensures Not(Fn(AndOp)(a, b)) == Fn(OrOp)(Not(a), Not(b)) && Fn(AndOp)(a, Not(a)) == 0 && Fn(OrOp)(a, a) == a
    ensures Fn(XorOp)(a, a) == 0 && Fn(XorOp)(a, Not(a)) == ONES && Not(Not(a)) == a
  {
    OneMore(a);
    DeMorgan(a, b);
    Opposites(a);
  }

  /** What is inferred for a virtual register is remembered with its width until it is written again. */
  lemma Remembered(env: Env, op: Op, a: Symbolic, id: int, o: Operand)
    requires op.Destination() == InVirtual(id)
    ensures SymbolicOf(Learned(env, op, a), Virtual(id)) == a
    ensures id in Learned(env, op, a).widths && Learned(env, op, a).widths[id] == op.Width()
    ensures o != Virtual(id) ==> SymbolicOf(Learned(env, op, a), o) == SymbolicOf(env, o)
  {
  }

  lemma KeptBits(prev: word, v: word, m: word)
    requires And(v, m) == v
    ensures And(Or(And(prev, Not(m)), v), Not(m)) == And(prev, Not(m))
  {
  }

  /** A narrow write to an x86 register keeps the bits above its width; any other replaces the register. */
  lemma NarrowWrites(prev: word, v: word, dst: Place, src: Src, x86: bool)
    ensures And(v, 0xFF) == v ==> And(Merged(prev, v, Mov(dst, src, W8), true), Not(0xFF)) == And(prev, Not(0xFF))
    ensures And(v, 0xFFFF) == v ==> And(Merged(prev, v, Mov(dst, src, W16), true), Not(0xFFFF)) == And(prev, Not(0xFFFF))
    ensures Merged(prev, v, Mov(dst, src, W32), x86) == Merged(prev, v, Mov(dst, src, W64), x86) == v
    ensures Merged(prev, v, Mov(dst, src, W8), false) == v
  {
    if And(v, 0xFF) == v {
      KeptBits(prev, v, 0xFF);
    }
    if And(v, 0xFFFF) == v {
      KeptBits(prev, v, 0xFFFF);
    }
  }
}
