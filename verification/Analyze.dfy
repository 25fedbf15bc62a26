/**
 The instruction-effect analyzer: what it infers about the values an instruction's operations write,
 and what the interpreter makes of the same operations.  Registers are numbered, operations are values.
 */
module Analyze {
  import opened AnalyzeBits
  import opened Common

  // ---- Operations --------------------------------------------------------------------------

  datatype Operand = Imm(v: word) | Arch(r: int) | Virtual(id: int)
  datatype Shift = Lsl | Lsr | Asr | Ror | Rrx
  datatype Src = Plain(o: Operand) | Shifted(o: Operand, shift: Shift, amount: nat) | Extended(o: Operand)
  datatype Place = InVirtual(id: int) | InArch(r: int) | InMemory
  datatype BinaryOp = AddOp | SubOp | AndOp | OrOp | XorOp

  datatype Address =
    | Absolute(a: word)
    | PcRelative(base: Option<word>, offset: word)
    | Direct(o: Operand)
    | BaseOffset(o: Operand, offset: word)
    | BaseIndexScale(bases: Option<Operand>, index: Operand, scale: nat, disp: word)
    | SegmentRel(segment: Operand, bases: Option<Operand>, indices: Option<Operand>, scale: nat, disp: word)

  datatype Op =
    | Mov(dst: Place, from: Src, w: Width)
    | ZeroExtend(dst: Place, o: Operand, fromWidth: Width, w: Width)
    | SignExtend(dst: Place, o: Operand, fromWidth: Width, w: Width)
    | Truncate(dst: Place, o: Operand, fromWidth: Width, w: Width)
    | Binary(bop: BinaryOp, dst: Place, o: Operand, from: Src, w: Width)
    | Complement(dst: Place, o: Operand, w: Width)
    | Negate(dst: Place, o: Operand, w: Width)
    | Lea(dst: Place, addr: Address)
    | Load(dst: Place, addr: Address, w: Width)
    | Store(addr: Address, from: Src, w: Width)
    | Unmodelled(dst: Place, w: Width)
  {
    function Width(): Width { if Lea? then W64 else w }
    function Destination(): Place { if Store? then InMemory else dst }
  }

  // ---- The analyzer ------------------------------------------------------------------------

  datatype Symbolic = Unknown | Constant(v: word) | Register(r: int)
  datatype Env = Env(values: map<int, Symbolic>, widths: map<int, Width>)

  function SymbolicOf(env: Env, o: Operand): Symbolic {
    match o
    case Imm(v) => Constant(v)
    case Arch(r) => Register(r)
    case Virtual(id) => if id in env.values then env.values[id] else Unknown
  }

  // A shift by nothing is the register itself; any other shift or extension is not.
  function SymbolicSrc(env: Env, s: Src): Symbolic {
    match s
    case Plain(o) => SymbolicOf(env, o)
    case Shifted(o, _, amount) => if amount == 0 then SymbolicOf(env, o) else Unknown
    case Extended(_) => Unknown
  }

  // What an operator computes on 64 bits.
  function Fn(bop: BinaryOp): (word, word) -> word {
    match bop
    case AddOp => Add
    case SubOp => Sub
    case AndOp => And
    case OrOp => Or
    case XorOp => Xor
  }

  // Folding by f, and the neutral operands of each operator.
  function InferBinary(bop: BinaryOp, f: (word, word) -> word, a: Symbolic, b: Symbolic, w: Width): Symbolic {
    if bop == XorOp && a == b && a != Unknown then Constant(0)
    else if a.Constant? && b.Constant? then Constant(Cut(f(a.v, b.v), w))
    else if a.Register? && b == Constant(0) && bop != AndOp then a
    else if a.Register? && b.Constant? && bop == AndOp && Cut(b.v, w) == Cut(ONES, w) then a
    else Unknown
  }

  // Zero extension and truncation: a register stays itself only when no width changes.
  function InferExtend(a: Symbolic, k: Width, w: Width): Symbolic {
    match a
    case Constant(v) => Constant(Cut(v, w))
    case Register(_) => if k == w then a else Unknown
    case Unknown => Unknown
  }

  function InferSign(a: Symbolic, k: Width, w: Width): Symbolic {
    match a
    case Constant(v) => Constant(Cut(SignFill(v, k), w))
    case Register(_) => if k == w then a else Unknown
    case Unknown => Unknown
  }

  function InferNot(a: Symbolic, w: Width): Symbolic {
    if a.Constant? then Constant(Cut(Not(a.v), w)) else Unknown
  }

  function InferNeg(a: Symbolic, w: Width): Symbolic {
    if a.Constant? then Constant(Cut(Sub(0, a.v), w)) else Unknown
  }

  function InferOffset(a: Symbolic, offset: word): Symbolic {
    match a
    case Register(_) => if offset == 0 then a else Unknown
    case Constant(v) => Constant(Add(v, offset))
    case Unknown => Unknown
  }

  function SymbolicAddress(env: Env, addr: Address, pc: word): Symbolic {
    match addr
    case Absolute(a) => Constant(a)
    case PcRelative(base, offset) => Constant(Add(if base.Some? then base.value else pc, offset))
    case Direct(o) => SymbolicOf(env, o)
    case BaseOffset(o, offset) => InferOffset(SymbolicOf(env, o), offset)
    case _ => Unknown
  }

  // The value of an operation's destination, before it is cut to the operation's width.
  function InferRaw(env: Env, op: Op, pc: word): Symbolic {
    match op
    case Mov(_, s, _) => SymbolicSrc(env, s)
    case ZeroExtend(_, o, k, w) => InferExtend(SymbolicOf(env, o), k, w)
    case Truncate(_, o, k, w) => InferExtend(SymbolicOf(env, o), k, w)
    case SignExtend(_, o, k, w) => InferSign(SymbolicOf(env, o), k, w)
    case Binary(bop, _, o, s, w) => InferBinary(bop, Fn(bop), SymbolicOf(env, o), SymbolicSrc(env, s), w)
    case Complement(_, o, w) => InferNot(SymbolicOf(env, o), w)
    case Negate(_, o, w) => InferNeg(SymbolicOf(env, o), w)
    case Lea(_, addr) => SymbolicAddress(env, addr, pc)
    case Load(_, _, _) => Unknown
    case Store(_, s, _) => SymbolicSrc(env, s)
    case Unmodelled(_, _) => Unknown
  }

  function CutSymbolic(a: Symbolic, w: Width): Symbolic {
    if a.Constant? then Constant(Cut(a.v, w)) else a
  }

  function Infer(env: Env, op: Op, pc: word): Symbolic { CutSymbolic(InferRaw(env, op, pc), op.Width()) }

  // A virtual register is remembered with its width.
  function Learned(env: Env, op: Op, a: Symbolic): Env {
    match op.Destination()
    case InVirtual(id) => Env(env.values[id := a], env.widths[id := op.Width()])
    case _ => env
  }

  // ---- Addresses ---------------------------------------------------------------------------

  // What is reported of a memory address: a number, or a sum over registers as they were at the start.
  datatype Place64 =
    | At(address: word)
    | Sum(segment: Option<int>, base: Option<int>, index: Option<int>, scale: nat, disp: word)

  // A base or index that is left out counts as zero.
  function SymbolicOr0(env: Env, o: Option<Operand>): Symbolic {
    match o case None => Constant(0) case Some(x) => SymbolicOf(env, x)
  }

  function AsBase(a: Symbolic): Option<int> { if a.Register? then Some(a.r) else None }

  // The address, when it is known completely.
  function FillAddress(env: Env, addr: Address, pc: word): Option<Place64> {
    match addr
    case Absolute(a) => Some(At(a))
    case PcRelative(base, offset) => Some(At(Add(if base.Some? then base.value else pc, offset)))
    case Direct(o) => FillOffset(SymbolicOf(env, o), 0)
    case BaseOffset(o, offset) => FillOffset(SymbolicOf(env, o), offset)
    case BaseIndexScale(base, index, scale, disp) =>
      FillScaled(SymbolicOr0(env, base), SymbolicOf(env, index), scale, disp)
    case SegmentRel(segment, base, index, scale, disp) =>
      FillSegment(SymbolicOf(env, segment), SymbolicOr0(env, base), SymbolicOr0(env, index), scale, disp)
  }

  function FillOffset(a: Symbolic, offset: word): Option<Place64> {
    match a
    case Register(r) => Some(Sum(None, Some(r), None, 0, offset))
    case Constant(v) => Some(At(Add(v, offset)))
    case Unknown => None
  }

  function FillScaled(a: Symbolic, b: Symbolic, scale: nat, disp: word): Option<Place64> {
    if a.Register? && b.Register? then Some(Sum(None, Some(a.r), Some(b.r), scale, disp))
    else if a == Constant(0) && b.Register? then Some(Sum(None, None, Some(b.r), scale, disp))
    else if a.Constant? && b.Constant? then Some(At(Add(Add(a.v, Mul(b.v, scale)), disp)))
    else None
  }

  function FillSegment(g: Symbolic, a: Symbolic, b: Symbolic, scale: nat, disp: word): Option<Place64> {
    if g.Register? && (a.Register? || a == Constant(0)) && (b.Register? || b == Constant(0))
    then Some(Sum(Some(g.r), AsBase(a), AsBase(b), scale, disp)) else None
  }

  // ---- The interpreter ---------------------------------------------------------------------

  datatype State = State(arch: map<int, word>, virt: map<int, word>)

  function Get(m: map<int, word>, k: int): word { if k in m then m[k] else 0 }

  function ReadOperand(s: State, o: Operand): word {
    match o
    case Imm(v) => v
    case Arch(r) => Get(s.arch, r)
    case Virtual(id) => Get(s.virt, id)
  }

  // A rotation through carry moves one place whatever its amount.  Other shifts by more than nothing, and
  // extensions, stand for whatever `odd` makes of the register.
  function ReadSrc(s: State, src: Src, odd: (Src, word) -> word): word {
    match src
    case Plain(o) => ReadOperand(s, o)
    case Shifted(o, shift, amount) =>
      if shift == Rrx then Half(ReadOperand(s, o))
      else if amount == 0 then ReadOperand(s, o)
      else odd(src, ReadOperand(s, o))
    case Extended(o) => odd(src, ReadOperand(s, o))
  }

  function Effective(s: State, addr: Address, pc: word): word {
    match addr
    case Absolute(a) => a
    case PcRelative(base, offset) => Add(if base.Some? then base.value else pc, offset)
    case Direct(o) => ReadOperand(s, o)
    case BaseOffset(o, offset) => Add(ReadOperand(s, o), offset)
    case BaseIndexScale(base, index, scale, disp) =>
      Add(Add(if base.Some? then ReadOperand(s, base.value) else 0, Mul(ReadOperand(s, index), scale)), disp)
    case SegmentRel(segment, base, index, scale, disp) =>
      Add(Add(Add(ReadOperand(s, segment), if base.Some? then ReadOperand(s, base.value) else 0),
              Mul(if index.Some? then ReadOperand(s, index.value) else 0, scale)), disp)
  }

  // What the world supplies: the address of the instruction and the results that are not modelled.
  datatype World = World(pc: word, odd: (Src, word) -> word, other: Op -> word, x86: bool)

  // The value an operation writes, at its width.
  function Result(s: State, op: Op, env: World): word {
    match op
    case Mov(_, src, w) => Cut(ReadSrc(s, src, env.odd), w)
    case ZeroExtend(_, o, k, w) => Cut(Cut(ReadOperand(s, o), k), w)
    case SignExtend(_, o, k, w) => Cut(SignExtended(ReadOperand(s, o), k), w)
    case Truncate(_, o, _, w) => Cut(ReadOperand(s, o), w)
    case Binary(bop, _, o, src, w) => Cut(Fn(bop)(ReadOperand(s, o), ReadSrc(s, src, env.odd)), w)
    case Complement(_, o, w) => Cut(Not(ReadOperand(s, o)), w)
    case Negate(_, o, w) => Cut(Sub(0, ReadOperand(s, o)), w)
    case Lea(_, addr) => Effective(s, addr, env.pc)
    case Load(_, _, w) => Cut(env.other(op), w)
    case Store(_, src, w) => Cut(ReadSrc(s, src, env.odd), w)
    case Unmodelled(_, w) => Cut(env.other(op), w)
  }

  // Narrow writes to an x86 register keep the bits above; truncation and LEA write the whole register.
  function Merged(prev: word, v: word, op: Op, x86: bool): word {
    if x86 && !op.Truncate? && !op.Lea? && (op.w == W8 || op.w == W16)
    then Or(And(prev, Not(Mask(op.w))), v) else v
  }

  function Written(s: State, op: Op, v: word, x86: bool): State {
    match op.Destination()
    case InVirtual(id) => s.(virt := s.virt[id := v])
    case InArch(r) => s.(arch := s.arch[r := Merged(Get(s.arch, r), v, op, x86)])
    case InMemory => s
  }

  function Executed(s: State, op: Op, env: World): State { Written(s, op, Result(s, op, env), env.x86) }
}
