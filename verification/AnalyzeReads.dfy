/**
 The effects the analyzer reports are all there are: what an operation writes and the addresses it uses depend
 on the registers reported as read and on nothing else, along whole lists, and nothing is reported as read that
 the operation does not name.
 */
module AnalyzeReads {
  import opened AnalyzeBits
  import opened Analyze
  import opened AnalyzeAddress
  import opened AnalyzeRun
  import opened Analyzer
  import opened Common

  // ---- The operands read -------------------------------------------------------------------

  predicate UsesIn(addr: Address, o: Operand) {
    match addr
    case Absolute(_) => false
    case PcRelative(_, _) => false
    case Direct(x) => o == x
    case BaseOffset(x, _) => o == x
    case BaseIndexScale(b, i, _, _) => b == Some(o) || o == i
    case SegmentRel(g, b, i, _, _) => o == g || b == Some(o) || i == Some(o)
  }

  // The operation names o as a source.
  predicate Uses(op: Op, o: Operand) {
    match op
    case Mov(_, s, _) => o == s.o
    case Binary(_, _, x, s, _) => o == x || o == s.o
    case Lea(_, addr) => UsesIn(addr, o)
    case Load(_, addr, _) => UsesIn(addr, o)
    case Store(addr, s, _) => UsesIn(addr, o) || o == s.o
    case Unmodelled(_, _) => false
    case _ => o == op.o
  }

  lemma AddressNamed(addr: Address, o: Operand)
    ensures o in AddressOperands(addr) <==> UsesIn(addr, o)
  {
  }

  lemma {:induction false} WithoutLast(os: seq<Operand>, o: Operand, x: Operand)
    ensures x in Without(os + [o], o) <==> x in os
  {
    if os != [] {
      assert (os + [o])[1..] == os[1..] + [o];
      WithoutLast(os[1..], o, x);
    }
  }

  /** Taking one occurrence of the destination away leaves exactly the operands read, also when one of them is the
      destination itself. */
  lemma RemainingNamed(op: Op, o: Operand)
    ensures o in Remaining(op) <==> Uses(op, o)
  {
    if op.Lea? || op.Load? {
      AddressNamed(op.addr, o);
      if Target(op) != [] {
        WithoutLast(AddressOperands(op.addr), Target(op)[0], o);
      } else {
        assert Occurrences(op) == AddressOperands(op.addr);
      }
    } else if op.Store? {
      AddressNamed(op.addr, o);
    } else if Target(op) != [] {
      assert Occurrences(op)[0] == Target(op)[0];
    }
  }

  lemma {:induction false} ReadReported(env: Env, os: seq<Operand>, r: int)
    ensures RegisterReads(r) in ReadEffects(env, os) <==> exists o :: o in os && SymbolicOf(env, o) == Register(r)
  {
    if os != [] {
      var n := |os| - 1;
      assert os == os[..n] + [os[n]];
      ReadReported(env, os[..n], r);
    }
  }

  // ---- Complete ----------------------------------------------------------------------------

  // The registers agree wherever they are reported as read.
  ghost predicate AgreeRead(es: seq<Effect>, s: State, t: State) {
    s.virt == t.virt && forall r :: RegisterReads(r) in es ==> Get(s.arch, r) == Get(t.arch, r)
  }

  lemma UsedReported(env: Env, op: Op, pc: word, r: int)
    requires Uses(op, Arch(r))
    ensures RegisterReads(r) in EffectsOf(env, op, pc)
  {
    RemainingNamed(op, Arch(r));
    ReadReported(env, Remaining(op), r);
    assert Arch(r) in Remaining(op) && SymbolicOf(env, Arch(r)) == Register(r);
  }

  lemma SameOperand(env: Env, op: Op, pc: word, s: State, t: State, o: Operand)
    requires AgreeRead(EffectsOf(env, op, pc), s, t) && Uses(op, o)
    ensures ReadOperand(s, o) == ReadOperand(t, o)
  {
    if o.Arch? {
      UsedReported(env, op, pc, o.r);
    }
  }

  lemma SameAddress(s: State, t: State, addr: Address, pc: word)
    requires forall o :: UsesIn(addr, o) ==> ReadOperand(s, o) == ReadOperand(t, o)
    ensures Effective(s, addr, pc) == Effective(t, addr, pc)
  {
    match addr
    case Absolute(_) =>
    case PcRelative(_, _) =>
    case Direct(o) => assert UsesIn(addr, o);
    case BaseOffset(o, _) => assert UsesIn(addr, o);
    case BaseIndexScale(b, i, _, _) =>
      assert UsesIn(addr, i) && (b.Some? ==> UsesIn(addr, b.value));
    case SegmentRel(g, b, i, _, _) =>
      assert UsesIn(addr, g) && (b.Some? ==> UsesIn(addr, b.value)) && (i.Some? ==> UsesIn(addr, i.value));
  }

  lemma SameSrc(s: State, t: State, src: Src, odd: (Src, word) -> word)
    requires ReadOperand(s, src.o) == ReadOperand(t, src.o)
    ensures ReadSrc(s, src, odd) == ReadSrc(t, src, odd)
  {
  }

  lemma SameResult(op: Op, world: World, s: State, t: State)
    requires forall o :: Uses(op, o) ==> ReadOperand(s, o) == ReadOperand(t, o)
    ensures Result(s, op, world) == Result(t, op, world)
  {
    match op
    case Mov(_, src, _) => assert Uses(op, src.o);
    case Binary(bop, _, o, src, _) =>
      assert Uses(op, o) && Uses(op, src.o);
      SameSrc(s, t, src, world.odd);
    case Store(_, src, _) => assert Uses(op, src.o);
    case Lea(_, addr) => SameAddress(s, t, addr, world.pc);
    case Load(_, _, _) =>
    case Unmodelled(_, _) =>
    case _ => assert Uses(op, op.o);
  }

  /** Two states that agree on the virtual registers and on the registers reported as read give the same result and
      the same address. */
  lemma ReadsComplete(env: Env, op: Op, world: World, s: State, t: State)
    requires AgreeRead(EffectsOf(env, op, world.pc), s, t)
    ensures SameThere(op, world, s, t)
  {
    forall o | Uses(op, o)
      ensures ReadOperand(s, o) == ReadOperand(t, o)
    {
      SameOperand(env, op, world.pc, s, t, o);
    }
    SameResult(op, world, s, t);
    if op.Load? || op.Store? || op.Lea? {
      SameAddress(s, t, op.addr, world.pc);
    }
  }

  ghost predicate SameThere(op: Op, world: World, s: State, t: State) {
    && Result(s, op, world) == Result(t, op, world)
    && (op.Load? || op.Store? || op.Lea? ==> Effective(s, op.addr, world.pc) == Effective(t, op.addr, world.pc))
  }

  // ---- Along a list ------------------------------------------------------------------------

  ghost predicate AgreeAt(listed: int -> bool, s: State, t: State) {
    s.virt == t.virt && forall r :: listed(r) ==> Get(s.arch, r) == Get(t.arch, r)
  }

  // The registers some operation of the list is reported to read.
  ghost function ReadsOf(ops: seq<Op>, pc: word): int -> bool { r => Reported(ops, |ops|, pc, RegisterReads(r)) }

  ghost predicate AgreeOn(ops: seq<Op>, pc: word, s: State, t: State) { AgreeAt(ReadsOf(ops, pc), s, t) }

  lemma AgreesThere(ops: seq<Op>, pc: word, n: nat, s: State, t: State)
    requires n < |ops| && AgreeOn(ops, pc, s, t)
    ensures AgreeRead(EffectsOf(EnvAt(Inferrer(pc), ops, n), ops[n], pc), s, t)
  {
    forall r | RegisterReads(r) in EffectsOf(EnvAt(Inferrer(pc), ops, n), ops[n], pc)
      ensures Get(s.arch, r) == Get(t.arch, r)
    {
      assert Reported(ops, |ops|, pc, RegisterReads(r));
      assert ReadsOf(ops, pc)(r);
    }
  }

  lemma WriteAgrees(listed: int -> bool, op: Op, v: word, x86: bool, s: State, t: State)
    requires AgreeAt(listed, s, t)
    ensures AgreeAt(listed, Written(s, op, v, x86), Written(t, op, v, x86))
  {
    if op.Destination().InArch? {
      var d := op.Destination().r;
      var x, y := Merged(Get(s.arch, d), v, op, x86), Merged(Get(t.arch, d), v, op, x86);
      assert Written(s, op, v, x86) == s.(arch := s.arch[d := x]) && Written(t, op, v, x86) == t.(arch := t.arch[d := y]);
      SetAgrees(listed, s, t, d, x, y);
    }
  }

  lemma SetAgrees(listed: int -> bool, s: State, t: State, d: int, x: word, y: word)
    requires AgreeAt(listed, s, t) && (listed(d) ==> x == y)
    ensures AgreeAt(listed, s.(arch := s.arch[d := x]), t.(arch := t.arch[d := y]))
  {
    forall r | listed(r)
      ensures Get(s.arch[d := x], r) == Get(t.arch[d := y], r)
    {
      assert Get(s.arch, r) == Get(t.arch, r);
    }
  }

  lemma AgreesNext(ops: seq<Op>, world: World, n: nat, s: State, t: State)
    requires n < |ops| && AgreeOn(ops, world.pc, s, t)
    ensures SameThere(ops[n], world, s, t) && AgreeOn(ops, world.pc, Executed(s, ops[n], world), Executed(t, ops[n], world))
  {
    AgreesThere(ops, world.pc, n, s, t);
    ReadsComplete(EnvAt(Inferrer(world.pc), ops, n), ops[n], world, s, t);
    WriteAgrees(ReadsOf(ops, world.pc), ops[n], Result(s, ops[n], world), world.x86, s, t);
  }

  // What one operation keeps of two states, a list of them keeps.
  lemma {:induction false} PairKept(exec: (State, Op) -> State, pair: (State, State) -> bool, ops: seq<Op>, s: State, t: State,
                                    n: nat)
    requires n <= |ops| && pair(s, t)
    requires forall k, u, v {:trigger exec(u, ops[k]), exec(v, ops[k])} ::
      0 <= k < |ops| && pair(u, v) ==> pair(exec(u, ops[k]), exec(v, ops[k]))
    ensures pair(StateAt(exec, ops, n, s), StateAt(exec, ops, n, t))
  {
    if n > 0 {
      PairKept(exec, pair, ops, s, t, n - 1);
      var u, v := StateAt(exec, ops, n - 1, s), StateAt(exec, ops, n - 1, t);
      assert pair(exec(u, ops[n - 1]), exec(v, ops[n - 1]));
    }
  }

  ghost function Agreeing(ops: seq<Op>, pc: word): (State, State) -> bool { (u, v) => AgreeOn(ops, pc, u, v) }

  lemma AllAgree(ops: seq<Op>, world: World, k: nat, u: State, v: State)
    requires k < |ops| && Agreeing(ops, world.pc)(u, v)
    ensures Agreeing(ops, world.pc)(Executor(world)(u, ops[k]), Executor(world)(v, ops[k])) && SameThere(ops[k], world, u, v)
  {
    AgreesNext(ops, world, k, u, v);
  }

  /** Two runs of a list, from starts that agree on the virtual registers and on every register the list is reported
      to read, stay in agreement: each operation writes the same value and uses the same address in both. */
  lemma RunsAgree(ops: seq<Op>, world: World, s: State, t: State, n: nat)
    requires n < |ops| && AgreeOn(ops, world.pc, s, t)
    ensures SameThere(ops[n], world, StateAt(Executor(world), ops, n, s), StateAt(Executor(world), ops, n, t))
  {
    var exec, pair := Executor(world), Agreeing(ops, world.pc);
    forall k, u, v | 0 <= k < |ops| && pair(u, v)
      ensures pair(exec(u, ops[k]), exec(v, ops[k]))
    {
      AllAgree(ops, world, k, u, v);
    }
    PairKept(exec, pair, ops, s, t, n);
    AllAgree(ops, world, n, StateAt(exec, ops, n, s), StateAt(exec, ops, n, t));
  }

  // ---- And no more -------------------------------------------------------------------------

  // The register is an operand of the operation, or what a virtual operand came from.
  ghost predicate Named(env: Env, op: Op, r: int) {
    exists o :: Uses(op, o) && SymbolicOf(env, o) == Register(r)
  }

  lemma PlaceNamed(env: Env, op: Op, addr: Address, pc: word, r: int)
    requires forall o :: UsesIn(addr, o) ==> Uses(op, o)
    requires RegisterReads(r) in PlaceReads(FillAddress(env, addr, pc))
    ensures Named(env, op, r)
  {
    match addr
    case Direct(o) => assert UsesIn(addr, o);
    case BaseOffset(o, _) => assert UsesIn(addr, o);
    case BaseIndexScale(b, i, _, _) =>
      assert UsesIn(addr, i) && (b.Some? ==> UsesIn(addr, b.value));
    case SegmentRel(g, b, i, _, _) =>
      assert UsesIn(addr, g) && (b.Some? ==> UsesIn(addr, b.value)) && (i.Some? ==> UsesIn(addr, i.value));
  }

  /** Each register reported as read is one the operation names, or the provenance of a virtual one it names. */
  lemma ReadsNamed(env: Env, op: Op, pc: word, r: int)
    ensures RegisterReads(r) in EffectsOf(env, op, pc) <==> Named(env, op, r)
  {
    ReadReported(env, Remaining(op), r);
    forall o
      ensures o in Remaining(op) <==> Uses(op, o)
    {
      RemainingNamed(op, o);
    }
    if RegisterReads(r) in AccessEffects(env, op, pc) {
      AccessNamed(env, op, pc, r);
    }
    assert RegisterReads(r) !in WriteEffects(op, Infer(env, op, pc));
  }

  lemma AccessNamed(env: Env, op: Op, pc: word, r: int)
    requires RegisterReads(r) in AccessEffects(env, op, pc)
    ensures Named(env, op, r)
  {
    PlaceNamed(env, op, op.addr, pc, r);
  }

  // ---- Accesses and writes -----------------------------------------------------------------

  /** A load or store is reported as one access of its direction and width, and nothing else is. */
  lemma AccessesExact(env: Env, op: Op, pc: word, e: Effect)
    requires e.MemoryAccess?
    ensures e in EffectsOf(env, op, pc)
        <==> (op.Load? || op.Store?)
             && e == MemoryAccess(op.Store?, op.w, FillAddress(env, op.addr, pc), if op.Store? then Infer(env, op, pc) else Unknown)
  {
    if e in ReadEffects(env, Remaining(op)) {
      ReadEffectsRead(env, Remaining(op), e);
    }
    assert e in EffectsOf(env, op, pc) <==> e in AccessEffects(env, op, pc);
    if op.Load? || op.Store? {
      OneAccess(FillAddress(env, op.addr, pc), op.Store?, op.w, if op.Store? then Infer(env, op, pc) else Unknown, e);
    }
  }

  lemma OneAccess(p: Option<Place64>, stores: bool, w: Width, a: Symbolic, e: Effect)
    requires e.MemoryAccess?
    ensures e in MemoryEffects(p, stores, w, a) <==> e == MemoryAccess(stores, w, p, a)
  {
  }

  /** A write of an architectural register is reported with its width and what is known of the value, and nothing
      else is. */
  lemma WritesExact(env: Env, op: Op, pc: word, write: RegisterWrite)
    ensures RegisterWrites(write) in EffectsOf(env, op, pc)
        <==> op.Destination() == InArch(write.reg) && write == RegisterWrite(write.reg, op.Width(), Infer(env, op, pc))
  {
    if RegisterWrites(write) in EffectsOf(env, op, pc) {
      OnlyWrite(env, op, pc, write);
    } else if op.Destination() == InArch(write.reg) {
      assert RegisterWrites(RegisterWrite(write.reg, op.Width(), Infer(env, op, pc))) in WriteEffects(op, Infer(env, op, pc));
    }
  }
}
