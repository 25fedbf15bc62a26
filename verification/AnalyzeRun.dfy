/**
 The analyzer over a whole instruction: a list of operations, the effects it reports for them, and the
 claim that every reported value and address is the one the interpreter computes from the registers as
 they were at the start.
 */
module AnalyzeRun {
  import opened AnalyzeBits
  import opened Analyze
  import opened AnalyzeSound

  // ---- One step ----------------------------------------------------------------------------

  lemma SetKnows(env: Env, op: Op, a: Symbolic, v: word, x86: bool, start: State, s: State)
    requires Knows(env, start, s) && Matches(a, op.Width(), v, start)
    ensures Knows(Learned(env, op, a), start, Written(s, op, v, x86))
  {
  }

  function WrittenBy(op: Op): set<int> { if op.Destination().InArch? then {op.Destination().r} else {} }

  lemma SetUntouched(written: set<int>, op: Op, v: word, x86: bool, start: State, s: State)
    requires Untouched(written, start, s)
    ensures Untouched(written + WrittenBy(op), start, Written(s, op, v, x86))
  {
  }

  lemma CutSymbolicIsCut(a: Symbolic, w: Width)
    ensures CutSymbolic(a, w).Constant? ==> Cut(CutSymbolic(a, w).v, w) == CutSymbolic(a, w).v
  {
    if a.Constant? {
      CutIdempotent(a.v, w);
    }
  }

  lemma FactMatches(a: Symbolic, v: word, w: Width, start: State)
    requires Fact(CutSymbolic(a, w), v, w, start)
    ensures Matches(CutSymbolic(a, w), w, v, start)
  {
    CutSymbolicIsCut(a, w);
  }

  /** One operation: what the environment learns is true of the state it leads to. */
  lemma StepKnows(env: Env, op: Op, world: World, start: State, s: State, written: set<int>)
    requires Describes(env, start, s, written) && Fine(env, op) && Unspoilt(env, op, world.pc, written)
    ensures Knows(Learned(env, op, Infer(env, op, world.pc)), start, Executed(s, op, world))
    ensures Untouched(written + WrittenBy(op), start, Executed(s, op, world))
  {
    InferSound(env, op, world, start, s, written);
    FactMatches(InferRaw(env, op, world.pc), Result(s, op, world), op.Width(), start);
    SetKnows(env, op, Infer(env, op, world.pc), Result(s, op, world), world.x86, start, s);
    SetUntouched(written, op, Result(s, op, world), world.x86, start, s);
  }

  // ---- Runs --------------------------------------------------------------------------------

  function EnvAt(infer: (Env, Op) -> Symbolic, ops: seq<Op>, n: nat): Env
    requires n <= |ops|
  {
    if n == 0 then Env(map[], map[])
    else
      var env := EnvAt(infer, ops, n - 1);
      Learned(env, ops[n - 1], infer(env, ops[n - 1]))
  }

  function StateAt(exec: (State, Op) -> State, ops: seq<Op>, n: nat, start: State): State
    requires n <= |ops|
  {
    if n == 0 then start else exec(StateAt(exec, ops, n - 1, start), ops[n - 1])
  }

  // The architectural registers written by the first n operations.
  function WrittenAt(ops: seq<Op>, n: nat): set<int>
    requires n <= |ops|
  {
    if n == 0 then {} else WrittenAt(ops, n - 1) + WrittenBy(ops[n - 1])
  }

  function Inferrer(pc: word): (Env, Op) -> Symbolic { (env, op) => Infer(env, op, pc) }

  function Executor(world: World): (State, Op) -> State { (s, op) => Executed(s, op, world) }

  // An inference is in order and rests on no register written before.
  function Sure(pc: word): (Env, Op, set<int>) -> bool {
    (env, op, written) => Fine(env, op) && Unspoilt(env, op, pc, written)
  }

  // Every inference along the list is.
  ghost predicate WellRead(infer: (Env, Op) -> Symbolic, sure: (Env, Op, set<int>) -> bool, ops: seq<Op>) {
    forall i :: 0 <= i < |ops| ==> sure(EnvAt(infer, ops, i), ops[i], WrittenAt(ops, i))
  }

  // What holds of environment, state and registers written, before and after every operation.
  ghost function Describer(start: State): (Env, State, set<int>) -> bool {
    (env, s, written) => Describes(env, start, s, written)
  }

  ghost predicate Due(inv: (Env, State, set<int>) -> bool, sure: (Env, Op, set<int>) -> bool, env: Env, op: Op, s: State,
                      written: set<int>)
  {
    inv(env, s, written) && sure(env, op, written)
  }

  ghost predicate Keeps(infer: (Env, Op) -> Symbolic, exec: (State, Op) -> State, sure: (Env, Op, set<int>) -> bool,
                        inv: (Env, State, set<int>) -> bool)
  {
    forall env, op, s, written {:trigger Due(inv, sure, env, op, s, written)} | Due(inv, sure, env, op, s, written) ::
      inv(Learned(env, op, infer(env, op)), exec(s, op), written + WrittenBy(op))
  }

  lemma KeepsNext(infer: (Env, Op) -> Symbolic, exec: (State, Op) -> State, sure: (Env, Op, set<int>) -> bool,
                  inv: (Env, State, set<int>) -> bool, ops: seq<Op>, n: nat, start: State)
    requires Keeps(infer, exec, sure, inv) && WellRead(infer, sure, ops) && n < |ops|
    requires inv(EnvAt(infer, ops, n), StateAt(exec, ops, n, start), WrittenAt(ops, n))
    ensures inv(EnvAt(infer, ops, n + 1), StateAt(exec, ops, n + 1, start), WrittenAt(ops, n + 1))
  {
    KeepsStep(infer, exec, sure, inv, EnvAt(infer, ops, n), ops[n], StateAt(exec, ops, n, start), WrittenAt(ops, n));
  }

  lemma KeepsStep(infer: (Env, Op) -> Symbolic, exec: (State, Op) -> State, sure: (Env, Op, set<int>) -> bool,
                  inv: (Env, State, set<int>) -> bool, env: Env, op: Op, s: State, written: set<int>)
    requires Keeps(infer, exec, sure, inv) && inv(env, s, written) && sure(env, op, written)
    ensures inv(Learned(env, op, infer(env, op)), exec(s, op), written + WrittenBy(op))
  {
    assert Due(inv, sure, env, op, s, written);
  }

  lemma {:induction false} RunKeeps(infer: (Env, Op) -> Symbolic, exec: (State, Op) -> State,
                                    sure: (Env, Op, set<int>) -> bool, inv: (Env, State, set<int>) -> bool,
                                    ops: seq<Op>, n: nat, start: State)
    requires Keeps(infer, exec, sure, inv) && WellRead(infer, sure, ops) && n <= |ops|
    requires inv(Env(map[], map[]), start, {})
    ensures inv(EnvAt(infer, ops, n), StateAt(exec, ops, n, start), WrittenAt(ops, n))
  {
    if n > 0 {
      RunKeeps(infer, exec, sure, inv, ops, n - 1, start);
      KeepsNext(infer, exec, sure, inv, ops, n - 1, start);
    }
  }

  lemma ModelKeeps(world: World, start: State)
    ensures Keeps(Inferrer(world.pc), Executor(world), Sure(world.pc), Describer(start))
  {
    forall env, op, s, written | Describer(start)(env, s, written) && Sure(world.pc)(env, op, written)
      ensures Describer(start)(Learned(env, op, Inferrer(world.pc)(env, op)), Executor(world)(s, op), written + WrittenBy(op))
    {
      StepKnows(env, op, world, start, s, written);
    }
  }

  /** Along every run of the interpreter, from every start, what the analyzer has learned is true. */
  lemma RunKnows(ops: seq<Op>, n: nat, world: World, start: State)
    requires WellRead(Inferrer(world.pc), Sure(world.pc), ops) && n <= |ops|
    ensures Describer(start)(EnvAt(Inferrer(world.pc), ops, n), StateAt(Executor(world), ops, n, start), WrittenAt(ops, n))
  {
    ModelKeeps(world, start);
    assert Knows(Env(map[], map[]), start, start) && Untouched({}, start, start);
    assert Describer(start)(Env(map[], map[]), start, {});
    RunKeeps(Inferrer(world.pc), Executor(world), Sure(world.pc), Describer(start), ops, n, start);
  }

  // ---- Effects -----------------------------------------------------------------------------

  // A register write as reported: the value at the width, or the register whose starting value it is.
  datatype RegisterWrite = RegisterWrite(reg: int, w: Width, value: Symbolic)

  ghost predicate Holds(e: RegisterWrite, start: State, after: State) {
    Fact(e.value, Cut(Get(after.arch, e.reg), e.w), e.w, start)
  }

  lemma MergedLow(prev: word, v: word, op: Op, x86: bool)
    ensures Cut(Merged(prev, v, op, x86), op.Width()) == Cut(v, op.Width())
  {
    KeptAbove(prev, v, Mask(op.Width()));
  }

  lemma FactCut(a: Symbolic, v: word, w: Width, start: State)
    requires Fact(CutSymbolic(a, w), v, w, start)
    ensures Fact(CutSymbolic(a, w), Cut(v, w), w, start)
  {
    CutSymbolicIsCut(a, w);
    if a.Register? {
      CutIdempotent(Get(start.arch, a.r), w);
    }
  }

  lemma WrittenHolds(op: Op, a: Symbolic, v: word, x86: bool, start: State, s: State)
    requires op.Destination().InArch? && Fact(CutSymbolic(a, op.Width()), v, op.Width(), start)
    ensures Holds(RegisterWrite(op.Destination().r, op.Width(), CutSymbolic(a, op.Width())), start, Written(s, op, v, x86))
  {
    var r := op.Destination().r;
    MergedLow(Get(s.arch, r), v, op, x86);
    FactCut(a, v, op.Width(), start);
  }

  /** A register write reported with a value holds it: the constant, or the starting value of the register
      named, at the width reported, in every run of the interpreter. */
  lemma WritesHold(ops: seq<Op>, i: nat, world: World, start: State)
    requires WellRead(Inferrer(world.pc), Sure(world.pc), ops) && i < |ops| && ops[i].Destination().InArch?
    ensures Holds(RegisterWrite(ops[i].Destination().r, ops[i].Width(), Infer(EnvAt(Inferrer(world.pc), ops, i), ops[i], world.pc)),
                  start, StateAt(Executor(world), ops, i + 1, start))
  {
    RunKnows(ops, i, world, start);
    StepHolds(EnvAt(Inferrer(world.pc), ops, i), ops[i], world, start, StateAt(Executor(world), ops, i, start), WrittenAt(ops, i));
  }

  lemma StepHolds(env: Env, op: Op, world: World, start: State, s: State, written: set<int>)
    requires Describes(env, start, s, written) && Fine(env, op) && Unspoilt(env, op, world.pc, written) && op.Destination().InArch?
    ensures Holds(RegisterWrite(op.Destination().r, op.Width(), Infer(env, op, world.pc)), start, Executed(s, op, world))
  {
    InferSound(env, op, world, start, s, written);
    WrittenHolds(op, InferRaw(env, op, world.pc), Result(s, op, world), world.x86, start, s);
  }

  // The width at which an output of the instruction is reported.
  function OutputWidth(env: Env, o: Operand, natural: Width): Width {
    if o.Virtual? && o.id in env.widths then env.widths[o.id] else natural
  }

  /** An output of the instruction: its reported value is that of its operand when the run is over. */
  lemma OutputHolds(ops: seq<Op>, o: Operand, natural: Width, world: World, start: State)
    requires WellRead(Inferrer(world.pc), Sure(world.pc), ops) && ArchOf(o) !! WrittenAt(ops, |ops|)
    ensures var env := EnvAt(Inferrer(world.pc), ops, |ops|);
      var w := OutputWidth(env, o, natural);
      Fact(CutSymbolic(SymbolicOf(env, o), w), Cut(ReadOperand(StateAt(Executor(world), ops, |ops|, start), o), w), w, start)
  {
    RunKnows(ops, |ops|, world, start);
    OutputFact(EnvAt(Inferrer(world.pc), ops, |ops|), o, natural, start, StateAt(Executor(world), ops, |ops|, start), WrittenAt(ops, |ops|));
  }

  lemma OutputFact(env: Env, o: Operand, natural: Width, start: State, s: State, written: set<int>)
    requires Consistent(env, ArchOf(o), start, s, written)
    ensures var w := OutputWidth(env, o, natural);
      Fact(CutSymbolic(SymbolicOf(env, o), w), Cut(ReadOperand(s, o), w), w, start)
  {
    var w := OutputWidth(env, o, natural);
    OperandFact(env, o, start, s, written);
    CoversSelf(w);
    CoversAll(w);
    MovFact(SymbolicOf(env, o), ReadOperand(s, o), Known(env, o), w, start);
  }

  lemma CoversAll(w: Width)
    ensures Covers(W64, w)
  {
    AndLaws(Mask(w), Mask(W64), 0);
  }
}
