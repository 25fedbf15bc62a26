/**
 The analyzer as it runs: it walks the operations once, remembers virtual registers and collects each
 effect the first time it appears.
 */
module Analyzer {
  import opened AnalyzeBits
  import opened Analyze
  import opened AnalyzeSound
  import opened AnalyzeRun
  import opened Common

  datatype Effect =
    | RegisterReads(reg: int)
    | RegisterWrites(write: RegisterWrite)
    | MemoryAccess(stores: bool, w: Width, place: Option<Place64>, value: Symbolic)

  // ---- What an operation reports -----------------------------------------------------------

  function OptionSeq<T>(o: Option<T>): seq<T> { if o.Some? then [o.value] else [] }

  function AddressOperands(a: Address): seq<Operand> {
    match a
    case Absolute(_) => []
    case PcRelative(_, _) => []
    case Direct(o) => [o]
    case BaseOffset(o, _) => [o]
    case BaseIndexScale(b, i, _, _) => OptionSeq(b) + [i]
    case SegmentRel(g, b, i, _, _) => [g] + OptionSeq(b) + OptionSeq(i)
  }

  // A destination that is a register, as an operand.
  function Target(op: Op): seq<Operand> {
    match op.Destination() case InVirtual(id) => [Virtual(id)] case InArch(r) => [Arch(r)] case InMemory => []
  }

  // Every operand of an operation, its destination included, in the order its fields are met.
  function Occurrences(op: Op): seq<Operand> {
    match op
    case Mov(_, s, _) => Target(op) + [s.o]
    case Binary(_, _, o, s, _) => Target(op) + [o, s.o]
    case Lea(_, addr) => AddressOperands(addr) + Target(op)
    case Load(_, addr, _) => AddressOperands(addr) + Target(op)
    case Store(addr, s, _) => AddressOperands(addr) + [s.o]
    case Unmodelled(_, _) => Target(op)
    case _ => Target(op) + [op.o]
  }

  // A list without the first o in it.
  function Without(os: seq<Operand>, o: Operand): seq<Operand> {
    if os == [] then [] else if os[0] == o then os[1..] else [os[0]] + Without(os[1..], o)
  }

  // What is left when one occurrence of the destination is taken away: the operands read.
  function Remaining(op: Op): seq<Operand> {
    if Target(op) == [] then Occurrences(op) else Without(Occurrences(op), Target(op)[0])
  }

  function ReadEffect(env: Env, o: Operand): seq<Effect> {
    if SymbolicOf(env, o).Register? then [RegisterReads(SymbolicOf(env, o).r)] else []
  }

  function ReadEffects(env: Env, os: seq<Operand>): seq<Effect> {
    if os == [] then [] else ReadEffects(env, os[..|os| - 1]) + ReadEffect(env, os[|os| - 1])
  }

  function PlaceReads(p: Option<Place64>): seq<Effect> {
    if p.Some? && p.value.Sum?
    then RegReads(p.value.segment) + RegReads(p.value.base) + RegReads(p.value.index) else []
  }

  function RegReads(r: Option<int>): seq<Effect> { if r.Some? then [RegisterReads(r.value)] else [] }

  function MemoryEffects(p: Option<Place64>, stores: bool, w: Width, a: Symbolic): seq<Effect> {
    PlaceReads(p) + [MemoryAccess(stores, w, p, a)]
  }

  function WriteEffects(op: Op, a: Symbolic): seq<Effect> {
    if op.Destination().InArch? then [RegisterWrites(RegisterWrite(op.Destination().r, op.Width(), a))] else []
  }

  function AccessEffects(env: Env, op: Op, pc: word): seq<Effect> {
    if op.Load? then MemoryEffects(FillAddress(env, op.addr, pc), false, op.w, Unknown)
    else if op.Store? then MemoryEffects(FillAddress(env, op.addr, pc), true, op.w, Infer(env, op, pc))
    else []
  }

  function EffectsOf(env: Env, op: Op, pc: word): seq<Effect> {
    ReadEffects(env, Remaining(op)) + AccessEffects(env, op, pc) + WriteEffects(op, Infer(env, op, pc))
  }

  // ---- Collecting --------------------------------------------------------------------------

  function Pushed(xs: seq<Effect>, e: Effect): seq<Effect> { if e in xs then xs else xs + [e] }

  function PushedAll(xs: seq<Effect>, ys: seq<Effect>): seq<Effect> {
    if ys == [] then xs else Pushed(PushedAll(xs, ys[..|ys| - 1]), ys[|ys| - 1])
  }

  lemma {:induction false} PushedAllAdd(xs: seq<Effect>, ys: seq<Effect>, zs: seq<Effect>)
    ensures PushedAll(PushedAll(xs, ys), zs) == PushedAll(xs, ys + zs)
    decreases |zs|
  {
    if zs == [] {
      assert ys + zs == ys;
    } else {
      var n := |zs| - 1;
      assert (ys + zs)[..|ys + zs| - 1] == ys + zs[..n];
      PushedAllAdd(xs, ys, zs[..n]);
    }
  }

  lemma PushedSnoc(xs: seq<Effect>, ys: seq<Effect>, e: Effect)
    ensures PushedAll(xs, ys + [e]) == Pushed(PushedAll(xs, ys), e)
  {
    assert (ys + [e])[..|ys|] == ys;
  }

  ghost predicate NoDuplicates(xs: seq<Effect>) {
    forall i, j :: 0 <= i < j < |xs| ==> xs[i] != xs[j]
  }

  /** Collecting loses no effect, invents none and keeps each once. */
  lemma {:induction false} PushedAllMembers(xs: seq<Effect>, ys: seq<Effect>, e: Effect)
    ensures e in PushedAll(xs, ys) <==> e in xs || e in ys
    ensures NoDuplicates(xs) ==> NoDuplicates(PushedAll(xs, ys))
    decreases |ys|
  {
    if ys != [] {
      var n := |ys| - 1;
      PushedAllMembers(xs, ys[..n], e);
      assert ys == ys[..n] + [ys[n]];
    }
  }

  method RemoveFirst(os: seq<Operand>, o: Operand) returns (rest: seq<Operand>)
    ensures rest == Without(os, o)
  {
    var i := 0;
    while i < |os| && os[i] != o
      invariant 0 <= i <= |os| && Without(os, o) == os[..i] + Without(os[i..], o)
    {
      assert os[i..][1..] == os[i + 1..] && os[..i + 1] == os[..i] + [os[i]];
      i := i + 1;
    }
    if i < |os| {
      assert os[i..][1..] == os[i + 1..];
      return os[..i] + os[i + 1..];
    }
    rest := os;
  }

  // ---- The analyzer ------------------------------------------------------------------------

  class Analyzer {
    const pc: word
    var values: map<int, Symbolic>
    var widths: map<int, Width>
    var effects: seq<Effect>
    var seen: set<Effect>

    ghost predicate Valid()
      reads this
    {
      NoDuplicates(effects) && seen == set e | e in effects
    }

    function View(): Env
      reads this
    {
      Env(values, widths)
    }

    constructor (at: word)
      ensures Valid() && pc == at && View() == Env(map[], map[]) && effects == []
    {
      pc := at;
      values, widths, effects, seen := map[], map[], [], {};
    }

    method Push(e: Effect)
      requires Valid()
      modifies `effects, `seen
      ensures Valid() && effects == Pushed(old(effects), e)
    {
      if e !in seen {
        seen := seen + {e};
        effects := effects + [e];
      }
    }

    method PushEach(es: seq<Effect>)
      requires Valid()
      modifies `effects, `seen
      ensures Valid() && effects == PushedAll(old(effects), es)
    {
      for i := 0 to |es|
        invariant Valid() && effects == PushedAll(old(effects), es[..i])
      {
        Push(es[i]);
        assert es[..i + 1][..i] == es[..i];
      }
      assert es[..|es|] == es;
    }

    // Register reads of the source operands, through virtual registers too.
    method ReportReads(os: seq<Operand>)
      requires Valid()
      modifies `effects, `seen
      ensures Valid() && effects == PushedAll(old(effects), ReadEffects(View(), os))
    {
      for i := 0 to |os|
        invariant Valid() && effects == PushedAll(old(effects), ReadEffects(View(), os[..i]))
      {
        assert os[..i + 1][..i] == os[..i];
        PushedAllAdd(old(effects), ReadEffects(View(), os[..i]), ReadEffect(View(), os[i]));
        PushEach(ReadEffect(View(), os[i]));
      }
      assert os[..|os|] == os;
    }

    // A load or store: the registers of its address, then the access.
    method ReportMemory(place: Option<Place64>, stores: bool, w: Width, a: Symbolic)
      requires Valid()
      modifies `effects, `seen
      ensures Valid() && effects == PushedAll(old(effects), MemoryEffects(place, stores, w, a))
    {
      PushEach(PlaceReads(place));
      PushedSnoc(old(effects), PlaceReads(place), MemoryAccess(stores, w, place, a));
      Push(MemoryAccess(stores, w, place, a));
    }

    // The destination: a virtual register is remembered, an architectural one reported.
    method Record(op: Op, a: Symbolic)
      requires Valid()
      modifies this
      ensures Valid() && View() == Learned(old(View()), op, a)
      ensures effects == PushedAll(old(effects), WriteEffects(op, a))
    {
      match op.Destination()
      case InVirtual(id) =>
        values := values[id := a];
        widths := widths[id := op.Width()];
      case InArch(r) =>
        PushEach([RegisterWrites(RegisterWrite(r, op.Width(), a))]);
      case InMemory =>
    }

    method AnalyzeOp(op: Op)
      requires Valid()
      modifies this
      ensures Valid() && View() == Learned(old(View()), op, Infer(old(View()), op, pc))
      ensures effects == PushedAll(old(effects), EffectsOf(old(View()), op, pc))
    {
      ghost var env, was := View(), effects;
      var os := Occurrences(op);
      if Target(op) != [] {
        os := RemoveFirst(os, Target(op)[0]);
      }
      ReportReads(os);
      var a := Infer(View(), op, pc);
      ghost var reads_, mem := ReadEffects(env, Remaining(op)), [];
      if op.Load? {
        mem := MemoryEffects(FillAddress(env, op.addr, pc), false, op.w, Unknown);
        ReportMemory(FillAddress(View(), op.addr, pc), false, op.w, Unknown);
      } else if op.Store? {
        mem := MemoryEffects(FillAddress(env, op.addr, pc), true, op.w, a);
        ReportMemory(FillAddress(View(), op.addr, pc), true, op.w, a);
      }
      PushedAllAdd(was, reads_, mem);
      PushedAllAdd(was, reads_ + mem, WriteEffects(op, a));
      Record(op, a);
    }

    /** All operations in turn: the analyzer ends with the environment of the whole list, and with exactly
        the effects its operations report, each once. */
    method Analyze(ops: seq<Op>)
      requires Valid() && View() == Env(map[], map[]) && effects == []
      modifies this
      ensures Valid() && View() == EnvAt(Inferrer(pc), ops, |ops|)
      ensures forall e :: e in effects <==> Reported(ops, |ops|, pc, e)
    {
      for n := 0 to |ops|
        invariant Valid() && View() == EnvAt(Inferrer(pc), ops, n)
        invariant forall e :: e in effects <==> Reported(ops, n, pc, e)
      {
        ghost var env, was := View(), effects;
        AnalyzeOp(ops[n]);
        ReportedNext(ops, n, pc, was, effects);
      }
    }
  }

  // One of the first n operations reports e.
  ghost predicate Reported(ops: seq<Op>, n: nat, pc: word, e: Effect)
    requires n <= |ops|
  {
    exists i :: 0 <= i < n && e in EffectsOf(EnvAt(Inferrer(pc), ops, i), ops[i], pc)
  }

  lemma ReportedNext(ops: seq<Op>, n: nat, pc: word, was: seq<Effect>, now: seq<Effect>)
    requires n < |ops| && forall e :: e in was <==> Reported(ops, n, pc, e)
    requires now == PushedAll(was, EffectsOf(EnvAt(Inferrer(pc), ops, n), ops[n], pc))
    ensures forall e :: e in now <==> Reported(ops, n + 1, pc, e)
  {
    forall e
      ensures e in now <==> Reported(ops, n + 1, pc, e)
    {
      PushedAllMembers(was, EffectsOf(EnvAt(Inferrer(pc), ops, n), ops[n], pc), e);
    }
  }

  // ---- What the reports are worth ----------------------------------------------------------

  lemma {:induction false} ReadEffectsRead(env: Env, os: seq<Operand>, e: Effect)
    requires e in ReadEffects(env, os)
    ensures e.RegisterReads?
  {
    var n := |os| - 1;
    if e in ReadEffects(env, os[..n]) {
      ReadEffectsRead(env, os[..n], e);
    }
  }

  lemma MemoryEffectsAccess(p: Option<Place64>, stores: bool, w: Width, a: Symbolic, e: Effect)
    requires e in MemoryEffects(p, stores, w, a)
    ensures !e.RegisterWrites?
  {
  }

  lemma OnlyWrite(env: Env, op: Op, pc: word, write: RegisterWrite)
    requires RegisterWrites(write) in EffectsOf(env, op, pc)
    ensures op.Destination().InArch?
    ensures write == RegisterWrite(op.Destination().r, op.Width(), Infer(env, op, pc))
  {
    var e := RegisterWrites(write);
    if e in ReadEffects(env, Remaining(op)) {
      ReadEffectsRead(env, Remaining(op), e);
    } else if op.Load? && e in MemoryEffects(FillAddress(env, op.addr, pc), false, op.w, Unknown) {
      MemoryEffectsAccess(FillAddress(env, op.addr, pc), false, op.w, Unknown, e);
    } else if op.Store? && e in MemoryEffects(FillAddress(env, op.addr, pc), true, op.w, Infer(env, op, pc)) {
      MemoryEffectsAccess(FillAddress(env, op.addr, pc), true, op.w, Infer(env, op, pc), e);
    } else {
      assert e in WriteEffects(op, Infer(env, op, pc));
    }
  }

  // The write holds after operation i in every run from every start.
  ghost predicate HoldsAfter(ops: seq<Op>, i: nat, pc: word, write: RegisterWrite)
    requires i < |ops|
  {
    forall world: World, start | world.pc == pc :: HoldsIn(ops, i, world, start, write)
  }

  ghost predicate HoldsIn(ops: seq<Op>, i: nat, world: World, start: State, write: RegisterWrite)
    requires i < |ops|
  {
    Holds(write, start, StateAt(Executor(world), ops, i + 1, start))
  }

  /** Every register write the analyzer reports is the write of some operation, and holds the reported
      value there whatever the registers were and whatever the unmodelled operations produced. */
  lemma ReportsHold(ops: seq<Op>, pc: word, write: RegisterWrite) returns (i: nat)
    requires WellRead(Inferrer(pc), Sure(pc), ops) && Reported(ops, |ops|, pc, RegisterWrites(write))
    ensures i < |ops| && ops[i].Destination() == InArch(write.reg) && HoldsAfter(ops, i, pc, write)
  {
    i :| 0 <= i < |ops| && RegisterWrites(write) in EffectsOf(EnvAt(Inferrer(pc), ops, i), ops[i], pc);
    OnlyWrite(EnvAt(Inferrer(pc), ops, i), ops[i], pc, write);
    forall world: World, start | world.pc == pc
      ensures HoldsIn(ops, i, world, start, write)
    {
      WritesHold(ops, i, world, start);
    }
  }
}
