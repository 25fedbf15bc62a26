/**
 What a run of the C API does, as functions of the vCPU's state and the stop flag: the callbacks in order, one
 turn of either loop, and a run of any number of turns.  The vCPU and the callbacks are arbitrary functions.
 */
module RunModel {
  import opened Common
  import opened Dma

  datatype Reason =
    | NoStop | Count | Until | Timeout | Stopped | Hlt | IoIn | IoOut | MmioRead | MmioWrite
    | Exception | Interrupt | Shutdown | Debug | Error

  datatype Exit = Exit(reason: Reason, status: int, address: nat, value: nat, size: nat, port: nat, intno: nat)

  function Stop(reason: Reason): Exit { Exit(reason, 0, 0, 0, 0, 0, 0) }

  // The stops whose value is the number of steps.
  predicate Control(r: Reason) {
    r == Count || r == Until || r == Timeout || r == Stopped || r == Hlt || r == Exception || r == Shutdown
    || r == Debug || r == Error
  }

  // The stops a vCPU brings about, rather than the loop.
  predicate FromVcpu(r: Reason) {
    !(r == NoStop || r == Count || r == Until || r == Timeout || r == Stopped || r == Interrupt)
  }

  // Why a vCPU comes back.
  datatype VcpuExit =
    | Halted
    | ShutDown
    | In(port: nat, size: nat)
    | InString(port: nat, size: nat, count: nat)
    | Out(port: nat, data: seq<byte>)
    | ReadMmio(addr: nat, size: nat)
    | WriteMmio(addr: nat, data: seq<byte>)
    | Raised(vector: nat)
    | Debugged
    | FailEntry(why: nat)
    | Broken

  datatype Outcome = Quiet | Exits(x: VcpuExit) | Fails(status: int)
  datatype Action = Continue | Halt(info: Exit)

  // A hook over a range of addresses; an empty range stands for every address.
  datatype RangeHook<!V> = RangeHook(begin: nat, end: nat, cb: (V, nat) -> (V, bool)) {
    predicate Matches(addr: nat) { begin > end || begin <= addr <= end }
  }

  datatype Access = Reading | Writing | Fetching
  datatype Record = Record(access: Access, addr: nat, size: nat, value: nat)
  datatype MemHook<!V> = MemHook(kinds: set<Access>, begin: nat, end: nat, cb: (V, Record) -> (V, bool)) {
    predicate Matches(r: Record) { r.access in kinds && (begin > end || begin <= r.addr <= end) }
  }

  // What a vCPU with state V does.
  datatype Cpu<!V> = Cpu(
    pc: V -> nat,
    setPc: (V, nat) -> Option<V>,
    step: V -> (V, Outcome),
    run: V -> (V, Outcome),
    complete: (V, seq<byte>) -> V,
    drain: V -> (V, seq<Record>),
    stepping: bool)

  // The callbacks.  Each gives the state it leaves and whether it asked to stop; it cannot take such a
  // request back.  Input callbacks give a value too, and the invalid-instruction one whether it coped.
  datatype Hooks<!V> = Hooks(
    block: seq<RangeHook<V>>,
    code: seq<RangeHook<V>>,
    mem: seq<MemHook<V>>,
    ioIn: Option<(V, nat, nat) -> (V, bool, nat)>,
    ioOut: Option<(V, nat, nat, nat) -> (V, bool)>,
    mmioRead: Option<(V, nat, nat) -> (V, bool, nat)>,
    mmioWrite: Option<(V, nat, nat, nat) -> (V, bool)>,
    intr: Option<(V, nat) -> (V, bool)>,
    invalid: Option<(V, nat) -> (V, bool, bool)>)

  // `late` tells whether the time limit has passed in a turn.
  datatype Host<!V> = Host(cpu: Cpu<V>, hooks: Hooks<V>, late: nat -> bool)

  datatype Limits = Limits(begin: Option<nat>, until: Option<nat>, count: nat, timed: bool)

  function Min(a: nat, b: nat): nat { if a < b then a else b }

  // The low bytes of a 64-bit value.
  function Low(value: nat, size: nat): (b: seq<byte>)
    ensures |b| == Min(size, 8)
  {
    ToLe(value % TWO64, Min(size, 8))
  }

  function ValueOf(data: seq<byte>): nat { Le(data[..Min(|data|, 8)]) }

  const FAULT: int := 12

  // What an exit no callback serves is reported as.
  function Unserved(x: VcpuExit): Exit {
    match x
    case Halted => Stop(Hlt)
    case ShutDown => Stop(Shutdown)
    case In(port, size) => Stop(IoIn).(port := port, size := size)
    case InString(port, size, count) => Stop(IoIn).(port := port, size := size, value := count)
    case Out(port, data) => Stop(IoOut).(port := port, size := |data|, value := ValueOf(data))
    case ReadMmio(addr, size) => Stop(MmioRead).(address := addr, size := size)
    case WriteMmio(addr, data) => Stop(MmioWrite).(address := addr, size := |data|, value := ValueOf(data))
    case Raised(vector) => Stop(Exception).(intno := vector)
    case Debugged => Stop(Debug)
    case FailEntry(why) => Stop(Error).(status := FAULT, value := why)
    case Broken => Stop(Error).(status := FAULT)
  }

  // Whether some callback serves it.
  predicate Served<V>(hooks: Hooks<V>, x: VcpuExit) {
    match x
    case In(_, _) => hooks.ioIn.Some?
    case InString(_, _, _) => hooks.ioIn.Some?
    case Out(_, _) => hooks.ioOut.Some?
    case ReadMmio(_, _) => hooks.mmioRead.Some?
    case WriteMmio(_, _) => hooks.mmioWrite.Some?
    case Raised(_) => hooks.intr.Some?
    case _ => false
  }

  predicate Stepping<V>(hooks: Hooks<V>, lim: Limits) {
    lim.count != 0 || lim.until.Some? || lim.timed || hooks.code != [] || hooks.block != [] || hooks.mem != []
  }

  // A report that names no address names the one the turn began at.
  function Placed(info: Exit, pc: nat): Exit { if info.address == 0 then info.(address := pc) else info }

  // ---- Callbacks ---------------------------------------------------------------------------

  // The vCPU and the stop flag between two callbacks.
  datatype State<!V> = State(v: V, stop: bool) {
    // A callback left this and may have asked to stop.
    function Then(u: V, asked: bool): State<V> { State(u, stop || asked) }
  }

  // The first n hooks whose range holds pc, in order.
  function Fired<V>(hooks: seq<RangeHook<V>>, pc: nat, s: State<V>, n: nat): State<V>
    requires n <= |hooks|
  {
    if n == 0 then s else Offered(hooks[n - 1], pc, Fired(hooks, pc, s, n - 1))
  }

  function Offered<V>(hook: RangeHook<V>, pc: nat, s: State<V>): State<V> {
    if hook.Matches(pc) then var (v, asked) := hook.cb(s.v, pc); s.Then(v, asked) else s
  }

  // One access, to the first n hooks that want it.
  function Noted<V>(hooks: seq<MemHook<V>>, r: Record, s: State<V>, n: nat): State<V>
    requires n <= |hooks|
  {
    if n == 0 then s else Shown(hooks[n - 1], r, Noted(hooks, r, s, n - 1))
  }

  function Shown<V>(hook: MemHook<V>, r: Record, s: State<V>): State<V> {
    if hook.Matches(r) then var (v, asked) := hook.cb(s.v, r); s.Then(v, asked) else s
  }

  // The first m accesses, each to every hook.
  function NotedAll<V>(hooks: seq<MemHook<V>>, records: seq<Record>, s: State<V>, m: nat): State<V>
    requires m <= |records|
  {
    if m == 0 then s else Noted(hooks, records[m - 1], NotedAll(hooks, records, s, m - 1), |hooks|)
  }

  // Block hooks at the head of a block, then code hooks unless one of those asked to stop.
  function Announced<V>(hooks: Hooks<V>, pc: nat, head: bool, s: State<V>): State<V> {
    var t := if head then Fired(hooks.block, pc, s, |hooks.block|) else s;
    if t.stop then t else Fired(hooks.code, pc, t, |hooks.code|)
  }

  // One instruction and what is shown of its accesses.
  function Instructed<V>(h: Host<V>, s: State<V>): (State<V>, Outcome) {
    var (v, out) := h.cpu.step(s.v);
    if h.hooks.mem == [] then (s.(v := v), out)
    else
      var (u, records) := h.cpu.drain(v);
      (NotedAll(h.hooks.mem, records, s.(v := u), |records|), out)
  }

  // An input callback's value, completed at the access size.
  function Entered<V>(cpu: Cpu<V>, cb: (V, nat, nat) -> (V, bool, nat), at: nat, size: nat, s: State<V>): State<V> {
    var (v, asked, value) := cb(s.v, at, size);
    s.Then(cpu.complete(v, Low(value, size)), asked)
  }

  // The values of a string input, one callback each.
  function Gathered<V>(cb: (V, nat, nat) -> (V, bool, nat), port: nat, size: nat, s: State<V>, n: nat): (State<V>, seq<byte>) {
    if n == 0 then (s, [])
    else
      var (t, buf) := Gathered(cb, port, size, s, n - 1);
      var (v, asked, value) := cb(t.v, port, size);
      (t.Then(v, asked), buf + Low(value, size))
  }

  function Completed<V>(cpu: Cpu<V>, g: (State<V>, seq<byte>)): State<V> { g.0.(v := cpu.complete(g.0.v, g.1)) }

  function After2<V>(s: State<V>, r: (V, bool)): State<V> { s.Then(r.0, r.1) }

  // An exit some callback serves.
  function Dispatched<V>(h: Host<V>, x: VcpuExit, s: State<V>): State<V> {
    if !Served(h.hooks, x) then s
    else match x
      case In(port, size) => Entered(h.cpu, h.hooks.ioIn.value, port, size, s)
      case InString(port, size, count) => Completed(h.cpu, Gathered(h.hooks.ioIn.value, port, size, s, count))
      case Out(port, data) => After2(s, h.hooks.ioOut.value(s.v, port, |data|, ValueOf(data)))
      case ReadMmio(addr, size) => Entered(h.cpu, h.hooks.mmioRead.value, addr, size, s)
      case WriteMmio(addr, data) => After2(s, h.hooks.mmioWrite.value(s.v, addr, |data|, ValueOf(data)))
      case Raised(vector) => After2(s, h.hooks.intr.value(s.v, vector))
      case _ => s
  }

  // What is made of a step or run that came back: the state, the exit if it ends the run, and the status.
  datatype Verdict<!V> = Verdict(s: State<V>, exit: Option<Exit>, ret: int)

  function Settled<V>(h: Host<V>, out: Outcome, pc: nat, s: State<V>): Verdict<V> {
    match out
    case Quiet => Verdict(s, None, 0)
    case Exits(x) =>
      Verdict(Dispatched(h, x, s), if Served(h.hooks, x) then None else Some(Placed(Unserved(x), pc)), 0)
    case Fails(status) =>
      var failed := Some(Stop(Error).(address := pc, status := status));
      match h.hooks.invalid
      case None => Verdict(s, failed, status)
      case Some(cb) =>
        var (v, asked, handled) := cb(s.v, pc);
        if handled then Verdict(s.Then(v, asked), None, 0) else Verdict(s.Then(v, asked), failed, status)
  }

  // ---- Turns -------------------------------------------------------------------------------

  // After some turns: the state, the exit and status if the run has ended, the steps made and whether a block
  // begins.
  datatype Progress<!V> = Progress(s: State<V>, exit: Option<Exit>, ret: int, executed: nat, head: bool)

  // The stop conditions at the top of a stepping turn, in order.
  function Checked<V>(h: Host<V>, lim: Limits, turn: nat, pc: nat, executed: nat, stop: bool): Option<Exit> {
    if stop then Some(Stop(Stopped).(address := pc))
    else if lim.until == Some(pc) then Some(Stop(Until).(address := pc))
    else if lim.count != 0 && executed >= lim.count then Some(Stop(Count).(address := pc, value := executed))
    else if lim.timed && h.late(turn) then Some(Stop(Timeout).(address := pc, value := executed))
    else None
  }

  // A jump back, or past the longest instruction, begins a block.
  predicate Jumped(from: nat, to: nat) { to < from || to > (from + 15) % TWO64 }

  // A turn in which no stop condition held at the top.
  function Advanced<V>(h: Host<V>, pc: nat, p: Progress<V>): Progress<V> {
    var t := Announced(h.hooks, pc, p.head, p.s);
    if t.stop then Progress(t, Some(Stop(Stopped).(address := pc)), 0, p.executed, false)
    else
      var (u, out) := Instructed(h, t);
      var w := Settled(h, out, pc, u);
      Progress(w.s, w.exit, w.ret, p.executed + 1, w.exit.None? && !out.Fails? && Jumped(pc, h.cpu.pc(w.s.v)))
  }

  function StepTurn<V>(h: Host<V>, lim: Limits, p: Progress<V>, turn: nat): Progress<V> {
    var pc := h.cpu.pc(p.s.v);
    var exit := Checked(h, lim, turn, pc, p.executed, p.s.stop);
    if exit.Some? then p.(exit := exit) else Advanced(h, pc, p)
  }

  function ExitTurn<V>(h: Host<V>, lim: Limits, p: Progress<V>, turn: nat): Progress<V> {
    if p.s.stop then p.(exit := Some(Stop(Stopped)))
    else if lim.timed && h.late(turn) then p.(exit := Some(Stop(Timeout)))
    else
      var (v, out) := h.cpu.run(p.s.v);
      var w := Settled(h, out, h.cpu.pc(p.s.v), p.s.(v := v));
      p.(s := w.s, exit := w.exit, ret := w.ret)
  }

  function Start<V>(s: State<V>): Progress<V> { Progress(s, None, 0, 0, true) }

  type Turns<!V> = (Progress<V>, nat) -> Progress<V>

  // Turns until one ends the run, at most n.
  function Repeated<V>(turn: Turns<V>, p: Progress<V>, n: nat): Progress<V> {
    if n == 0 then p
    else
      var q := Repeated(turn, p, n - 1);
      if q.exit.Some? then q else turn(q, n - 1)
  }

  function Stepper<V>(h: Host<V>, lim: Limits): Turns<V> { (p: Progress<V>, k: nat) => StepTurn(h, lim, p, k) }
  function Exiter<V>(h: Host<V>, lim: Limits): Turns<V> { (p: Progress<V>, k: nat) => ExitTurn(h, lim, p, k) }

  // A run from a state whose PC is set.
  function Driven<V>(h: Host<V>, lim: Limits, s: State<V>, n: nat): Progress<V> {
    Repeated(if h.cpu.stepping && Stepping(h.hooks, lim) then Stepper(h, lim) else Exiter(h, lim), Start(s), n)
  }

  // The state a run begins in, unless PC cannot be set.
  function Begun<V>(h: Host<V>, lim: Limits, v: V): Option<V> {
    match lim.begin case None => Some(v) case Some(at) => h.cpu.setPc(v, at)
  }

  // What is reported at the end: for a control stop the number of steps.
  function Reported(exit: Exit, executed: nat): Exit {
    if Control(exit.reason) then exit.(value := executed) else exit
  }

  lemma {:induction false} Stays<V>(turn: Turns<V>, p: Progress<V>, n: nat, m: nat)
    requires n <= m && Repeated(turn, p, n).exit.Some?
    ensures Repeated(turn, p, m) == Repeated(turn, p, n)
  {
    if n < m {
      Stays(turn, p, n, m - 1);
    }
  }

  // A function of turns that is the one of the loop wherever it has been looked at.
  predicate Looked<V>(p: Progress<V>, k: nat) { true }

  ghost predicate StepsAs<V(!new)>(turn: Turns<V>, h: Host<V>, lim: Limits) {
    forall p: Progress<V>, k: nat {:trigger Looked(p, k)} | Looked(p, k) :: turn(p, k) == StepTurn(h, lim, p, k)
  }

  ghost predicate ExitsAs<V(!new)>(turn: Turns<V>, h: Host<V>, lim: Limits) {
    forall p: Progress<V>, k: nat {:trigger Looked(p, k)} | Looked(p, k) :: turn(p, k) == ExitTurn(h, lim, p, k)
  }
}
