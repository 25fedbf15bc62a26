/** What the model of a run promises: which callbacks are called and with what, and where whole runs end. */
module RunLaws {
  import Arith
  import opened Common
  import opened Dma
  import opened RunLoop
  import opened RunModel

  // ---- Callbacks ---------------------------------------------------------------------------

  /** A hook is called with the address exactly when its range holds it, an empty range standing for every address;
      its state and its request to stop are kept. */
  lemma OneHook<V>(hook: RangeHook<V>, pc: nat, s: State<V>)
    ensures Fired([hook], pc, s, 1)
         == if hook.begin > hook.end || hook.begin <= pc <= hook.end
            then State(hook.cb(s.v, pc).0, s.stop || hook.cb(s.v, pc).1) else s
  {
    assert Fired([hook], pc, s, 0) == s;
  }

  /** Hooks are called in order, each on the state the one before it left, even after one of them asked to stop. */
  lemma {:induction false} HooksInOrder<V>(a: seq<RangeHook<V>>, b: seq<RangeHook<V>>, pc: nat, s: State<V>, n: nat)
    requires n <= |b|
    ensures Fired(a + b, pc, s, |a| + n) == Fired(b, pc, Fired(a, pc, s, |a|), n)
  {
    if n == 0 {
      FiredPrefix(a, b, pc, s, |a|);
    } else {
      HooksInOrder(a, b, pc, s, n - 1);
    }
  }

  lemma {:induction false} FiredPrefix<V>(a: seq<RangeHook<V>>, b: seq<RangeHook<V>>, pc: nat, s: State<V>, n: nat)
    requires n <= |a|
    ensures Fired(a + b, pc, s, n) == Fired(a, pc, s, n)
  {
    if n > 0 {
      FiredPrefix(a, b, pc, s, n - 1);
    }
  }

  /** A memory hook is shown an access exactly when it wants that kind and its range holds the address. */
  lemma OneMemHook<V>(hook: MemHook<V>, r: Record, s: State<V>)
    ensures NotedAll([hook], [r], s, 1)
         == if r.access in hook.kinds && (hook.begin > hook.end || hook.begin <= r.addr <= hook.end)
            then State(hook.cb(s.v, r).0, s.stop || hook.cb(s.v, r).1) else s
  {
    assert NotedAll([hook], [r], s, 0) == s && Noted([hook], r, s, 0) == s;
    assert Noted([hook], r, s, 1) == Shown(hook, r, s);
  }

  /** Each access is shown to all hooks before the next is. */
  lemma {:induction false} AccessesInOrder<V>(hooks: seq<MemHook<V>>, a: seq<Record>, b: seq<Record>, s: State<V>, n: nat)
    requires n <= |b|
    ensures NotedAll(hooks, a + b, s, |a| + n) == NotedAll(hooks, b, NotedAll(hooks, a, s, |a|), n)
  {
    if n == 0 {
      NotedPrefix(hooks, a, b, s, |a|);
    } else {
      AccessesInOrder(hooks, a, b, s, n - 1);
    }
  }

  lemma {:induction false} NotedPrefix<V>(hooks: seq<MemHook<V>>, a: seq<Record>, b: seq<Record>, s: State<V>, n: nat)
    requires n <= |a|
    ensures NotedAll(hooks, a + b, s, n) == NotedAll(hooks, a, s, n)
  {
    if n > 0 {
      NotedPrefix(hooks, a, b, s, n - 1);
    }
  }

  /** An input of up to eight bytes is completed with as many bytes as were asked for, of the value the callback gave,
      least significant first. */
  lemma InputBytes(value: nat, size: nat)
    requires size <= 8 && value < TWO64
    ensures |Low(value, size)| == size && Pow256(size) > 0
    ensures Le(Low(value, size)) == value % Pow256(size)
  {
    LowIs(value, size);
    LowDigits(value, size);
  }

  lemma LowIs(value: nat, size: nat)
    requires size <= 8 && value < TWO64
    ensures Low(value, size) == ToLe(value, size)
  {
    assert value % TWO64 == value;
  }

  lemma {:induction false} LowDigits(v: nat, n: nat)
    ensures Pow256(n) > 0 && Le(ToLe(v, n)) == v % Pow256(n)
  {
    if n > 0 {
      LowDigits(v / 256, n - 1);
      DigitUp(v, Pow256(n - 1));
    }
  }

  lemma DigitUp(v: nat, p: nat)
    requires p > 0
    ensures v % 256 + 256 * (v / 256 % p) == v % (256 * p)
  {
    var u, d := v / 256, v % 256;
    var q, r := u / p, u % p;
    assert u == q * p + r;
    assert 256 * (q * p) == q * (256 * p);
    assert v == q * (256 * p) + (256 * r + d);
    assert 256 * (r + 1) <= 256 * p;
    Arith.DivModUnique(v, 256 * p, q, 256 * r + d);
  }

  /** The values of a string input follow each other, each asked for in the state the one before left. */
  lemma {:induction false} StringBytes<V>(cb: (V, nat, nat) -> (V, bool, nat), port: nat, size: nat, s: State<V>, n: nat, i: nat)
    requires i < n
    ensures PieceAt(Gathered(cb, port, size, s, n).1, i * Min(size, 8), Low(cb(Gathered(cb, port, size, s, i).0.v, port, size).2, size))
  {
    var m, g := Min(size, 8), Gathered(cb, port, size, s, n - 1);
    GatheredLength(cb, port, size, s, n - 1);
    if i < n - 1 {
      StringBytes(cb, port, size, s, n - 1, i);
    }
    PieceKept(g.1, Low(cb(g.0.v, port, size).2, size));
  }

  ghost predicate PieceAt(buf: seq<byte>, at: nat, piece: seq<byte>) {
    at + |piece| <= |buf| && buf[at..at + |piece|] == piece
  }

  lemma PieceKept(a: seq<byte>, b: seq<byte>)
    ensures PieceAt(a + b, |a|, b) && forall at: nat, piece :: PieceAt(a, at, piece) ==> PieceAt(a + b, at, piece)
  {
    forall at: nat, piece | PieceAt(a, at, piece)
      ensures PieceAt(a + b, at, piece)
    {
      SliceKept(a, b, at, |piece|);
    }
  }

  lemma SliceKept(a: seq<byte>, b: seq<byte>, at: nat, m: nat)
    requires at + m <= |a|
    ensures (a + b)[at..at + m] == a[at..at + m]
  {
  }

  lemma {:induction false} GatheredLength<V>(cb: (V, nat, nat) -> (V, bool, nat), port: nat, size: nat, s: State<V>, n: nat)
    ensures |Gathered(cb, port, size, s, n).1| == n * Min(size, 8)
  {
    if n > 0 {
      GatheredLength(cb, port, size, s, n - 1);
    }
  }

  /** What each exit hands its callback, and what becomes of the answer: an input is completed, in the state the
      callback left, with the low bytes of its value. */
  lemma HandedOver<V>(h: Host<V>, s: State<V>, port: nat, addr: nat, size: nat, data: seq<byte>, vector: nat)
    requires |data| <= 8
    ensures h.hooks.ioIn.Some? ==>
      var (v, asked, value) := h.hooks.ioIn.value(s.v, port, size);
      Dispatched(h, In(port, size), s) == State(h.cpu.complete(v, Low(value, size)), s.stop || asked)
    ensures h.hooks.mmioRead.Some? ==>
      var (v, asked, value) := h.hooks.mmioRead.value(s.v, addr, size);
      Dispatched(h, ReadMmio(addr, size), s) == State(h.cpu.complete(v, Low(value, size)), s.stop || asked)
    ensures h.hooks.ioOut.Some? ==>
      var (v, asked) := h.hooks.ioOut.value(s.v, port, |data|, Le(data));
      Dispatched(h, Out(port, data), s) == State(v, s.stop || asked)
    ensures h.hooks.mmioWrite.Some? ==>
      var (v, asked) := h.hooks.mmioWrite.value(s.v, addr, |data|, Le(data));
      Dispatched(h, WriteMmio(addr, data), s) == State(v, s.stop || asked)
    ensures h.hooks.intr.Some? ==>
      var (v, asked) := h.hooks.intr.value(s.v, vector);
      Dispatched(h, Raised(vector), s) == State(v, s.stop || asked)
  {
    assert data[..Min(|data|, 8)] == data;
  }

  /** A string input completes all its bytes at once, after the last callback. */
  lemma StringHandedOver<V>(h: Host<V>, s: State<V>, port: nat, size: nat, count: nat)
    requires h.hooks.ioIn.Some?
    ensures var (t, buf) := Gathered(h.hooks.ioIn.value, port, size, s, count);
      Dispatched(h, InString(port, size, count), s) == State(h.cpu.complete(t.v, buf), t.stop)
  {
  }

  /** A failed instruction is shown to the invalid-instruction callback with its address: the run goes on exactly when
      that copes. */
  lemma FailureShown<V>(h: Host<V>, s: State<V>, status: int, pc: nat)
    requires h.hooks.invalid.Some?
    ensures var (v, asked, handled) := h.hooks.invalid.value(s.v, pc);
      var w := Settled(h, Fails(status), pc, s);
      w.s == State(v, s.stop || asked) && (w.exit.None? <==> handled) && w.ret == if handled then 0 else status
  {
  }

  /** A run that could go from exit to exit does so exactly when nothing has to happen between instructions. */
  lemma NothingBetween<V>(hooks: Hooks<V>, lim: Limits)
    ensures !Stepping(hooks, lim)
        <==> lim.count == 0 && lim.until.None? && !lim.timed && hooks.code == [] && hooks.block == [] && hooks.mem == []
  {
  }

  // ---- Runs with no callbacks --------------------------------------------------------------

  predicate Bare<V>(hooks: Hooks<V>) {
    && hooks.block == [] && hooks.code == [] && hooks.mem == [] && hooks.ioIn.None? && hooks.ioOut.None?
    && hooks.mmioRead.None? && hooks.mmioWrite.None? && hooks.intr.None? && hooks.invalid.None?
  }

  /** At the top of a turn a stop request goes before the address, that before the count and that before the time; none
      of them moves the vCPU. */
  lemma TopOfTurn<V>(h: Host<V>, lim: Limits, p: Progress<V>, turn: nat)
    requires p.exit.None?
    ensures var pc, q := h.cpu.pc(p.s.v), StepTurn(h, lim, p, turn);
      var counted, late := lim.count != 0 && p.executed >= lim.count, lim.timed && h.late(turn);
      && (p.s.stop ==> q.exit.Some? && q.exit.value.reason == Stopped)
      && (!p.s.stop && lim.until == Some(pc) ==> q.exit.Some? && q.exit.value.reason == Until)
      && (!p.s.stop && lim.until != Some(pc) && counted ==> q.exit.Some? && q.exit.value.reason == Count)
      && (!p.s.stop && lim.until != Some(pc) && !counted && late ==> q.exit.Some? && q.exit.value.reason == Timeout)
      && (p.s.stop || lim.until == Some(pc) || counted || late ==> q.s == p.s && q.executed == p.executed)
  {
  }

  /** An exit no callback serves is reported by its own reason, with what it carries. */
  lemma ExitReports(port: nat, size: nat, count: nat, addr: nat, data: seq<byte>, vector: nat)
    ensures Unserved(Halted).reason == Hlt && Unserved(ShutDown).reason == Shutdown && Unserved(Debugged).reason == Debug
    ensures var e := Unserved(In(port, size)); e.reason == IoIn && e.port == port && e.size == size
    ensures var e := Unserved(InString(port, size, count)); e.reason == IoIn && e.port == port && e.value == count
    ensures var e := Unserved(Out(port, data)); e.reason == IoOut && e.port == port && e.size == |data|
    ensures var e := Unserved(ReadMmio(addr, size)); e.reason == MmioRead && e.address == addr && e.size == size
    ensures var e := Unserved(WriteMmio(addr, data)); e.reason == MmioWrite && e.address == addr && e.size == |data|
    ensures |data| <= 8 ==> Unserved(Out(port, data)).value == Unserved(WriteMmio(addr, data)).value == Le(data)
    ensures Unserved(Raised(vector)).reason == Exception && Unserved(Raised(vector)).intno == vector
    ensures Unserved(Broken).reason == Error && Unserved(Broken).status == 12
  {
    if |data| <= 8 {
      assert data[..Min(|data|, 8)] == data;
    }
  }

  /** A report that names no address names that of the instruction. */
  lemma ExitsPlaced(addr: nat, size: nat, pc: nat)
    ensures Placed(Unserved(Halted), pc) == Unserved(Halted).(address := pc)
    ensures Placed(Unserved(ReadMmio(addr, size)), pc).address == if addr == 0 then pc else addr
  {
  }

  /** A run begins where the caller says, if it says, and else where the vCPU stands. */
  lemma BeginsAt<V>(h: Host<V>, lim: Limits, v: V, at: nat)
    ensures lim.begin == Some(at) ==> Begun(h, lim, v) == h.cpu.setPc(v, at)
    ensures lim.begin == None ==> Begun(h, lim, v) == Some(v)
  {
  }

  /** Only input and output, and stops that are none, keep a value of their own. */
  lemma OwnValues(r: Reason)
    ensures Control(r) <==> r !in {NoStop, IoIn, IoOut, MmioRead, MmioWrite, Interrupt}
  {
  }

  // n instructions, one after the other.
  function Executed<V>(step: V -> (V, Outcome), v: V, n: nat): V {
    if n == 0 then v else step(Executed(step, v, n - 1)).0
  }

  // Nothing stands in the way of the first n instructions.
  ghost predicate Unhindered<V>(h: Host<V>, lim: Limits, v: V, n: nat) {
    && Bare(h.hooks) && !lim.timed && (lim.count != 0 ==> n <= lim.count)
    && forall k {:trigger Executed(h.cpu.step, v, k)} :: 0 <= k < n ==>
      h.cpu.step(Executed(h.cpu.step, v, k)).1 == Quiet && lim.until != Some(h.cpu.pc(Executed(h.cpu.step, v, k)))
  }

  lemma BareTurn<V>(h: Host<V>, lim: Limits, p: Progress<V>, turn: nat)
    requires Bare(h.hooks) && !lim.timed && !p.s.stop && p.exit.None? && p.ret == 0
    requires lim.until != Some(h.cpu.pc(p.s.v)) && (lim.count != 0 ==> p.executed < lim.count)
    ensures var (v, out) := h.cpu.step(p.s.v);
      var q := StepTurn(h, lim, p, turn);
      && q.s == State(v, false) && q.executed == p.executed + 1
      && (out.Quiet? ==> q.exit.None? && q.ret == 0)
      && (out.Exits? ==> q.exit == Some(Placed(Unserved(out.x), h.cpu.pc(p.s.v))) && q.ret == 0)
      && (out.Fails? ==> q.exit == Some(Stop(Error).(address := h.cpu.pc(p.s.v), status := out.status)) && q.ret == out.status)
  {
    assert Announced(h.hooks, h.cpu.pc(p.s.v), p.head, p.s) == p.s;
  }

  /** With memory hooks alone: the instruction, then its accesses as the vCPU recorded them, shown in the state they
      were taken out of. */
  lemma WatchedTurn<V>(h: Host<V>, lim: Limits, p: Progress<V>, turn: nat)
    requires Bare(h.hooks.(mem := [])) && h.hooks.mem != [] && !lim.timed && !p.s.stop
    requires lim.until != Some(h.cpu.pc(p.s.v)) && (lim.count != 0 ==> p.executed < lim.count)
    requires h.cpu.step(p.s.v).1 == Quiet
    ensures var (u, records) := h.cpu.drain(h.cpu.step(p.s.v).0);
      StepTurn(h, lim, p, turn).s == NotedAll(h.hooks.mem, records, State(u, false), |records|)
  {
    assert Announced(h.hooks, h.cpu.pc(p.s.v), p.head, p.s) == p.s;
  }

  /** With block hooks alone: they are called where a block begins and only there, before the instruction; the next
      one begins a block exactly when PC has gone back or more than fifteen bytes on. */
  lemma BlockTurn<V>(h: Host<V>, lim: Limits, p: Progress<V>, turn: nat)
    requires Bare(h.hooks.(block := [])) && !lim.timed && !p.s.stop && h.cpu.pc(p.s.v) + 15 < TWO64
    requires lim.until != Some(h.cpu.pc(p.s.v)) && (lim.count != 0 ==> p.executed < lim.count)
    ensures var pc := h.cpu.pc(p.s.v);
      var t := if p.head then Fired(h.hooks.block, pc, p.s, |h.hooks.block|) else p.s;
      var q := StepTurn(h, lim, p, turn);
      && (t.stop ==> q.s == t && q.exit == Some(Stop(Stopped).(address := pc)) && q.executed == p.executed)
      && (!t.stop && h.cpu.step(t.v).1 == Quiet ==>
            var now := h.cpu.pc(h.cpu.step(t.v).0);
            q.s.v == h.cpu.step(t.v).0 && (q.head <==> now < pc || now > pc + 15))
  {
  }

  // n steps into the run, with nothing else said.
  ghost predicate Underway<V>(p: Progress<V>, v: V, n: nat) {
    p.s == State(v, false) && p.exit.None? && p.ret == 0 && p.executed == n
  }

  lemma QuietTurn<V>(h: Host<V>, lim: Limits, p: Progress<V>, v: V, n: nat)
    requires Bare(h.hooks) && !lim.timed && Underway(p, v, n) && (lim.count != 0 ==> n < lim.count)
    requires lim.until != Some(h.cpu.pc(v)) && h.cpu.step(v).1 == Quiet
    ensures Underway(Stepper(h, lim)(p, n), h.cpu.step(v).0, n + 1)
  {
    BareTurn(h, lim, p, n);
  }

  lemma {:induction false} Uninterrupted<V>(h: Host<V>, lim: Limits, turn: Turns<V>, v: V, n: nat)
    requires Unhindered(h, lim, v, n) && turn == Stepper(h, lim)
    ensures Underway(Repeated(turn, Start(State(v, false)), n), Executed(h.cpu.step, v, n), n)
  {
    if n > 0 {
      Uninterrupted(h, lim, turn, v, n - 1);
      QuietTurn(h, lim, Repeated(turn, Start(State(v, false)), n - 1), Executed(h.cpu.step, v, n - 1), n - 1);
    }
  }

  // The run ends in this state, for this reason, after so many steps.
  ghost predicate EndsAt<V>(p: Progress<V>, v: V, exit: Exit, ret: int, executed: nat) {
    p.s == State(v, false) && p.exit == Some(exit) && p.ret == ret && p.executed == executed
  }

  // One more turn ends it, and so do all runs of more.
  lemma LastTurn<V>(turn: Turns<V>, p: Progress<V>, n: nat, turns: nat, u: V, exit: Exit, ret: int, executed: nat)
    requires Repeated(turn, p, n).exit.None? && turns > n
    requires EndsAt(turn(Repeated(turn, p, n), n), u, exit, ret, executed)
    ensures EndsAt(Repeated(turn, p, turns), u, exit, ret, executed)
  {
    Stays(turn, p, n + 1, turns);
  }

  /** A run of n instructions leaves what n steps leave and stops for the count. */
  lemma CountedRun<V>(h: Host<V>, lim: Limits, v: V, n: nat, turns: nat)
    requires h.cpu.stepping && Unhindered(h, lim, v, n) && lim.count == n > 0 && turns > n
    requires lim.until != Some(h.cpu.pc(Executed(h.cpu.step, v, n)))
    ensures var u := Executed(h.cpu.step, v, n);
      EndsAt(Driven(h, lim, State(v, false), turns), u, Stop(Count).(address := h.cpu.pc(u), value := n), 0, n)
  {
    var turn, u := Stepper(h, lim), Executed(h.cpu.step, v, n);
    Uninterrupted(h, lim, turn, v, n);
    LastTurn(turn, Start(State(v, false)), n, turns, u, Stop(Count).(address := h.cpu.pc(u), value := n), 0, n);
  }

  /** A run up to an address first reached after n steps leaves what those leave, even when that is the count too. */
  lemma UntilRun<V>(h: Host<V>, lim: Limits, v: V, n: nat, turns: nat)
    requires h.cpu.stepping && Unhindered(h, lim, v, n) && turns > n
    requires lim.until == Some(h.cpu.pc(Executed(h.cpu.step, v, n)))
    ensures var u := Executed(h.cpu.step, v, n);
      EndsAt(Driven(h, lim, State(v, false), turns), u, Stop(Until).(address := h.cpu.pc(u)), 0, n)
  {
    var turn, u := Stepper(h, lim), Executed(h.cpu.step, v, n);
    Uninterrupted(h, lim, turn, v, n);
    LastTurn(turn, Start(State(v, false)), n, turns, u, Stop(Until).(address := h.cpu.pc(u)), 0, n);
  }

  // The first n instructions are quiet and there is another to come.
  ghost predicate Another<V>(h: Host<V>, lim: Limits, v: V, n: nat) {
    && h.cpu.stepping && Stepping(h.hooks, lim) && Unhindered(h, lim, v, n) && (lim.count != 0 ==> n < lim.count)
    && lim.until != Some(h.cpu.pc(Executed(h.cpu.step, v, n)))
  }

  /** A vCPU that comes back from instruction n + 1 ends the run there, with its exit placed at that instruction. */
  lemma ExitedRun<V>(h: Host<V>, lim: Limits, v: V, n: nat, turns: nat, x: VcpuExit)
    requires Another(h, lim, v, n) && turns > n && h.cpu.step(Executed(h.cpu.step, v, n)).1 == Outcome.Exits(x)
    ensures EndsAt(Driven(h, lim, State(v, false), turns), Executed(h.cpu.step, v, n + 1),
                   Placed(Unserved(x), h.cpu.pc(Executed(h.cpu.step, v, n))), 0, n + 1)
  {
    var turn := Stepper(h, lim);
    Uninterrupted(h, lim, turn, v, n);
    BareTurn(h, lim, Repeated(turn, Start(State(v, false)), n), n);
    LastTurn(turn, Start(State(v, false)), n, turns, Executed(h.cpu.step, v, n + 1),
             Placed(Unserved(x), h.cpu.pc(Executed(h.cpu.step, v, n))), 0, n + 1);
  }

  /** One that fails ends it with its status. */
  lemma FailedRun<V>(h: Host<V>, lim: Limits, v: V, n: nat, turns: nat, status: int)
    requires Another(h, lim, v, n) && turns > n && h.cpu.step(Executed(h.cpu.step, v, n)).1 == Fails(status)
    ensures EndsAt(Driven(h, lim, State(v, false), turns), Executed(h.cpu.step, v, n + 1),
                   Stop(Error).(address := h.cpu.pc(Executed(h.cpu.step, v, n)), status := status), status, n + 1)
  {
    var turn := Stepper(h, lim);
    Uninterrupted(h, lim, turn, v, n);
    BareTurn(h, lim, Repeated(turn, Start(State(v, false)), n), n);
    LastTurn(turn, Start(State(v, false)), n, turns, Executed(h.cpu.step, v, n + 1),
             Stop(Error).(address := h.cpu.pc(Executed(h.cpu.step, v, n)), status := status), status, n + 1);
  }

  // ---- Runs from exit to exit --------------------------------------------------------------

  // Running to an output and handing it to the callback, over and over.
  function Printed<V>(run: V -> (V, Outcome), cb: (V, nat, nat, nat) -> (V, bool), v: V, n: nat): V {
    if n == 0 then v
    else
      var (u, out) := run(Printed(run, cb, v, n - 1));
      if out.Exits? && out.x.Out? then cb(u, out.x.port, |out.x.data|, ValueOf(out.x.data)).0 else u
  }

  // The first n times the vCPU comes back it is for an output, and the callback does not ask to stop.
  ghost predicate Outputs<V>(h: Host<V>, cb: (V, nat, nat, nat) -> (V, bool), v: V, n: nat) {
    forall k {:trigger Printed(h.cpu.run, cb, v, k)} :: 0 <= k < n ==>
      var (u, out) := h.cpu.run(Printed(h.cpu.run, cb, v, k));
      out.Exits? && out.x.Out? && !cb(u, out.x.port, |out.x.data|, ValueOf(out.x.data)).1
  }

  // Without a time limit, and with no callback but the one for outputs.
  predicate Printing<V>(h: Host<V>, lim: Limits) {
    && !(h.cpu.stepping && Stepping(h.hooks, lim)) && !lim.timed && h.hooks.ioOut.Some?
    && Bare(h.hooks.(ioOut := None))
  }

  lemma OutputTurn<V>(h: Host<V>, lim: Limits, p: Progress<V>, turn: nat)
    requires Printing(h, lim) && !p.s.stop && p.exit.None? && p.ret == 0
    ensures var (u, out) := h.cpu.run(p.s.v);
      var q := ExitTurn(h, lim, p, turn);
      && q.executed == p.executed && q.head == p.head
      && (out.Exits? && out.x.Out? ==>
            var (w, asked) := h.hooks.ioOut.value(u, out.x.port, |out.x.data|, ValueOf(out.x.data));
            q.s == State(w, asked) && q.exit.None? && q.ret == 0)
      && (out.Exits? && !out.x.Out? ==>
            q.s == State(u, false) && q.exit == Some(Placed(Unserved(out.x), h.cpu.pc(p.s.v))) && q.ret == 0)
  {
  }

  lemma {:induction false} AllPrinted<V>(h: Host<V>, lim: Limits, turn: Turns<V>, v: V, n: nat)
    requires Printing(h, lim) && Outputs(h, h.hooks.ioOut.value, v, n) && turn == Exiter(h, lim)
    ensures Repeated(turn, Start(State(v, false)), n) == Start(State(Printed(h.cpu.run, h.hooks.ioOut.value, v, n), false))
  {
    if n > 0 {
      AllPrinted(h, lim, turn, v, n - 1);
      OutputTurn(h, lim, Start(State(Printed(h.cpu.run, h.hooks.ioOut.value, v, n - 1), false)), n - 1);
    }
  }

  /** A run that hands n outputs to their callback and then comes back for something else leaves what running and
      handing over n times and running once more leaves, and reports that exit. */
  lemma PrintedRun<V>(h: Host<V>, lim: Limits, v: V, n: nat, turns: nat, x: VcpuExit)
    requires Printing(h, lim) && Outputs(h, h.hooks.ioOut.value, v, n) && turns > n && !x.Out?
    requires h.cpu.run(Printed(h.cpu.run, h.hooks.ioOut.value, v, n)).1 == Outcome.Exits(x)
    ensures var u := Printed(h.cpu.run, h.hooks.ioOut.value, v, n);
      EndsAt(Driven(h, lim, State(v, false), turns), h.cpu.run(u).0, Placed(Unserved(x), h.cpu.pc(u)), 0, 0)
  {
    var turn, u := Exiter(h, lim), Printed(h.cpu.run, h.hooks.ioOut.value, v, n);
    AllPrinted(h, lim, turn, v, n);
    OutputTurn(h, lim, Start(State(u, false)), n);
    LastTurn(turn, Start(State(v, false)), n, turns, h.cpu.run(u).0, Placed(Unserved(x), h.cpu.pc(u)), 0, 0);
  }

  // ---- The engine itself -------------------------------------------------------------------

  /** The engine, run for a count of n, holds what n steps leave and reports n. */
  method RunCounted<V(!new)>(e: Engine<V>, h: Host<V>, lim: Limits, ghost start: V)
    requires h.cpu.stepping && Begun(h, lim, e.vcpu) == Some(start) && lim.count > 0
    requires Unhindered(h, lim, start, lim.count)
    requires lim.until != Some(h.cpu.pc(Executed(h.cpu.step, start, lim.count)))
    modifies e
    ensures e.vcpu == Executed(h.cpu.step, start, lim.count) && !e.running
    ensures e.lastExit == Stop(Count).(address := h.cpu.pc(e.vcpu), value := lim.count)
  {
    CountedRun(h, lim, start, lim.count, lim.count + 1);
    var ended, ret, executed := e.Run(h, lim, lim.count + 1, false);
  }
}
