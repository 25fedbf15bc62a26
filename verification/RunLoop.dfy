/**
 The run loop of the C API: stepping or running a vCPU between callbacks that may do anything, until a
 stop condition.  The vCPU and the callbacks are arbitrary functions; a run is followed for any number of
 turns.
 */
module RunLoop {
  import opened Common
  import opened Dma
  import opened RunModel

  // What happened, with the stop flag before and after.
  datatype Event =
    | Called(before: bool, after: bool)
    | Stepped(before: bool, after: bool, top: nat, at: nat)
    | Ran(before: bool, after: bool)

  predicate Executes(e: Event) { e.Stepped? || e.Ran? }

  // ---- What every run keeps ----------------------------------------------------------------

  // A run to watch: the address it must not step, and whether the block and code hooks leave PC alone.
  datatype Watch = Watch(until: Option<nat>, still: bool)

  // No event takes the stop flag back and every instruction runs with it clear; none is stepped in a turn
  // that began at `until`, and where hooks leave PC alone it is stepped where the turn began.
  predicate SafeEvent(e: Event, w: Watch) {
    && (e.before ==> e.after) && (Executes(e) ==> !e.before)
    && (e.Stepped? && w.until.Some? ==> e.top != w.until.value)
    && (e.Stepped? && w.still ==> e.at == e.top)
  }

  // A log of safe events that carry the flag from one to the next, clear at first and `flag` at the end.
  ghost predicate Tracks(log: seq<Event>, flag: bool, w: Watch) {
    if log == [] then !flag
    else
      var last := log[|log| - 1];
      last.after == flag && SafeEvent(last, w) && Tracks(log[..|log| - 1], last.before, w)
  }

  function StepsIn(log: seq<Event>): nat {
    if log == [] then 0 else StepsIn(log[..|log| - 1]) + if log[|log| - 1].Stepped? then 1 else 0
  }

  ghost predicate HookLeavesPc<V(!new)>(cpu: Cpu<V>, hook: RangeHook<V>) {
    forall v, pc :: cpu.pc(hook.cb(v, pc).0) == cpu.pc(v)
  }

  ghost predicate LeavesPc<V(!new)>(cpu: Cpu<V>, hooks: seq<RangeHook<V>>) {
    forall i :: 0 <= i < |hooks| ==> HookLeavesPc(cpu, hooks[i])
  }

  // Any prefix of a log is one that ended with the flag its next event found.
  lemma {:induction false} TracksPrefix(log: seq<Event>, flag: bool, w: Watch, i: nat)
    requires Tracks(log, flag, w) && i < |log|
    ensures Tracks(log[..i], log[i].before, w) && SafeEvent(log[i], w)
    ensures (if i + 1 < |log| then log[i + 1].before else flag) == log[i].after
  {
    if i < |log| - 1 {
      var init := log[..|log| - 1];
      TracksPrefix(init, log[|log| - 1].before, w, i);
      assert init[..i] == log[..i];
    }
  }

  lemma {:induction false} StopIsFinal(log: seq<Event>, flag: bool, w: Watch, i: nat, j: nat)
    requires Tracks(log, flag, w) && i < j < |log| && log[i].after
    ensures log[j].before
  {
    TracksPrefix(log, flag, w, j - 1);
    if j > i + 1 {
      StopIsFinal(log, flag, w, i, j - 1);
    }
  }

  /** Once the stop flag is set, by whatever callback, no instruction runs for the rest of the run. */
  lemma NothingAfterStop(log: seq<Event>, flag: bool, w: Watch, i: nat, j: nat)
    requires Tracks(log, flag, w) && i < j < |log| && log[i].after
    ensures !Executes(log[j])
  {
    StopIsFinal(log, flag, w, i, j);
    TracksPrefix(log, flag, w, j);
  }

  /** Where hooks leave PC alone, the instruction at `until` is never stepped. */
  lemma UntilNotStepped(log: seq<Event>, flag: bool, until: nat, i: nat)
    requires Tracks(log, flag, Watch(Some(until), true)) && i < |log| && log[i].Stepped?
    ensures log[i].at != until
  {
    TracksPrefix(log, flag, Watch(Some(until), true), i);
  }

  lemma TracksNext(log: seq<Event>, w: Watch, e: Event)
    requires Tracks(log, e.before, w) && SafeEvent(e, w)
    ensures Tracks(log + [e], e.after, w)
    ensures StepsIn(log + [e]) == StepsIn(log) + if e.Stepped? then 1 else 0
  {
    assert (log + [e])[..|log|] == log;
  }

  // ---- The engine --------------------------------------------------------------------------

  class Engine<V(!new)> {
    var vcpu: V
    var stop: bool
    var running: bool
    var lastExit: Exit
    ghost var log: seq<Event>

    constructor (v: V)
      ensures vcpu == v && !stop && !running && lastExit == Stop(NoStop) && log == []
    {
      vcpu, stop, running, lastExit, log := v, false, false, Stop(NoStop), [];
    }

    function Now(): State<V>
      reads `vcpu, `stop
    {
      State(vcpu, stop)
    }

    // The log ends with the flag and counts these steps.
    ghost predicate Tracked(w: Watch, steps: nat)
      reads `log, `stop
    {
      Tracks(log, stop, w) && StepsIn(log) == steps
    }

    // Record an event that moved the flag to e.after.
    ghost method Note(e: Event, w: Watch, steps: nat)
      requires Tracks(log, e.before, w) && StepsIn(log) == steps && stop == e.after && SafeEvent(e, w)
      modifies `log
      ensures |log| == |old(log)| + 1 && Tracked(w, if e.Stepped? then steps + 1 else steps)
    {
      TracksNext(log, w, e);
      log := log + [e];
    }

    // A callback left this state and may have asked to stop.
    method Returned(v: V, asked: bool, ghost w: Watch, ghost steps: nat)
      requires Tracked(w, steps)
      modifies `vcpu, `stop, `log
      ensures Tracked(w, steps) && Now() == old(Now()).Then(v, asked) && |log| == |old(log)| + 1
    {
      ghost var before := stop;
      vcpu := v;
      stop := stop || asked;
      Note(Called(before, stop), w, steps);
    }

    // The checks at the top of a stepping turn, in order.
    method Check(h: Host<V>, lim: Limits, pc: nat, executed: nat, turn: nat) returns (exit: Option<Exit>)
      ensures exit == Checked(h, lim, turn, pc, executed, stop)
    {
      if stop {
        return Some(Stop(Stopped).(address := pc));
      }
      if lim.until == Some(pc) {
        return Some(Stop(Until).(address := pc));
      }
      if lim.count != 0 && executed >= lim.count {
        return Some(Stop(Count).(address := pc, value := executed));
      }
      if lim.timed && h.late(turn) {
        return Some(Stop(Timeout).(address := pc, value := executed));
      }
      exit := None;
    }

    // Every hook whose range holds pc, even after one of them asked to stop.
    method Fire(cpu: Cpu<V>, hooks: seq<RangeHook<V>>, pc: nat, ghost w: Watch, ghost steps: nat)
      requires Tracked(w, steps) && (w.still ==> LeavesPc(cpu, hooks))
      modifies `vcpu, `stop, `log
      ensures Tracked(w, steps) && Now() == Fired(hooks, pc, old(Now()), |hooks|)
      ensures w.still ==> cpu.pc(vcpu) == old(cpu.pc(vcpu))
    {
      for i := 0 to |hooks|
        invariant Tracked(w, steps) && Now() == Fired(hooks, pc, old(Now()), i)
        invariant w.still ==> cpu.pc(vcpu) == old(cpu.pc(vcpu))
      {
        if hooks[i].Matches(pc) {
          var (v, asked) := hooks[i].cb(vcpu, pc);
          assert w.still ==> HookLeavesPc(cpu, hooks[i]);
          Returned(v, asked, w, steps);
        }
      }
    }

    // Block hooks when a block begins, then code hooks; a stop asked for is seen before the step.
    method Announce(h: Host<V>, pc: nat, blockPending: bool, ghost w: Watch, ghost steps: nat) returns (go: bool)
      requires Tracked(w, steps) && !stop && h.cpu.pc(vcpu) == pc
      requires w.still ==> LeavesPc(h.cpu, h.hooks.block) && LeavesPc(h.cpu, h.hooks.code)
      modifies `vcpu, `stop, `log
      ensures Tracked(w, steps) && Now() == Announced(h.hooks, pc, blockPending, old(Now()))
      ensures go == !stop && (go && w.still ==> h.cpu.pc(vcpu) == pc)
    {
      if blockPending {
        Fire(h.cpu, h.hooks.block, pc, w, steps);
        if stop {
          return false;
        }
      }
      Fire(h.cpu, h.hooks.code, pc, w, steps);
      go := !stop;
    }

    // Each access of the last instruction, to each hook that wants it.
    method FireMem(hooks: seq<MemHook<V>>, records: seq<Record>, ghost w: Watch, ghost steps: nat)
      requires Tracked(w, steps)
      modifies `vcpu, `stop, `log
      ensures Tracked(w, steps) && Now() == NotedAll(hooks, records, old(Now()), |records|)
    {
      for i := 0 to |records|
        invariant Tracked(w, steps) && Now() == NotedAll(hooks, records, old(Now()), i)
      {
        ghost var s := Now();
        for j := 0 to |hooks|
          invariant Tracked(w, steps) && Now() == Noted(hooks, records[i], s, j)
        {
          if hooks[j].Matches(records[i]) {
            var (v, asked) := hooks[j].cb(vcpu, records[i]);
            Returned(v, asked, w, steps);
          }
        }
      }
    }

    // One instruction, when the flag is clear; pc is where the turn began.
    method StepOnce(h: Host<V>, pc: nat, ghost w: Watch, ghost steps: nat) returns (out: Outcome)
      requires Tracked(w, steps) && !stop && w.until != Some(pc) && (w.still ==> h.cpu.pc(vcpu) == pc)
      modifies `vcpu, `stop, `log
      ensures Tracked(w, steps + 1) && (Now(), out) == Instructed(h, old(Now()))
    {
      ghost var at := h.cpu.pc(vcpu);
      var (v, o) := h.cpu.step(vcpu);
      vcpu, out := v, o;
      Note(Stepped(stop, stop, pc, at), w, steps);
      if h.hooks.mem != [] {
        var (u, records) := h.cpu.drain(vcpu);
        vcpu := u;
        FireMem(h.hooks.mem, records, w, steps + 1);
      }
    }

    // A string input asks for every value, even after a request to stop, and completes them together.
    method InputString(cb: (V, nat, nat) -> (V, bool, nat), port: nat, size: nat, count: nat, ghost w: Watch, ghost steps: nat)
      returns (buf: seq<byte>)
      requires Tracked(w, steps)
      modifies `vcpu, `stop, `log
      ensures Tracked(w, steps) && |buf| == count * Min(size, 8) && |log| == |old(log)| + count
      ensures (Now(), buf) == Gathered(cb, port, size, old(Now()), count)
    {
      buf := [];
      for i := 0 to count
        invariant Tracked(w, steps) && |buf| == i * Min(size, 8) && |log| == |old(log)| + i
        invariant (Now(), buf) == Gathered(cb, port, size, old(Now()), i)
      {
        var (v, asked, value) := cb(vcpu, port, size);
        Returned(v, asked, w, steps);
        buf := buf + Low(value, size);
      }
    }

    // Input of any kind.
    method Input(cpu: Cpu<V>, cb: (V, nat, nat) -> (V, bool, nat), at: nat, size: nat, ghost w: Watch, ghost steps: nat)
      requires Tracked(w, steps)
      modifies `vcpu, `stop, `log
      ensures Tracked(w, steps) && |log| == |old(log)| + 1 && Now() == Entered(cpu, cb, at, size, old(Now()))
    {
      var (v, asked, value) := cb(vcpu, at, size);
      Returned(v, asked, w, steps);
      vcpu := cpu.complete(vcpu, Low(value, size));
    }

    // Hand an exit to the callback for it: the run goes on exactly when there is one.
    method Dispatch(h: Host<V>, x: VcpuExit, ghost w: Watch, ghost steps: nat) returns (action: Action)
      requires Tracked(w, steps)
      modifies `vcpu, `stop, `log
      ensures Tracked(w, steps)
      ensures action == if Served(h.hooks, x) then Continue else Halt(Unserved(x))
      ensures Now() == Dispatched(h, x, old(Now())) && (!Served(h.hooks, x) ==> log == old(log))
      ensures Served(h.hooks, x) ==> |log| == |old(log)| + if x.InString? then x.count else 1
    {
      if !Served(h.hooks, x) {
        return Halt(Unserved(x));
      }
      action := Continue;
      match x
      case In(port, size) => Input(h.cpu, h.hooks.ioIn.value, port, size, w, steps);
      case InString(port, size, count) =>
        var buf := InputString(h.hooks.ioIn.value, port, size, count, w, steps);
        vcpu := h.cpu.complete(vcpu, buf);
      case Out(port, data) =>
        var (v, asked) := h.hooks.ioOut.value(vcpu, port, |data|, ValueOf(data));
        Returned(v, asked, w, steps);
      case ReadMmio(addr, size) => Input(h.cpu, h.hooks.mmioRead.value, addr, size, w, steps);
      case WriteMmio(addr, data) =>
        var (v, asked) := h.hooks.mmioWrite.value(vcpu, addr, |data|, ValueOf(data));
        Returned(v, asked, w, steps);
      case Raised(vector) =>
        var (v, asked) := h.hooks.intr.value(vcpu, vector);
        Returned(v, asked, w, steps);
    }

    // What to make of a step or run that has come back.
    method Settle(h: Host<V>, out: Outcome, pc: nat, ghost w: Watch, ghost steps: nat)
      returns (exit: Option<Exit>, ret: int)
      requires Tracked(w, steps)
      modifies `vcpu, `stop, `log
      ensures Tracked(w, steps)
      ensures Verdict(Now(), exit, ret) == Settled(h, out, pc, old(Now()))
    {
      exit, ret := None, 0;
      match out
      case Quiet =>
      case Exits(x) =>
        var action := Dispatch(h, x, w, steps);
        if action.Halt? {
          exit := Some(Placed(action.info, pc));
        }
      case Fails(status) =>
        if h.hooks.invalid.Some? {
          var (v, asked, handled) := h.hooks.invalid.value(vcpu, pc);
          Returned(v, asked, w, steps);
          if handled {
            return;
          }
        }
        exit, ret := Some(Stop(Error).(address := pc, status := status)), status;
    }

    // The same, in terms of what the loops need of it.
    method Resolve(h: Host<V>, out: Outcome, pc: nat, ghost w: Watch, ghost steps: nat)
      returns (exit: Option<Exit>, ret: int)
      requires Tracked(w, steps)
      modifies `vcpu, `stop, `log
      ensures Tracked(w, steps) && Verdict(Now(), exit, ret) == Settled(h, out, pc, old(Now()))
      ensures if exit.Some? then FromVcpu(exit.value.reason) else ret == 0
    {
      exit, ret := Settle(h, out, pc, w, steps);
    }

    // The run has come this far.
    ghost predicate Came(p: Progress<V>, exit: Option<Exit>, ret: int, executed: nat)
      reads `vcpu, `stop
    {
      p.s == Now() && p.exit == exit && p.ret == ret && p.executed == executed
    }

    // The reason reported for the end of a run is so.
    ghost predicate Truthful(h: Host<V>, lim: Limits, exit: Exit, executed: nat)
      reads this
    {
      && exit.reason != NoStop && exit.reason != Interrupt
      && (exit.reason == Stopped ==> stop)
      && (exit.reason == Until ==> lim.until == Some(exit.address) && h.cpu.pc(vcpu) == exit.address)
      && (exit.reason == Count ==> executed == lim.count > 0)
      && (exit.reason == Timeout ==> lim.timed && exists turn :: h.late(turn))
    }

    // A turn of the stepping loop in which no stop condition held at the top.
    method Advance(h: Host<V>, lim: Limits, pc: nat, blockPending: bool, before: nat, ghost w: Watch)
      returns (exit: Option<Exit>, ret: int, executed: nat, pending: bool)
      requires Tracked(w, before) && !stop && h.cpu.pc(vcpu) == pc && w.until == lim.until != Some(pc)
      requires w.still ==> LeavesPc(h.cpu, h.hooks.block) && LeavesPc(h.cpu, h.hooks.code)
      modifies `vcpu, `stop, `log
      ensures Tracked(w, executed) && before <= executed <= before + 1 && (exit.None? ==> executed == before + 1)
      ensures if exit.Some? then Truthful(h, lim, exit.value, executed) else ret == 0
      ensures Progress(Now(), exit, ret, executed, pending) == Advanced(h, pc, Progress(old(Now()), None, 0, before, blockPending))
    {
      ret, executed, pending := 0, before, false;
      var go := Announce(h, pc, blockPending, w, executed);
      if !go {
        exit := Some(Stop(Stopped).(address := pc));
        return;
      }
      var out := StepOnce(h, pc, w, executed);
      executed := executed + 1;
      exit, ret := Resolve(h, out, pc, w, executed);
      if exit.None? && !out.Fails? && (h.cpu.pc(vcpu) < pc || h.cpu.pc(vcpu) > (pc + 15) % TWO64) {
        pending := true;
      }
    }

    // One turn of the stepping loop.
    method StepTurn(h: Host<V>, lim: Limits, turn: nat, blockPending: bool, before: nat, ghost w: Watch, ghost turned: Turns<V>)
      returns (exit: Option<Exit>, ret: int, executed: nat, pending: bool)
      requires Tracked(w, before) && w.until == lim.until && (lim.count != 0 ==> before <= lim.count)
      requires w.still ==> LeavesPc(h.cpu, h.hooks.block) && LeavesPc(h.cpu, h.hooks.code)
      requires StepsAs(turned, h, lim)
      modifies `vcpu, `stop, `log
      ensures Tracked(w, executed) && (lim.count != 0 ==> executed <= lim.count)
      ensures if exit.Some? then Truthful(h, lim, exit.value, executed) else ret == 0 && executed == before + 1
      ensures Progress(Now(), exit, ret, executed, pending) == turned(Progress(old(Now()), None, 0, before, blockPending), turn)
    {
      assert Looked(Progress(Now(), None, 0, before, blockPending), turn);
      ret, executed, pending := 0, before, blockPending;
      var pc := h.cpu.pc(vcpu);
      exit := Check(h, lim, pc, executed, turn);
      if exit.Some? {
        return;
      }
      exit, ret, executed, pending := Advance(h, lim, pc, blockPending, before, w);
    }

    // The stepping loop, for at most `turns` turns: the exit it reaches, if it does.
    method StepLoop(h: Host<V>, lim: Limits, turns: nat, ghost w: Watch, ghost turned: Turns<V>)
      returns (exit: Option<Exit>, ret: int, executed: nat)
      requires Tracked(w, 0) && w.until == lim.until && StepsAs(turned, h, lim)
      requires w.still ==> LeavesPc(h.cpu, h.hooks.block) && LeavesPc(h.cpu, h.hooks.code)
      modifies `vcpu, `stop, `log
      ensures Tracked(w, executed) && (lim.count != 0 ==> executed <= lim.count)
      ensures if exit.Some? then Truthful(h, lim, exit.value, executed) else executed == turns
      ensures Came(Repeated(turned, Start(old(Now())), turns), exit, ret, executed)
    {
      exit, ret, executed := None, 0, 0;
      var blockPending := true;
      ghost var start := Start(Now());
      for turn := 0 to turns
        invariant Progress(Now(), None, 0, executed, blockPending) == Repeated(turned, start, turn)
        invariant exit.None? && ret == 0 && executed == turn && Tracked(w, executed) && (lim.count != 0 ==> executed <= lim.count)
      {
        exit, ret, executed, blockPending := StepTurn(h, lim, turn, blockPending, executed, w, turned);
        if exit.Some? {
          Stays(turned, start, turn + 1, turns);
          return;
        }
      }
    }

    // One turn of running from exit to exit.
    method ExitOnce(h: Host<V>, lim: Limits, turn: nat, ghost w: Watch, ghost turned: Turns<V>)
      returns (exit: Option<Exit>, ret: int)
      requires Tracked(w, 0) && ExitsAs(turned, h, lim)
      modifies `vcpu, `stop, `log
      ensures Tracked(w, 0) && Progress(Now(), exit, ret, 0, true) == turned(Start(old(Now())), turn)
      ensures exit.None? ==> ret == 0
      ensures exit.Some? ==> Truthful(h, lim, exit.value, 0) && exit.value.reason != Count && exit.value.reason != Until
    {
      assert Looked(Start(Now()), turn);
      if stop {
        return Some(Stop(Stopped)), 0;
      }
      if lim.timed && h.late(turn) {
        return Some(Stop(Timeout)), 0;
      }
      var pc := h.cpu.pc(vcpu);
      var (v, out) := h.cpu.run(vcpu);
      vcpu := v;
      Note(Ran(stop, stop), w, 0);
      exit, ret := Resolve(h, out, pc, w, 0);
    }

    // Running from exit to exit, for at most `turns` turns.
    method ExitLoop(h: Host<V>, lim: Limits, turns: nat, ghost w: Watch, ghost turned: Turns<V>)
      returns (exit: Option<Exit>, ret: int)
      requires Tracked(w, 0) && ExitsAs(turned, h, lim)
      modifies `vcpu, `stop, `log
      ensures Tracked(w, 0) && Came(Repeated(turned, Start(old(Now())), turns), exit, ret, 0)
      ensures exit.Some? ==> Truthful(h, lim, exit.value, 0) && exit.value.reason != Count && exit.value.reason != Until
    {
      exit, ret := None, 0;
      ghost var start := Start(Now());
      for turn := 0 to turns
        invariant exit.None? && ret == 0 && Tracked(w, 0) && Start(Now()) == Repeated(turned, start, turn)
      {
        exit, ret := ExitOnce(h, lim, turn, w, turned);
        if exit.Some? {
          Stays(turned, start, turn + 1, turns);
          return;
        }
      }
    }

    // Step by step when something has to happen between instructions and the vCPU can; else exit to exit.
    method Drive(h: Host<V>, lim: Limits, turns: nat, ghost w: Watch)
      returns (exit: Option<Exit>, ret: int, executed: nat)
      requires Tracked(w, 0) && w.until == lim.until
      requires w.still ==> LeavesPc(h.cpu, h.hooks.block) && LeavesPc(h.cpu, h.hooks.code)
      modifies `vcpu, `stop, `log
      ensures Tracked(w, executed) && (lim.count != 0 ==> executed <= lim.count)
      ensures exit.Some? ==> Truthful(h, lim, exit.value, executed)
      ensures !(h.cpu.stepping && Stepping(h.hooks, lim)) ==> executed == 0
      ensures !(h.cpu.stepping && Stepping(h.hooks, lim)) && exit.Some? ==>
        exit.value.reason != Count && exit.value.reason != Until
      ensures h.cpu.stepping && Stepping(h.hooks, lim) && exit.None? ==> executed == turns
      ensures Came(Driven(h, lim, old(Now()), turns), exit, ret, executed)
    {
      if h.cpu.stepping && Stepping(h.hooks, lim) {
        exit, ret, executed := StepLoop(h, lim, turns, w, Stepper(h, lim));
      } else {
        exit, ret := ExitLoop(h, lim, turns, w, Exiter(h, lim));
        executed := 0;
      }
    }

    // The end of a run.
    method Conclude(exit: Exit, executed: nat)
      modifies `lastExit, `running
      ensures lastExit == Reported(exit, executed) && !running
    {
      lastExit := if Control(exit.reason) then exit.(value := executed) else exit;
      running := false;
    }

    // The flags of a new run, and PC if the caller sets it.
    method Begin(h: Host<V>, lim: Limits) returns (ok: bool)
      modifies this
      ensures log == [] && lastExit == Stop(NoStop) && !stop && running && ok == Begun(h, lim, old(vcpu)).Some?
      ensures ok ==> vcpu == Begun(h, lim, old(vcpu)).value
    {
      log := [];
      lastExit, stop, running, ok := Stop(NoStop), false, true, true;
      if lim.begin.Some? {
        var v := h.cpu.setPc(vcpu, lim.begin.value);
        if v.None? {
          return false;
        }
        vcpu := v.value;
      }
    }

    /** A whole run, followed for any number of turns.  Its log is safe from the cleared flag on;
        in stepping mode with a count there are at most that many steps, and more turns than that end it; a run that ends is no longer
        running, the reason it reports is so, and when a control stop ended it the value reported is the
        number of steps.  A backend that cannot step makes no step and never stops for the count or for
        `until`, whatever they are. */
    method Run(h: Host<V>, lim: Limits, turns: nat, ghost still: bool)
      returns (ended: bool, ret: int, executed: nat)
      requires still ==> LeavesPc(h.cpu, h.hooks.block) && LeavesPc(h.cpu, h.hooks.code)
      modifies this
      ensures Tracks(log, stop, Watch(lim.until, still)) && executed == StepsIn(log)
      ensures lim.count != 0 ==> executed <= lim.count
      ensures h.cpu.stepping && Stepping(h.hooks, lim) && !ended ==> executed == turns
      ensures h.cpu.stepping && lim.count != 0 && turns > lim.count ==> ended
      ensures ended ==> !running
      ensures ended && Control(lastExit.reason) ==> lastExit.value == executed
      ensures !h.cpu.stepping ==> executed == 0 && lastExit.reason != Count && lastExit.reason != Until
      ensures Begun(h, lim, old(vcpu)).Some? ==>
        var p := Driven(h, lim, State(Begun(h, lim, old(vcpu)).value, false), turns);
        && Now() == p.s && executed == p.executed && ret == p.ret && ended == p.exit.Some?
        && (ended ==> lastExit == Reported(p.exit.value, executed) && Truthful(h, lim, lastExit, executed))
    {
      var ok := Begin(h, lim);
      if !ok {
        running := false;
        return true, -1, 0;
      }
      var exit;
      exit, ret, executed := Drive(h, lim, turns, Watch(lim.until, still));
      ended := exit.Some?;
      if ended {
        Conclude(exit.value, executed);
      }
    }
  }
}
