/**
 IA-PC HPET: a main counter modulo 2^64 and three comparators.

 The device never advances its counter tick by tick.  It samples the counter now and then and
 works out in closed form which comparators were passed on the way, re-arming periodic ones past
 the sample.  `Clock` is the hardware it stands for: one tick at a time, comparing after each.
 Section 2.3.9.2.2 of the IA-PC HPET Specification 1.0a describes the periodic re-arm.
 */
module Hpet {
  import opened Arith
  import opened Common

  const NUM_TIMERS := 3
  // Timer configuration bits; nothing above bit 15 is ever stored.
  const TN_INT_ENB: bv16 := 0x4
  const TN_TYPE: bv16 := 0x8
  const TN_VAL_SET: bv16 := 0x40
  // Capability bits: periodic (4), 64-bit (5) and FSB delivery (15).
  const TN_CAPS: bv16 := 0x8030

  function WrapAdd(a: u64, b: int): u64 { (a + b) % TWO64 }

  // How far the counter moved, going up from `prev` to `now` modulo 2^64.
  function Advance(prev: u64, now: u64): u64 {
    if now >= prev then now - prev else now - prev + TWO64
  }

  datatype Timer = Timer(config: bv16, comparator: u64, period: u64, fsbRoute: u64) {
    predicate Enabled() { config & TN_INT_ENB != 0 }
    predicate IsPeriodic() { config & TN_TYPE != 0 }
    predicate Rearms() { IsPeriodic() && period != 0 }
  }

  // A comparator together with its bit of the interrupt status register.
  datatype Cell = Cell(timer: Timer, pending: bool)

  // ---- The source's closed forms -----------------------------------------------------------

  predicate Crossed(prev: u64, now: u64, target: u64) {
    if now >= prev then prev < target <= now else target > prev || target <= now
  }

  function PeriodicRearmAfter(comparator: u64, period: u64, now: u64): (next: u64)
    requires period != 0
  {
    var elapsed := Advance(comparator, now);
    var periods := elapsed / period + 1;
    WrapAdd(comparator, (periods * period) % TWO64)
  }

  function SampleCell(x: Cell, prev: u64, now: u64): Cell {
    var t := x.timer;
    if !t.Enabled() || !Crossed(prev, now, t.comparator) then x
    else if !t.Rearms() then Cell(t, true)
    else Cell(t.(comparator := PeriodicRearmAfter(t.comparator, t.period, now)), true)
  }

  // ---- The hardware, one tick at a time ----------------------------------------------------

  // A comparator's response to the counter having just reached `counter`.
  function ClockCell(x: Cell, counter: u64): Cell {
    var t := x.timer;
    if !t.Enabled() || counter != t.comparator then x
    else if !t.Rearms() then Cell(t, true)
    else Cell(t.(comparator := WrapAdd(t.comparator, t.period)), true)
  }

  function ClockedCell(x: Cell, from: u64, n: nat): Cell {
    if n == 0 then x else ClockCell(ClockedCell(x, from, n - 1), WrapAdd(from, n))
  }

  datatype Board = Board(counter: u64, cells: seq<Cell>)

  function Clock(b: Board): Board {
    var c := WrapAdd(b.counter, 1);
    Board(c, seq(|b.cells|, i requires 0 <= i < |b.cells| => ClockCell(b.cells[i], c)))
  }

  function Clocked(b: Board, n: nat): Board {
    if n == 0 then b else Clock(Clocked(b, n - 1))
  }

  // ---- One comparator: the closed form is the clock ----------------------------------------

  // The crossing window is exactly "1 to n ticks ahead", wrap-around included.
  lemma CrossedIffWithinAdvance(prev: u64, now: u64, target: u64)
    ensures Crossed(prev, now, target) <==> 1 <= Advance(prev, target) <= Advance(prev, now)
  {
  }

  lemma WrapAddIsAhead(from: u64, n: u64)
    ensures Advance(from, WrapAdd(from, n)) == n
  {
  }

  lemma AdvanceLands(from: u64, now: u64)
    ensures WrapAdd(from, Advance(from, now)) == now
  {
  }

  lemma WrapAddTwice(a: u64, j: int, k: int)
    ensures WrapAdd(WrapAdd(a, j), k) == WrapAdd(a, j + k)
  {
  }

  lemma AdvanceFromTarget(from: u64, target: u64, n: u64)
    requires Advance(from, target) <= n
    ensures Advance(target, WrapAdd(from, n)) == n - Advance(from, target)
  {
  }

  lemma PeriodicRearmIs(comparator: u64, period: u64, now: u64)
    requires period != 0
    ensures PeriodicRearmAfter(comparator, period, now)
         == WrapAdd(comparator, (Advance(comparator, now) / period + 1) * period)
  {
    ModInner(comparator, (Advance(comparator, now) / period + 1) * period);
  }

  lemma ModInner(a: int, k: int)
    ensures (a + k % TWO64) % TWO64 == (a + k) % TWO64
  {
  }

  // A match fewer than 2^64 ticks past tick n is at tick n only when it is 0 ticks past it.
  lemma NextMatch(from: u64, target: u64, n: u64, k: nat)
    requires n - Advance(from, target) <= k < n - Advance(from, target) + TWO64
    ensures WrapAdd(target, k) == WrapAdd(from, n) <==> k == n - Advance(from, target)
  {
  }

  // The re-arm past tick n, counted in periods from the comparator.
  lemma RearmPast(from: u64, c: u64, p: u64, n: u64)
    requires p != 0 && Advance(from, c) <= n
    ensures PeriodicRearmAfter(c, p, WrapAdd(from, n)) == WrapAdd(c, ((n - Advance(from, c)) / p + 1) * p)
  {
    PeriodicRearmIs(c, p, WrapAdd(from, n));
    AdvanceFromTarget(from, c, n);
  }

  // The re-arm past tick n - 1, clocked once more, is the re-arm past tick n.
  lemma RearmStep(from: u64, c: u64, p: u64, n: u64)
    requires p != 0 && 1 <= Advance(from, c) < n
    ensures
      var before := PeriodicRearmAfter(c, p, WrapAdd(from, n - 1));
      PeriodicRearmAfter(c, p, WrapAdd(from, n))
        == if before == WrapAdd(from, n) then WrapAdd(before, p) else before
  {
    var e: nat := n - 1 - Advance(from, c);
    RearmPast(from, c, p, n);
    RearmPast(from, c, p, n - 1);
    DivStep(e, p);
    var q := e / p + 1;
    var k: nat := q * p;
    NextMatch(from, c, n, k);
    assert (q + 1) * p == k + p;
    WrapAddTwice(c, k, p);
  }

  lemma RearmFirst(c: u64, p: u64)
    requires p != 0
    ensures PeriodicRearmAfter(c, p, c) == WrapAdd(c, p)
  {
    PeriodicRearmIs(c, p, c);
    assert 0 / p == 0;
  }

  /** Sampling a comparator after n ticks, for any n below 2^64, leaves what n single ticks leave. */
  lemma {:induction false} SampleCellIsClocked(x: Cell, from: u64, n: u64)
    ensures ClockedCell(x, from, n) == SampleCell(x, from, WrapAdd(from, n))
  {
    var t := x.timer;
    WrapAddIsAhead(from, n);
    CrossedIffWithinAdvance(from, WrapAdd(from, n), t.comparator);
    if n > 0 {
      SampleCellIsClocked(x, from, n - 1);
      WrapAddIsAhead(from, n - 1);
      CrossedIffWithinAdvance(from, WrapAdd(from, n - 1), t.comparator);
      var d := Advance(from, t.comparator);
      if t.Enabled() && t.Rearms() && 1 <= d <= n {
        if d < n {
          RearmStep(from, t.comparator, t.period, n);
        } else {
          RearmFirst(t.comparator, t.period);
        }
      }
    }
  }

  /** After a sample a periodic comparator lies one to `period` ticks ahead of the counter, a whole
      number of periods past where it was. */
  lemma RearmIsNextMultiple(comparator: u64, period: u64, now: u64)
    requires period != 0
    ensures 1 <= Advance(now, PeriodicRearmAfter(comparator, period, now)) <= period
    ensures exists k: nat :: PeriodicRearmAfter(comparator, period, now) == WrapAdd(comparator, k * period)
  {
    var e := Advance(comparator, now);
    var q: nat := e / period + 1;
    PeriodicRearmIs(comparator, period, now);
    DivStep(e, period);
    AheadOfSample(comparator, now, q * period, period);
  }

  lemma AheadOfSample(from: u64, now: u64, k: nat, period: u64)
    requires Advance(from, now) < k <= Advance(from, now) + period
    ensures Advance(now, WrapAdd(from, k)) == k - Advance(from, now)
  {
  }

  // ---- Whole device ------------------------------------------------------------------------

  function SampleBoard(b: Board, now: u64): Board {
    Board(now, seq(|b.cells|, i requires 0 <= i < |b.cells| => SampleCell(b.cells[i], b.counter, now)))
  }

  lemma {:induction false} ClockedByCell(b: Board, n: nat)
    ensures Clocked(b, n).counter == WrapAdd(b.counter, n)
    ensures |Clocked(b, n).cells| == |b.cells|
    ensures forall i :: 0 <= i < |b.cells| ==> Clocked(b, n).cells[i] == ClockedCell(b.cells[i], b.counter, n)
  {
    if n > 0 {
      ClockedByCell(b, n - 1);
      WrapAddTwice(b.counter, n - 1, 1);
    }
  }

  /** The lazy device refines the clock: a sample at `now` leaves the comparators and status bits
      that stepping the counter up to `now` one tick at a time leaves. */
  lemma SampleRefinesClock(b: Board, now: u64)
    ensures SampleBoard(b, now) == Clocked(b, Advance(b.counter, now))
  {
    var n: u64 := Advance(b.counter, now);
    AdvanceLands(b.counter, now);
    ClockedByCell(b, n);
    forall i | 0 <= i < |b.cells|
      ensures ClockedCell(b.cells[i], b.counter, n) == SampleCell(b.cells[i], b.counter, now)
    {
      SampleCellIsClocked(b.cells[i], b.counter, n);
    }
    assert Clocked(b, n).cells == SampleBoard(b, now).cells;
  }

  lemma {:induction false} ClockedAdd(b: Board, m: nat, n: nat)
    ensures Clocked(Clocked(b, m), n) == Clocked(b, m + n)
  {
    if n > 0 {
      ClockedAdd(b, m, n - 1);
    }
  }

  function SampleAll(b: Board, steps: seq<u64>): Board {
    if steps == [] then b
    else
      var prior := SampleAll(b, steps[..|steps| - 1]);
      SampleBoard(prior, WrapAdd(prior.counter, steps[|steps| - 1]))
  }

  function Total(steps: seq<u64>): nat {
    if steps == [] then 0 else Total(steps[..|steps| - 1]) + steps[|steps| - 1]
  }

  /** How often the host polls does not matter: any schedule of samples, even one that wraps the
      counter many times over, ends where the clock ends. */
  lemma {:induction false} SamplingScheduleIrrelevant(b: Board, steps: seq<u64>)
    ensures SampleAll(b, steps) == Clocked(b, Total(steps))
  {
    if steps != [] {
      var init, last := steps[..|steps| - 1], steps[|steps| - 1];
      SamplingScheduleIrrelevant(b, init);
      var prior := SampleAll(b, init);
      SampleRefinesClock(prior, WrapAdd(prior.counter, last));
      WrapAddIsAhead(prior.counter, last);
      ClockedAdd(b, Total(init), last);
    }
  }

  /** Sampling on the way to `now` and then at `now` is sampling at `now` once. */
  lemma SampleTwice(b: Board, mid: u64, now: u64)
    requires Advance(b.counter, mid) <= Advance(b.counter, now)
    ensures SampleBoard(SampleBoard(b, mid), now) == SampleBoard(b, now)
  {
    SampleRefinesClock(b, mid);
    SampleRefinesClock(SampleBoard(b, mid), now);
    SampleRefinesClock(b, now);
    ClockedAdd(b, Advance(b.counter, mid), Advance(mid, now));
  }

  // ---- Register writes between samples -----------------------------------------------------

  // A comparator after the guest writes its comparator register: in periodic mode the interval
  // follows the write and the accumulator-load bit is spent.
  function WrittenTimer(t: Timer, value: u64): Timer {
    if t.IsPeriodic() then t.(period := value, comparator := value, config := t.config & !TN_VAL_SET)
    else t.(comparator := value)
  }

  lemma WriteKeepsMode(t: Timer, value: u64)
    ensures WrittenTimer(t, value).Enabled() == t.Enabled() && WrittenTimer(t, value).IsPeriodic() == t.IsPeriodic()
    ensures WrittenTimer(t, value).comparator == value && (t.IsPeriodic() ==> WrittenTimer(t, value).period == value)
  {
    KeptBits(t.config);
  }

  lemma KeptBits(c: bv16)
    ensures (c & !TN_VAL_SET) & TN_INT_ENB == c & TN_INT_ENB && (c & !TN_VAL_SET) & TN_TYPE == c & TN_TYPE
  {
  }

  // A comparator with its bit at p, written at counter `cur` though last sampled at `last`, is seen at the
  // sample `now` as hardware that ran up to the write and on from it would have it.
  ghost predicate WriteSeen(t: Timer, p: bool, last: u64, cur: u64, now: u64, value: u64) {
    var early := ClockedCell(Cell(t, p), last, Advance(last, cur)).pending;
    SampleCell(Cell(WrittenTimer(t, value), p), last, now)
      == ClockedCell(Cell(WrittenTimer(t, value), early), cur, Advance(cur, now))
  }

  // A periodic comparator at value that the device takes for crossed comes back to value at `now`.
  predicate ComesRound(w: Timer, value: u64, now: u64) {
    w.Rearms() ==> PeriodicRearmAfter(w.comparator, w.period, now) == value
  }

  /** A comparator written while the last sample lags the counter.  The device compares the new value against
      the window since the last sample, the hardware against the ticks still to come.  For one-shot and
      periodic timers, whatever the bit was, they agree exactly when this condition holds: a value already
      in the unsampled past fires, and re-arms, where hardware would wait, and a match still unsampled can
      be lost. */
  lemma LateComparatorWrite(t: Timer, p: bool, last: u64, cur: u64, now: u64, value: u64)
    requires Advance(last, cur) <= Advance(last, now)
    ensures WriteSeen(t, p, last, cur, now, value) <==>
      || !t.Enabled()
      || (&& (p || if Crossed(last, cur, t.comparator) then Crossed(last, now, value) else !Crossed(last, cur, value))
          && (Crossed(last, cur, value) ==> ComesRound(WrittenTimer(t, value), value, now)))
  {
    WriteKeepsMode(t, value);
    LaterWindow(last, cur, now, value);
    SampleCellIsClocked(Cell(t, p), last, Advance(last, cur));
    var early := ClockedCell(Cell(t, p), last, Advance(last, cur)).pending;
    SampleCellIsClocked(Cell(WrittenTimer(t, value), early), cur, Advance(cur, now));
  }

  lemma LaterWindow(last: u64, cur: u64, now: u64, value: u64)
    requires Advance(last, cur) <= Advance(last, now)
    ensures WrapAdd(last, Advance(last, cur)) == cur && WrapAdd(cur, Advance(cur, now)) == now
    ensures Crossed(cur, now, value) <==> Crossed(last, now, value) && !Crossed(last, cur, value)
  {
  }

  // When a write is seen rightly at every later sample: a condition on the timer and the three counters at
  // the time of the write.
  predicate SafeWrite(t: Timer, p: bool, last: u64, cur: u64, value: u64) {
    || !t.Enabled()
    || (&& (p || Crossed(last, cur, t.comparator) == Crossed(last, cur, value))
        && (Crossed(last, cur, value) ==> ComesRound(WrittenTimer(t, value), value, cur)))
  }

  // Coming round at one sample is coming round at every later one before the next wrap.
  lemma ComesRoundLater(value: u64, cur: u64, now: u64)
    requires value != 0 && Advance(value, cur) <= Advance(value, now)
    requires PeriodicRearmAfter(value, value, cur) == value
    ensures PeriodicRearmAfter(value, value, now) == value
  {
    var e: nat := Advance(value, cur);
    var q: nat := e / value + 1;
    PeriodicRearmIs(value, value, cur);
    DivStep(e, value);
    RoundOnce(value, q * value);
    PeriodicRearmIs(value, value, now);
    SamePeriod(e, Advance(value, now), value);
  }

  lemma RoundOnce(value: u64, k: nat)
    requires 0 < k < 2 * TWO64 && WrapAdd(value, k) == value
    ensures k == TWO64
  {
  }

  lemma SamePeriod(e: nat, f: nat, p: nat)
    requires p > 0 && e <= f < (e / p + 1) * p
    ensures f / p == e / p
  {
    var q: nat := e / p;
    assert (q + 1) * p == q * p + p;
    DivModUnique(e, p, q, e % p);
    DivModUnique(f, p, q, f - q * p);
  }

  lemma FurtherPast(last: u64, cur: u64, now: u64, value: u64)
    requires Advance(last, cur) <= Advance(last, now) && Crossed(last, cur, value)
    ensures Advance(value, cur) <= Advance(value, now)
  {
  }

  lemma StillRound(t: Timer, last: u64, cur: u64, now: u64, value: u64)
    requires Advance(last, cur) <= Advance(last, now) && Crossed(last, cur, value)
    requires ComesRound(WrittenTimer(t, value), value, cur)
    ensures ComesRound(WrittenTimer(t, value), value, now)
  {
    WriteKeepsMode(t, value);
    FurtherPast(last, cur, now, value);
    if WrittenTimer(t, value).Rearms() {
      ComesRoundLater(value, cur, now);
    }
  }

  lemma SafeLater(t: Timer, p: bool, last: u64, cur: u64, now: u64, value: u64)
    requires Advance(last, cur) <= Advance(last, now) && SafeWrite(t, p, last, cur, value)
    ensures WriteSeen(t, p, last, cur, now, value)
  {
    LateComparatorWrite(t, p, last, cur, now, value);
    LaterWindow(last, cur, now, value);
    if t.Enabled() && Crossed(last, cur, value) {
      StillRound(t, last, cur, now, value);
    }
  }

  /** Safe for every later sample if and only if safe by a test at the time of the write. */
  lemma SafeWriteExact(t: Timer, p: bool, last: u64, cur: u64, value: u64)
    ensures (forall now: u64 | Advance(last, cur) <= Advance(last, now) :: WriteSeen(t, p, last, cur, now, value))
        <==> SafeWrite(t, p, last, cur, value)
  {
    LateComparatorWrite(t, p, last, cur, cur, value);
    if SafeWrite(t, p, last, cur, value) {
      forall now: u64 | Advance(last, cur) <= Advance(last, now)
        ensures WriteSeen(t, p, last, cur, now, value)
      {
        SafeLater(t, p, last, cur, now, value);
      }
    }
  }

  const ONE_SHOT: bv16 := 0x8034
  const PERIODIC: bv16 := 0x803C

  /** Late writes that go wrong, sampled at 0, written at 10 and sampled again at 20: a one-shot value of 5
      fires though 5 is past; a one-shot match at 5 is lost to a value of 100. */
  lemma OneShotGoesWrong()
    ensures !WriteSeen(Timer(ONE_SHOT, 1000, 0, 0), false, 0, 10, 20, 5)
    ensures !WriteSeen(Timer(ONE_SHOT, 5, 0, 0), false, 0, 10, 20, 100)
  {
    LateComparatorWrite(Timer(ONE_SHOT, 1000, 0, 0), false, 0, 10, 20, 5);
    LateComparatorWrite(Timer(ONE_SHOT, 5, 0, 0), false, 0, 10, 20, 100);
  }

  /** And a period of 4, with the bit up already, leaves a periodic comparator at 24 where hardware, with 4
      behind it, leaves it at 4. */
  lemma PeriodicGoesWrong(t: Timer)
    requires t == Timer(PERIODIC, 1000, 1000, 0)
    ensures SampleCell(Cell(WrittenTimer(t, 4), true), 0, 20).timer.comparator == 24
    ensures ClockedCell(Cell(WrittenTimer(t, 4), true), 10, Advance(10, 20)).timer.comparator == 4
  {
    WriteKeepsMode(t, 4);
    assert PeriodicRearmAfter(4, 4, 20) == 24;
    SampleCellIsClocked(Cell(WrittenTimer(t, 4), true), 10, 10);
  }

  /** Stopping the counter moves the sample to the stop value unexamined.  The status bit is then the
      hardware's exactly when it was up already or nothing lay between the two, and the comparator as well
      exactly when nothing did or it would have come round to the same value. */
  lemma StopDropsCrossing(x: Cell, last: u64, stop: u64)
    ensures x.pending == ClockedCell(x, last, Advance(last, stop)).pending <==>
      x.pending || !x.timer.Enabled() || !Crossed(last, stop, x.timer.comparator)
    ensures x == ClockedCell(x, last, Advance(last, stop)) <==>
      || !x.timer.Enabled() || !Crossed(last, stop, x.timer.comparator)
      || (x.pending && ComesRound(x.timer, x.timer.comparator, stop))
  {
    AdvanceLands(last, stop);
    SampleCellIsClocked(x, last, Advance(last, stop));
  }

  /** Stopped at 10 after a sample at 0, a one-shot match at 5 is lost, and a periodic comparator at 5 with
      period 7 stays at 5 where hardware is at 12. */
  lemma StopsThatLose()
    ensures ClockedCell(Cell(Timer(ONE_SHOT, 5, 0, 0), false), 0, Advance(0, 10)).pending
    ensures ClockedCell(Cell(Timer(PERIODIC, 5, 7, 0), true), 0, Advance(0, 10)).timer.comparator == 12
  {
    SampleCellIsClocked(Cell(Timer(ONE_SHOT, 5, 0, 0), false), 0, 10);
    SampleCellIsClocked(Cell(Timer(PERIODIC, 5, 7, 0), true), 0, 10);
    assert PeriodicRearmAfter(5, 7, 10) == 12;
  }

  // ---- Any register write of a timer -------------------------------------------------------

  // The bits of the configuration a guest can write.
  const TN_WRITABLE: bv16 := 0x7F4E

  function ConfiguredTimer(t: Timer, value: bv16): Timer {
    t.(config := (t.config & !TN_WRITABLE) | (value & TN_WRITABLE))
  }

  /** Bit 2 of a written configuration enables the timer, bit 3 makes it periodic and bit 6 arms the accumulator load;
      the capability bits 4, 5 and 15 cannot be written. */
  lemma ConfiguredIs(t: Timer, value: bv16)
    ensures var u := ConfiguredTimer(t, value);
      && u.Enabled() == (value & 0x4 != 0) && u.IsPeriodic() == (value & 0x8 != 0)
      && (u.config & TN_VAL_SET != 0) == (value & 0x40 != 0) && u.config & 0x8030 == t.config & 0x8030
  {
  }

  datatype TimerWrite = Comparator(value: u64) | Config(bits: bv16) | Route(value: u64) | ClearStatus

  // What a write makes of a comparator and its status bit.
  function Changed(w: TimerWrite, x: Cell): Cell {
    match w
    case Comparator(value) => x.(timer := WrittenTimer(x.timer, value))
    case Config(bits) => x.(timer := ConfiguredTimer(x.timer, bits))
    case Route(value) => x.(timer := x.timer.(fsbRoute := value))
    case ClearStatus => x.(pending := false)
  }

  // Sampling at `cur` finds the comparator as it is.
  predicate Still(x: Cell, last: u64, cur: u64) {
    || !x.timer.Enabled() || !Crossed(last, cur, x.timer.comparator)
    || (x.pending && ComesRound(x.timer, x.timer.comparator, cur))
  }

  // A configuration write between samples: nothing lies in the window; or it does, the timer stays enabled, and
  // re-arming or not makes no difference; or it was or is disabled and firing makes none.
  predicate SafeConfig(x: Cell, bits: bv16, last: u64, cur: u64) {
    var t, u := x.timer, ConfiguredTimer(x.timer, bits);
    || !Crossed(last, cur, t.comparator)
    || (if t.Enabled() == u.Enabled()
        then t.Enabled() ==> t.Rearms() == u.Rearms() || (ComesRound(t, t.comparator, cur) && ComesRound(u, u.comparator, cur))
        else Still(x, last, cur) && Still(Cell(u, x.pending), last, cur))
  }

  predicate Safe(w: TimerWrite, x: Cell, last: u64, cur: u64) {
    match w
    case Comparator(value) => SafeWrite(x.timer, x.pending, last, cur, value)
    case Config(bits) => SafeConfig(x, bits, last, cur)
    case Route(_) => true
    case ClearStatus => !x.timer.Enabled() || !Crossed(last, cur, x.timer.comparator)
  }

  ghost predicate Commutes(w: TimerWrite, x: Cell, last: u64, lag: nat) {
    ClockedCell(Changed(w, x), last, lag) == Changed(w, ClockedCell(x, last, lag))
  }

  lemma ComparatorSafe(x: Cell, last: u64, lag: u64, value: u64)
    ensures Commutes(Comparator(value), x, last, lag) <==> SafeWrite(x.timer, x.pending, last, WrapAdd(last, lag), value)
  {
    var cur := WrapAdd(last, lag);
    WrapAddIsAhead(last, lag);
    LateComparatorWrite(x.timer, x.pending, last, cur, cur, value);
    SampleCellIsClocked(x, last, lag);
    SampleCellIsClocked(Changed(Comparator(value), x), last, lag);
    assert ClockedCell(Cell(WrittenTimer(x.timer, value), false), cur, 0).timer == WrittenTimer(x.timer, value);
  }

  lemma ConfigSafe(x: Cell, last: u64, lag: u64, bits: bv16)
    ensures Commutes(Config(bits), x, last, lag) <==> SafeConfig(x, bits, last, WrapAdd(last, lag))
  {
    SampleCellIsClocked(x, last, lag);
    SampleCellIsClocked(Changed(Config(bits), x), last, lag);
  }

  lemma RouteSafe(x: Cell, last: u64, lag: u64, value: u64)
    ensures Commutes(Route(value), x, last, lag)
  {
    SampleCellIsClocked(x, last, lag);
    SampleCellIsClocked(Changed(Route(value), x), last, lag);
  }

  lemma ClearSafe(x: Cell, last: u64, lag: u64)
    ensures Commutes(ClearStatus, x, last, lag)
        <==> !x.timer.Enabled() || !Crossed(last, WrapAdd(last, lag), x.timer.comparator)
  {
    SampleCellIsClocked(x, last, lag);
    SampleCellIsClocked(Changed(ClearStatus, x), last, lag);
  }

  /** Writing any register of a timer between samples gives what hardware has if and only if its test passes: for
      the comparator, the configuration, the route and the status bit. */
  lemma SafeExact(w: TimerWrite, x: Cell, last: u64, lag: u64)
    ensures Commutes(w, x, last, lag) <==> Safe(w, x, last, WrapAdd(last, lag))
  {
    match w
    case Comparator(value) => ComparatorSafe(x, last, lag, value);
    case Config(bits) => ConfigSafe(x, last, lag, bits);
    case Route(value) => RouteSafe(x, last, lag, value);
    case ClearStatus => ClearSafe(x, last, lag);
  }

  /** With an unsampled match at 5 and the counter at 10: disabling the timer loses it, enabling one then fires it,
      and clearing the status bit leaves it to be raised again. */
  lemma WritesThatDiffer()
    ensures !Commutes(Config(0), Cell(Timer(ONE_SHOT, 5, 0, 0), false), 0, 10)
    ensures !Commutes(Config(ONE_SHOT), Cell(Timer(0, 5, 0, 0), false), 0, 10)
    ensures !Commutes(ClearStatus, Cell(Timer(ONE_SHOT, 5, 0, 0), false), 0, 10)
  {
    ConfigSafe(Cell(Timer(ONE_SHOT, 5, 0, 0), false), 0, 10, 0);
    ConfigSafe(Cell(Timer(0, 5, 0, 0), false), 0, 10, ONE_SHOT);
    ClearSafe(Cell(Timer(ONE_SHOT, 5, 0, 0), false), 0, 10);
  }

  lemma StillExact(x: Cell, last: u64, lag: u64)
    ensures ClockedCell(x, last, lag) == x <==> Still(x, last, WrapAdd(last, lag))
  {
    WrapAddIsAhead(last, lag);
    StopDropsCrossing(x, last, WrapAdd(last, lag));
  }

  // ---- Histories ---------------------------------------------------------------------------

  // Time passes, the host samples, or the guest writes a register of timer i, the counter or the enable bit.
  datatype Event = Ticks(n: nat) | Sample | Write(i: nat, w: TimerWrite) | WriteCounter(value: u64) | Enable(on: bool)

  // The device: the board as last sampled, the ticks since and whether the counter runs.
  datatype Lagging = Lagging(board: Board, lag: nat, running: bool) {
    predicate Valid() { !running ==> lag == 0 }

    function Counter(): u64 { WrapAdd(board.counter, lag) }
  }

  datatype Hardware = Hardware(board: Board, running: bool)

  // The hardware a device stands for.
  function Meant(l: Lagging): Hardware { Hardware(Clocked(l.board, l.lag), l.running) }

  function Replaced(b: Board, i: nat, w: TimerWrite): Board {
    if i < |b.cells| then b.(cells := b.cells[i := Changed(w, b.cells[i])]) else b
  }

  function LazyStep(l: Lagging, e: Event): Lagging {
    match e
    case Ticks(n) => if l.running then l.(lag := l.lag + n) else l
    case Sample => if l.running then Lagging(SampleBoard(l.board, l.Counter()), 0, true) else l
    case Write(i, w) => l.(board := Replaced(l.board, i, w))
    case WriteCounter(value) => Lagging(l.board.(counter := value), 0, l.running)
    case Enable(on) => if on == l.running then l else Lagging(l.board.(counter := l.Counter()), 0, on)
  }

  function HardwareStep(h: Hardware, e: Event): Hardware {
    match e
    case Ticks(n) => if h.running then h.(board := Clocked(h.board, n)) else h
    case Sample => h
    case Write(i, w) => h.(board := Replaced(h.board, i, w))
    case WriteCounter(value) => h.(board := h.board.(counter := value))
    case Enable(on) => h.(running := on)
  }

  function LazyRun(l: Lagging, es: seq<Event>): Lagging {
    if es == [] then l else LazyStep(LazyRun(l, es[..|es| - 1]), es[|es| - 1])
  }

  function HardwareRun(h: Hardware, es: seq<Event>): Hardware {
    if es == [] then h else HardwareStep(HardwareRun(h, es[..|es| - 1]), es[|es| - 1])
  }

  predicate AllStill(b: Board, cur: u64) {
    forall i :: 0 <= i < |b.cells| ==> Still(b.cells[i], b.counter, cur)
  }

  // The test each event passes when it comes less than a whole turn of the counter after the last sample.
  predicate Passes(l: Lagging, e: Event) {
    match e
    case Ticks(_) => true
    case Sample => true
    case Write(i, w) => i < |l.board.cells| ==> Safe(w, l.board.cells[i], l.board.counter, l.Counter())
    case WriteCounter(_) => AllStill(l.board, l.Counter())
    case Enable(on) => on != l.running ==> AllStill(l.board, l.Counter())
  }

  predicate Timely(l: Lagging, e: Event) { (e.Ticks? || l.lag < TWO64) && Passes(l, e) }

  lemma WriteExact(l: Lagging, i: nat, w: TimerWrite)
    requires l.lag < TWO64
    ensures Replaced(Clocked(l.board, l.lag), i, w) == Clocked(Replaced(l.board, i, w), l.lag)
        <==> Passes(l, Write(i, w))
  {
    var b, c := Replaced(Clocked(l.board, l.lag), i, w), Clocked(Replaced(l.board, i, w), l.lag);
    ClockedByCell(l.board, l.lag);
    ClockedByCell(Replaced(l.board, i, w), l.lag);
    if i < |l.board.cells| {
      SafeExact(w, l.board.cells[i], l.board.counter, l.lag);
      if Passes(l, Write(i, w)) {
        assert b.cells == c.cells;
      } else {
        assert b.cells[i] != c.cells[i];
      }
    }
  }

  lemma StillBoard(l: Lagging)
    requires l.lag < TWO64
    ensures Clocked(l.board, l.lag).counter == l.Counter()
    ensures Clocked(l.board, l.lag).cells == l.board.cells <==> AllStill(l.board, l.Counter())
  {
    var b := Clocked(l.board, l.lag);
    ClockedByCell(l.board, l.lag);
    forall i | 0 <= i < |l.board.cells|
      ensures b.cells[i] == l.board.cells[i] <==> Still(l.board.cells[i], l.board.counter, l.Counter())
    {
      StillExact(l.board.cells[i], l.board.counter, l.lag);
    }
    if AllStill(l.board, l.Counter()) {
      assert b.cells == l.board.cells;
    }
  }

  /** One event takes device and hardware to matching states if and only if its test passes. */
  lemma StepExact(l: Lagging, e: Event)
    requires l.Valid() && l.lag < TWO64
    ensures HardwareStep(Meant(l), e) == Meant(LazyStep(l, e)) <==> Passes(l, e)
  {
    match e
    case Ticks(n) => ClockedAdd(l.board, l.lag, n);
    case Sample =>
      SampleRefinesClock(l.board, l.Counter());
      WrapAddIsAhead(l.board.counter, l.lag);
    case Write(i, w) => WriteExact(l, i, w);
    case WriteCounter(_) => StillBoard(l);
    case Enable(_) => StillBoard(l);
  }

  lemma StepRefines(l: Lagging, e: Event)
    requires l.Valid() && Timely(l, e)
    ensures LazyStep(l, e).Valid() && HardwareStep(Meant(l), e) == Meant(LazyStep(l, e))
  {
    if l.lag < TWO64 {
      StepExact(l, e);
    } else {
      ClockedAdd(l.board, l.lag, e.n);
    }
  }

  /** Over every history of time passing, samples and register writes whose events pass their tests, hardware is
      where the device would be if it were sampled now. */
  lemma {:induction false} HistoryRefines(l: Lagging, es: seq<Event>)
    requires l.Valid() && forall k :: 0 <= k < |es| ==> Timely(LazyRun(l, es[..k]), es[k])
    ensures LazyRun(l, es).Valid() && HardwareRun(Meant(l), es) == Meant(LazyRun(l, es))
  {
    if es != [] {
      var n := |es| - 1;
      assert forall k :: 0 <= k < n ==> es[..n][..k] == es[..k] && es[..n][k] == es[k];
      HistoryRefines(l, es[..n]);
      StepRefines(LazyRun(l, es[..n]), es[n]);
    }
  }

  /** Right after a sample every register write passes. */
  lemma FreshPasses(l: Lagging, e: Event)
    requires l.lag == 0
    ensures Passes(l, e)
  {
    StillBoard(l);
    if e.Write? {
      WriteExact(l, e.i, e.w);
    }
  }

  // ---- The register file -------------------------------------------------------------------

  function Bit(idx: nat): bv8
    requires idx < NUM_TIMERS
  {
    if idx == 0 then 1 else if idx == 1 then 2 else 4
  }

  predicate Pending(status: bv8, idx: nat)
    requires idx < NUM_TIMERS
  {
    status & Bit(idx) != 0
  }

  predicate StatusInRange(status: bv8) { status & !7 == 0 }

  lemma RaiseBit(status: bv8, idx: nat)
    requires idx < NUM_TIMERS && StatusInRange(status)
    ensures StatusInRange(status | Bit(idx))
    ensures forall j :: 0 <= j < NUM_TIMERS ==>
      Pending(status | Bit(idx), j) == (j == idx || Pending(status, j))
  {
    forall j | 0 <= j < NUM_TIMERS
      ensures Pending(status | Bit(idx), j) == (j == idx || Pending(status, j))
    {
      assert (idx == 0 || idx == 1 || idx == 2) && (j == 0 || j == 1 || j == 2);
    }
  }

  lemma ClearedBits(status: bv8, value: bv8)
    requires StatusInRange(status)
    ensures StatusInRange(status & !value)
    ensures forall i :: 0 <= i < NUM_TIMERS ==> Pending(status & !value, i) == (Pending(status, i) && !Pending(value, i))
  {
  }

  lemma CapsStay(t: Timer, bits: bv16)
    requires t.config & TN_CAPS == TN_CAPS
    ensures ConfiguredTimer(t, bits).config & TN_CAPS == TN_CAPS
  {
  }

  lemma AnyPending(status: bv8)
    requires StatusInRange(status)
    ensures status != 0 <==> exists i :: 0 <= i < NUM_TIMERS && Pending(status, i)
  {
    assert status != 0 ==> Pending(status, 0) || Pending(status, 1) || Pending(status, 2);
  }

  class Hpet {
    var intStatus: bv8
    var timers: array<Timer>
    var counterOffset: u64
    var running: bool
    var lastCounter: u64

    ghost predicate Valid()
      reads this, timers
    {
      && timers.Length == NUM_TIMERS
      && StatusInRange(intStatus)
      && (forall i :: 0 <= i < NUM_TIMERS ==> timers[i].config & TN_CAPS == TN_CAPS)
    }

    // What the guest can tell of the device: the sampled counter, the comparators, their bits.
    ghost function View(): Board
      requires Valid()
      reads this, timers
    {
      Board(lastCounter, [Cell(timers[0], Pending(intStatus, 0)),
                          Cell(timers[1], Pending(intStatus, 1)),
                          Cell(timers[2], Pending(intStatus, 2))])
    }

    constructor ()
      ensures Valid() && fresh(timers) && !running && lastCounter == 0
      ensures forall i :: 0 <= i < NUM_TIMERS ==> !View().cells[i].pending && !View().cells[i].timer.Enabled()
    {
      intStatus, counterOffset, running, lastCounter := 0, 0, false, 0;
      timers := new Timer[NUM_TIMERS](_ => Timer(TN_CAPS, TWO64 - 1, 0, 0));
    }

    ghost function CellAt(i: nat): Cell
      requires timers.Length == NUM_TIMERS && i < NUM_TIMERS
      reads this, timers
    {
      Cell(timers[i], Pending(intStatus, i))
    }

    // The body of the tick loop for one comparator.
    method SampleTimer(idx: nat, prev: u64, now: u64)
      requires timers.Length == NUM_TIMERS && StatusInRange(intStatus) && idx < NUM_TIMERS
      modifies this`intStatus, timers
      ensures StatusInRange(intStatus)
      ensures CellAt(idx) == SampleCell(old(CellAt(idx)), prev, now)
      ensures forall i :: 0 <= i < NUM_TIMERS && i != idx ==> CellAt(i) == old(CellAt(i))
      ensures old(Valid()) ==> Valid()
    {
      var timer := timers[idx];
      if timer.Enabled() {
        if Crossed(prev, now, timer.comparator) {
          RaiseBit(intStatus, idx);
          intStatus := intStatus | Bit(idx);
          if timer.IsPeriodic() && timer.period != 0 {
            timers[idx] := timer.(comparator := PeriodicRearmAfter(timer.comparator, timer.period, now));
          }
        }
      }
    }

    // The tick loop.
    method SampleTimers(prev: u64, now: u64)
      requires Valid()
      modifies this`intStatus, timers
      ensures Valid()
      ensures forall i :: 0 <= i < NUM_TIMERS ==> CellAt(i) == SampleCell(old(CellAt(i)), prev, now)
    {
      for idx := 0 to NUM_TIMERS
        invariant Valid()
        invariant forall i :: 0 <= i < idx ==> CellAt(i) == SampleCell(old(CellAt(i)), prev, now)
        invariant forall i :: idx <= i < NUM_TIMERS ==> CellAt(i) == old(CellAt(i))
      {
        SampleTimer(idx, prev, now);
      }
    }

    // All three at once.
    method SampleAt(prev: u64, now: u64)
      requires Valid() && lastCounter == now
      modifies this`intStatus, timers
      ensures Valid() && View() == SampleBoard(old(View()).(counter := prev), now)
    {
      ghost var before := View();
      assert forall i :: 0 <= i < NUM_TIMERS ==> before.cells[i] == CellAt(i);
      SampleTimers(prev, now);
      assert forall i :: 0 <= i < NUM_TIMERS ==> View().cells[i] == CellAt(i);
      assert forall i :: 0 <= i < NUM_TIMERS ==> CellAt(i) == SampleCell(before.cells[i], prev, now);
      assert View().cells == SampleBoard(before.(counter := prev), now).cells;
    }

    /** Advance to the counter sample `now`; the result is the whole interrupt condition. */
    method TickAtCounter(now: u64) returns (pending: bool)
      requires Valid()
      modifies this`lastCounter, this`intStatus, timers
      ensures Valid()
      ensures View() == Clocked(old(View()), Advance(old(lastCounter), now))
      ensures pending <==> exists i :: 0 <= i < NUM_TIMERS && View().cells[i].pending
    {
      SampleRefinesClock(View(), now);
      var prev := lastCounter;
      lastCounter := now;
      SampleAt(prev, now);
      pending := intStatus != 0;
      AnyPending(intStatus);
      assert forall i :: 0 <= i < NUM_TIMERS ==> View().cells[i].pending == Pending(intStatus, i);
    }

    // `elapsed` is the host clock's reading in ticks since the counter was last anchored.
    function MainCounter(elapsed: u64): u64
      reads this`running, this`counterOffset
    {
      if running then WrapAdd(counterOffset, elapsed) else counterOffset
    }

    /** The host's poll: a halted device answers no, whatever its status bits say. */
    method Tick(elapsed: u64) returns (pending: bool)
      requires Valid()
      modifies this`lastCounter, this`intStatus, timers
      ensures Valid()
      ensures running ==> View() == Clocked(old(View()), Advance(old(lastCounter), MainCounter(elapsed)))
      ensures !running ==> View() == old(View())
      ensures pending <==> running && exists i :: 0 <= i < NUM_TIMERS && View().cells[i].pending
    {
      if !running {
        return false;
      }
      pending := TickAtCounter(MainCounter(elapsed));
    }

    /** Starting and stopping never move the counter, and the sample moves to the boundary with it. */
    method SetRunning(run: bool, elapsed: u64)
      modifies this`counterOffset, this`lastCounter, this`running
      ensures running == run
      ensures run != old(running) ==> MainCounter(0) == lastCounter == old(MainCounter(elapsed))
      ensures run == old(running) ==> counterOffset == old(counterOffset) && lastCounter == old(lastCounter)
    {
      if run == running {
        return;
      }
      if run {
        lastCounter := counterOffset;
        running := true;
      } else {
        var counter := MainCounter(elapsed);
        counterOffset := counter;
        lastCounter := counter;
        running := false;
      }
    }

    method WriteComparator(idx: nat, value: u64)
      requires Valid() && idx < NUM_TIMERS
      modifies timers
      ensures Valid()
      ensures timers[idx] == WrittenTimer(old(timers[idx]), value)
      ensures forall i :: 0 <= i < NUM_TIMERS && i != idx ==> timers[i] == old(timers[i])
    {
      var timer := timers[idx];
      if timer.IsPeriodic() && timer.config & TN_VAL_SET != 0 {
        timers[idx] := timer.(period := value, comparator := value, config := timer.config & !TN_VAL_SET);
      } else if timer.IsPeriodic() {
        timers[idx] := timer.(period := value, comparator := value);
      } else {
        timers[idx] := timer.(comparator := value);
      }
    }

    // Capabilities stay and writable bits follow.
    method WriteConfig(idx: nat, bits: bv16)
      requires Valid() && idx < NUM_TIMERS
      modifies timers
      ensures Valid() && CellAt(idx) == Changed(Config(bits), old(CellAt(idx)))
      ensures forall i :: 0 <= i < NUM_TIMERS && i != idx ==> timers[i] == old(timers[i])
    {
      CapsStay(timers[idx], bits);
      timers[idx] := ConfiguredTimer(timers[idx], bits);
    }

    // Every status bit set in the value is cleared.
    method ClearStatusBits(value: bv8)
      requires Valid()
      modifies this`intStatus
      ensures Valid() && forall i :: 0 <= i < NUM_TIMERS ==>
        CellAt(i) == if Pending(value, i) then Changed(ClearStatus, old(CellAt(i))) else old(CellAt(i))
    {
      ClearedBits(intStatus, value);
      intStatus := intStatus & !value;
    }

    // The counter jumps, and the last sample with it; the host clock is read anew.
    method WriteMainCounter(value: u64)
      requires Valid()
      modifies this`counterOffset, this`lastCounter
      ensures Valid() && View() == old(View()).(counter := value) && MainCounter(0) == value
    {
      counterOffset := value;
      lastCounter := value;
    }
  }
}
