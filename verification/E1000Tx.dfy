/**
 The e1000 transmit ring: descriptors walked from head to tail, buffers gathered into frames that end
 at EOP, descriptor-done written back, and the interrupt cause.  What the walk does is a function of
 memory, so batches of kicks can be compared.
 */
module E1000Tx {
  import opened Arith
  import opened Common
  import opened Dma

  const DESC_SIZE: nat := 16
  const MAX_FRAME: nat := 16384

  // ---- Descriptors -------------------------------------------------------------------------

  // Legacy and data descriptors name a buffer; context and unknown ones do not.
  datatype Descriptor = Descriptor(buffer: bool, addr: nat, len: nat, eop: bool, rs: bool)

  function At(raw: seq<byte>, i: nat): (r: int)
    requires i < |raw|
    ensures 0 <= r < 256
  {
    raw[i]
  }

  // The command byte: end of packet, report status, extended format.
  function Eop(cmd: int): bool { cmd % 2 == 1 }

  function Rs(cmd: int): bool { cmd / 8 % 2 == 1 }

  function Dext(cmd: int): bool { cmd / 32 % 2 == 1 }

  function Parse(raw: seq<byte>): (d: Descriptor)
    requires |raw| == DESC_SIZE
    ensures d.eop ==> d.buffer
  {
    var cmd := At(raw, 11);
    var addr := Le(raw[..8]);
    var eop, rs := Eop(cmd), Rs(cmd);
    if !Dext(cmd) then
      Descriptor(true, addr, At(raw, 8) + 0x100 * At(raw, 9), eop, rs)
    else if At(raw, 10) / 16 == 1 then
      Descriptor(true, addr, At(raw, 8) + 0x100 * At(raw, 9) + 0x1_0000 * (At(raw, 10) % 16), eop, rs)
    else
      Descriptor(false, 0, 0, false, rs)
  }

  // ---- One descriptor ----------------------------------------------------------------------

  // `txdw` is the descriptor-written-back bit of the interrupt cause; no other bit changes here.
  datatype Tx = Tx(mem: Mem, head: nat, partial: seq<byte>, queue: seq<seq<byte>>, txdw: bool)

  // A buffer is dropped when it is empty, would overrun the size cap or cannot be read.
  function Appended(mem: Mem, partial: seq<byte>, d: Descriptor): seq<byte> {
    if !d.buffer || d.len == 0 || |partial| + d.len > MAX_FRAME then partial
    else match Read(mem, d.addr, d.len)
      case None => partial
      case Some(buf) => partial + buf
  }

  function GpaOf(base: u64, index: nat): nat { (base + index * DESC_SIZE) % TWO64 }

  // What a readable descriptor does, and where the head goes next.
  function Handled(t: Tx, d: Descriptor, gpa: nat, count: nat): Tx
    requires count > 0
  {
    var data := Appended(t.mem, t.partial, d);
    Tx(if d.rs then Write(t.mem, gpa + 12, [1]) else t.mem,
       Next(t.head, count),
       if d.eop then [] else data,
       if d.eop && data != [] then t.queue + [data] else t.queue,
       t.txdw || d.eop || d.rs)
  }

  function Fetch(mem: Mem, gpa: nat): Option<Descriptor> {
    match Read(mem, gpa, DESC_SIZE) case None => None case Some(raw) => Some(Parse(raw))
  }

  // A ring: its place in memory and its size.
  datatype Ring = Ring(base: u64, count: nat)

  function One(t: Tx, r: Ring): Option<Tx>
    requires r.count > 0
  {
    match Fetch(t.mem, GpaOf(r.base, t.head))
    case None => None
    case Some(d) => Some(Handled(t, d, GpaOf(r.base, t.head), r.count))
  }

  // ---- Walks -------------------------------------------------------------------------------

  // At most n descriptors, stopping at one that cannot be read.
  function Steps<T>(one: T -> Option<T>, t: T, n: nat): T {
    if n == 0 then t
    else match one(t)
      case None => t
      case Some(u) => Steps(one, u, n - 1)
  }

  lemma {:induction false} StepsStuck<T>(one: T -> Option<T>, t: T, n: nat)
    requires one(t) == None
    ensures Steps(one, t, n) == t
  {
  }

  /** Walking m and then n descriptors is walking m + n. */
  lemma {:induction false} StepsAdd<T>(one: T -> Option<T>, t: T, m: nat, n: nat)
    ensures Steps(one, Steps(one, t, m), n) == Steps(one, t, m + n)
    decreases m
  {
    if m > 0 && one(t).Some? {
      StepsAdd(one, one(t).value, m - 1, n);
    }
  }

  function Walker(r: Ring): Tx -> Option<Tx>
    requires r.count > 0
  {
    t => One(t, r)
  }

  // Descriptors from head round to tail.
  function Distance(head: nat, tail: nat, count: nat): (d: nat)
    requires head < count && tail < count
    ensures d < count
  {
    if head <= tail then tail - head else tail + count - head
  }

  // The walk as the code bounds it.
  function Walk(one: Tx -> Option<Tx>, t: Tx, tail: nat, guard: nat): Tx
    decreases guard
  {
    if t.head == tail || guard == 0 then t
    else match one(t)
      case None => t
      case Some(u) => Walk(one, u, tail, guard - 1)
  }

  // The descriptors of a walk that end a packet.
  function Ended(one: Tx -> Option<Tx>, ends: Tx -> bool, t: Tx, tail: nat, guard: nat): nat
    decreases guard
  {
    if t.head == tail || guard == 0 then 0
    else match one(t)
      case None => 0
      case Some(u) => (if ends(t) then 1 else 0) + Ended(one, ends, u, tail, guard - 1)
  }

  predicate EndsPacket(t: Tx, r: Ring) {
    var d := Fetch(t.mem, GpaOf(r.base, t.head));
    d.Some? && d.value.eop
  }

  function Ender(r: Ring): Tx -> bool { t => EndsPacket(t, r) }

  // Each descriptor moves the head on by one, round the ring.
  ghost predicate Advances(one: Tx -> Option<Tx>, count: nat) {
    count > 0 && forall t :: one(t).Some? ==> one(t).value.head == Next(t.head, count)
  }

  function Next(head: nat, count: nat): nat
    requires count > 0
  {
    Low(head + 1, count)
  }

  lemma NextInRing(head: nat, count: nat)
    requires head < count
    ensures Next(head, count) == if head + 1 == count then 0 else head + 1
  {
    assert head + 1 == count ==> Low(head + 1, count) == Low(0, count);
  }

  /** From an index in the ring the guard never cuts a walk short: it is the descriptors up to tail. */
  lemma {:induction false} WalkIsSteps(one: Tx -> Option<Tx>, t: Tx, tail: nat, guard: nat, count: nat)
    requires Advances(one, count) && t.head < count && tail < count && Distance(t.head, tail, count) <= guard
    ensures Walk(one, t, tail, guard) == Steps(one, t, Distance(t.head, tail, count))
    decreases guard
  {
    if t.head != tail && one(t).Some? {
      NextInRing(t.head, count);
      WalkIsSteps(one, one(t).value, tail, guard - 1, count);
    }
  }

  // After m descriptors the head is m further on, unless the walk is stuck.
  lemma {:induction false} StepsHead(one: Tx -> Option<Tx>, t: Tx, m: nat, tail: nat, count: nat)
    requires Advances(one, count) && t.head < count && tail < count && m == Distance(t.head, tail, count)
    ensures Steps(one, t, m).head == tail || one(Steps(one, t, m)) == None
    ensures Steps(one, t, m).head < count
    decreases m
  {
    if m > 0 && one(t).Some? {
      NextInRing(t.head, count);
      StepsHead(one, one(t).value, m - 1, tail, count);
    }
  }

  /** With b on the way round from the head to c, kicking the tail to b and then to c is one kick to c:
      the same head, queue, partial frame, memory and interrupt cause. */
  lemma BatchingIrrelevant(one: Tx -> Option<Tx>, t: Tx, b: nat, c: nat, count: nat)
    requires Advances(one, count) && t.head < count && b < count && c < count
    requires Distance(t.head, b, count) + Distance(b, c, count) == Distance(t.head, c, count)
    ensures Walk(one, Walk(one, t, b, count), c, count) == Walk(one, t, c, count)
  {
    var m, n := Distance(t.head, b, count), Distance(b, c, count);
    WalkIsSteps(one, t, b, count, count);
    WalkIsSteps(one, t, c, count, count);
    StepsAdd(one, t, m, n);
    StepsHead(one, t, m, b, count);
    var u := Steps(one, t, m);
    if u.head == b {
      WalkIsSteps(one, u, c, count, count);
    } else {
      StepsStuck(one, u, n);
    }
  }

  lemma WalkerAdvances(r: Ring)
    requires r.count > 0
    ensures Advances(Walker(r), r.count)
  {
  }

  lemma KicksBatch(r: Ring, t: Tx, b: nat, c: nat)
    requires r.count > 0 && t.head < r.count && b < r.count && c < r.count
    requires Distance(t.head, b, r.count) + Distance(b, c, r.count) == Distance(t.head, c, r.count)
    ensures Walk(Walker(r), Walk(Walker(r), t, b, r.count), c, r.count) == Walk(Walker(r), t, c, r.count)
  {
    WalkerAdvances(r);
    BatchingIrrelevant(Walker(r), t, b, c, r.count);
  }

  // ---- The controller ----------------------------------------------------------------------

  class Transmitter {
    var enabled: bool
    var base: u64
    var tdlen: nat
    var tdt: nat
    var tx: Tx

    function RingOf(): Ring
      reads `base, `tdlen
    {
      Ring(base, tdlen / DESC_SIZE)
    }

    method AppendTxData(d: Descriptor)
      requires d.buffer
      modifies `tx
      ensures tx == old(tx).(partial := Appended(old(tx.mem), old(tx.partial), d))
    {
      if d.len == 0 {
        return;
      }
      if |tx.partial| + d.len > MAX_FRAME {
        return;
      }
      var buf := Read(tx.mem, d.addr, d.len);
      if buf.Some? {
        tx := tx.(partial := tx.partial + buf.value);
      }
    }

    method FinishTxFrame()
      modifies `tx
      ensures tx == old(tx).(partial := [],
                             queue := if old(tx.partial) != [] then old(tx.queue + [tx.partial]) else old(tx.queue))
    {
      if tx.partial != [] {
        tx := tx.(queue := tx.queue + [tx.partial]);
      }
      tx := tx.(partial := []);
    }

    // One descriptor; the interrupt cause is left to the end of the walk.
    method Turn(d: Descriptor, gpa: nat, count: nat) returns (frame: bool)
      requires count > 0 && (d.eop ==> d.buffer)
      modifies `tx
      ensures frame == d.eop && tx == Handled(old(tx), d, gpa, count).(txdw := old(tx.txdw))
    {
      frame := false;
      if d.buffer {
        AppendTxData(d);
        if d.eop {
          FinishTxFrame();
          frame := true;
        }
      }
      if d.rs {
        tx := tx.(mem := Write(tx.mem, gpa + 12, [1]));
      }
      tx := tx.(head := Next(tx.head, count));
    }

    method Take(r: Ring, ghost flagged: bool) returns (ok: bool, frame: bool, rs: bool)
      requires r.count > 0
      modifies `tx
      ensures !ok ==> tx == old(tx) && One(Pending(old(tx), flagged), r) == None
      ensures ok ==> One(Pending(old(tx), flagged), r) == Some(Pending(tx, flagged || frame || rs))
      ensures ok ==> frame == EndsPacket(Pending(old(tx), flagged), r)
    {
      var gpa := GpaOf(r.base, tx.head);
      var d := Fetch(tx.mem, gpa);
      ok, frame, rs := d.Some?, false, false;
      if ok {
        rs := d.value.rs;
        frame := Turn(d.value, gpa, r.count);
      }
    }

    // One turn of the walk, with `left` descriptors allowed after it: frames ended and write-backs so far.
    method TakeTurn(r: Ring, tail: nat, left: nat, frames: nat, wroteBack: bool,
      ghost one: Tx -> Option<Tx>, ghost ends: Tx -> bool) returns (ok: bool, more: nat, back: bool)
      requires r.count > 0 && tx.head != tail && Follows(r, one, ends)
      modifies `tx
      ensures Walk(one, Pending(old(tx), frames > 0 || wroteBack), tail, left + 1)
           == if ok then Walk(one, Pending(tx, more > 0 || back), tail, left) else Pending(tx, more > 0 || back)
      ensures frames + Ended(one, ends, Pending(old(tx), frames > 0 || wroteBack), tail, left + 1)
           == if ok then more + Ended(one, ends, Pending(tx, more > 0 || back), tail, left) else more
    {
      assert Visited(Pending(tx, frames > 0 || wroteBack));
      var frame, rs;
      ok, frame, rs := Take(r, frames > 0 || wroteBack);
      more, back := frames, wroteBack;
      if ok {
        more := if frame then frames + 1 else frames;
        back := wroteBack || rs;
      }
    }

    /** The walk from head to tail, with the interrupt raised once, is the walk of the specification. */
    method ProcessTx() returns (frames: nat)
      modifies `tx
      ensures !enabled || RingOf().count == 0 ==> unchanged(this)
      ensures enabled && RingOf().count > 0 ==> tx == Walk(Walker(RingOf()), old(tx), tdt, RingOf().count)
      ensures frames == if enabled && RingOf().count > 0
                        then Ended(Walker(RingOf()), Ender(RingOf()), old(tx), tdt, RingOf().count) else 0
    {
      frames := 0;
      if !enabled {
        return;
      }
      var r := RingOf();
      if r.count == 0 {
        return;
      }
      var wroteBack;
      frames, wroteBack := WalkRing(r, tdt, Walker(r), Ender(r));
      if frames > 0 {
        tx := tx.(txdw := true);
      } else if wroteBack {
        tx := tx.(txdw := true);
      }
    }

    method WalkRing(r: Ring, tail: nat, ghost one: Tx -> Option<Tx>, ghost ends: Tx -> bool)
      returns (frames: nat, wroteBack: bool)
      requires r.count > 0 && Follows(r, one, ends)
      modifies `tx
      ensures Pending(tx, frames > 0 || wroteBack) == Walk(one, old(tx), tail, r.count)
      ensures frames == Ended(one, ends, old(tx), tail, r.count)
    {
      frames, wroteBack := 0, false;
      var guard := r.count;
      ghost var goal, total := Walk(one, tx, tail, guard), Ended(one, ends, tx, tail, guard);
      while tx.head != tail && guard > 0
        invariant guard >= 0
        invariant Walk(one, Pending(tx, frames > 0 || wroteBack), tail, guard) == goal
        invariant frames + Ended(one, ends, Pending(tx, frames > 0 || wroteBack), tail, guard) == total
        decreases guard
      {
        guard := guard - 1;
        var ok;
        ok, frames, wroteBack := TakeTurn(r, tail, guard, frames, wroteBack, one, ends);
        if !ok {
          break;
        }
      }
    }

    // Writing the tail register kicks the walk.
    method Kick(tail: nat)
      modifies `tx, `tdt
      ensures tdt == tail
      ensures !enabled || RingOf().count == 0 ==> tx == old(tx)
      ensures enabled && RingOf().count > 0 ==> tx == Walk(Walker(RingOf()), old(tx), tail, RingOf().count)
    {
      tdt := tail;
      var frames := ProcessTx();
    }
  }

  // The state of the walk when the cause that is still to be raised is counted in.
  function Pending(t: Tx, flagged: bool): Tx { t.(txdw := t.txdw || flagged) }

  predicate Visited(t: Tx) { true }

  // A turn and the end of a packet, as the ring has them for every state visited.
  ghost predicate Follows(r: Ring, one: Tx -> Option<Tx>, ends: Tx -> bool)
    requires r.count > 0
  {
    forall t {:trigger Visited(t)} | Visited(t) :: one(t) == One(t, r) && ends(t) == EndsPacket(t, r)
  }
}
