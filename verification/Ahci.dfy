/**
 The AHCI command engine: command headers, the command FIS and the region descriptor table in guest
 memory, and the DMA they ask for between guest memory and the disk.  Registers are sets of bit
 positions.  What one slot does is a function of memory and disk; the engine is proved to compute it.
 */
module Ahci {
  import opened Common
  import opened Dma
  import opened Scatter

  type Bits = set<nat>

  const TWO32: int := 0x1_0000_0000

  const SECTOR_SIZE: nat := 512
  const HEADER_SIZE: nat := 32
  const FIS_SIZE: nat := 64
  const PRDT_OFFSET: nat := 0x80
  const PRD_SIZE: nat := 16

  const READ_DMA_EXT: byte := 0x25
  const WRITE_DMA_EXT: byte := 0x35
  const IDENTIFY: byte := 0xEC

  // ---- Structures in guest memory ----------------------------------------------------------

  datatype Header = Header(prdtl: nat, ctba: u64)
  datatype Fis = Fis(command: byte, device: byte, lba: nat, count: nat)

  function At(buf: seq<byte>, i: nat): (r: int)
    requires i < |buf|
    ensures 0 <= r < 256
  {
    buf[i]
  }

  function ParseHeader(buf: seq<byte>): Option<Header> {
    if |buf| < HEADER_SIZE then None
    else Some(Header(At(buf, 2) + 0x100 * At(buf, 3), Le64(buf, 8)))
  }

  // Two little-endian words, low then high.
  function Le64(buf: seq<byte>, at: nat): u64
    requires at + 8 <= |buf|
  {
    Le32(buf, at) + TWO32 * Le32(buf, at + 4)
  }

  function Le32(buf: seq<byte>, at: nat): (r: nat)
    requires at + 4 <= |buf|
    ensures r < TWO32
  {
    At(buf, at) + 0x100 * At(buf, at + 1) + 0x1_0000 * At(buf, at + 2) + 0x100_0000 * At(buf, at + 3)
  }

  function ParseFis(buf: seq<byte>): Option<Fis> {
    if |buf| < 16 || buf[0] != 0x27 then None
    else Some(Fis(buf[2], buf[7],
                  At(buf, 4) + 0x100 * At(buf, 5) + 0x1_0000 * At(buf, 6)
                  + 0x100_0000 * At(buf, 8) + 0x1_0000_0000 * At(buf, 9) + 0x100_0000_0000 * At(buf, 10),
                  At(buf, 12) + 0x100 * At(buf, 13)))
  }

  // The count is stored less one, in 22 bits.
  function ParsePrd(buf: seq<byte>): Option<Seg> {
    if |buf| < PRD_SIZE then None
    else Some(Seg(Le64(buf, 0), Le32(buf, 12) % 0x40_0000 + 1))
  }

  function PrdAt(mem: Mem, base: nat, i: nat): Option<Seg> {
    match Read(mem, base + i * PRD_SIZE, PRD_SIZE) case None => None case Some(buf) => ParsePrd(buf)
  }

  // The first n descriptors, or those before the first outside memory.
  function Segments(mem: Mem, base: nat, n: nat): (r: seq<Seg>)
    ensures |r| <= n
  {
    if n == 0 then []
    else
      var r := Segments(mem, base, n - 1);
      if |r| == n - 1 && PrdAt(mem, base, n - 1).Some? then r + [PrdAt(mem, base, n - 1).value] else r
  }

  lemma {:induction false} SegmentsStop(mem: Mem, base: nat, i: nat, n: nat)
    requires i < n && PrdAt(mem, base, i) == None && |Segments(mem, base, i)| == i
    ensures Segments(mem, base, n) == Segments(mem, base, i)
  {
    if i + 1 < n {
      SegmentsStop(mem, base, i, n - 1);
    }
  }

  datatype Cmd = Cmd(fis: Fis, segs: seq<Seg>)

  // The command a slot holds, if its structures can be read.
  function Decode(mem: Mem, hdrGpa: nat): Option<Cmd> {
    match Read(mem, hdrGpa, HEADER_SIZE)
    case None => None
    case Some(h) =>
      var hdr := ParseHeader(h).value;
      match Read(mem, hdr.ctba, FIS_SIZE)
      case None => None
      case Some(f) =>
        match ParseFis(f)
        case None => None
        case Some(fis) => Some(Cmd(fis, Segments(mem, hdr.ctba + PRDT_OFFSET, hdr.prdtl)))
  }

  datatype Bounds = Bounds(start: nat, total: nat)

  // Byte offset and length on the disk; a count of zero stands for 65536 sectors.
  function TransferBounds(fis: Fis, diskLen: nat): (r: Option<Bounds>)
    ensures r.Some? ==> r.value.start + r.value.total <= diskLen && r.value.total > 0
  {
    var total := (if fis.count == 0 then 65536 else fis.count) * SECTOR_SIZE;
    var start := fis.lba * SECTOR_SIZE;
    if start >= TWO64 || start + total >= TWO64 || start + total > diskLen then None else Some(Bounds(start, total))
  }

  // ---- What a slot does --------------------------------------------------------------------

  datatype Machine = Machine(mem: Mem, disk: seq<byte>)

  // Data movement: the machine after it and the bytes moved, or none when a segment was out of reach.
  datatype Moved = Moved(m: Machine, count: Option<nat>)

  // Memory after data has been spread over the segments, as far as they can be reached.
  ghost function Delivered(mem: Mem, segs: seq<Seg>, data: seq<byte>): (r: Mem)
    ensures |r| == |mem|
  {
    ReachBelow(segs, 0, |data|, |mem|);
    Spread(mem, Addresses(segs), data, Reach(segs, 0, 0, |data|, |mem|))
  }

  // The bytes picked up from the segments, as far as they can be reached.
  ghost function Collected(mem: Mem, segs: seq<Seg>, total: nat): (r: seq<byte>)
    ensures |r| <= total
  {
    ReachBelow(segs, 0, total, |mem|);
    Picked(mem, Addresses(segs), Reach(segs, 0, 0, total, |mem|))
  }

  // The bytes moved, unless some segment was out of reach.
  ghost function Count(size: nat, segs: seq<Seg>, total: nat): Option<nat> {
    var want := Min(total, |Addresses(segs)|);
    if Reach(segs, 0, 0, total, size) == want then Some(want) else None
  }

  ghost function PerformDma(m: Machine, c: Cmd): Moved {
    match TransferBounds(c.fis, |m.disk|)
    case None => Moved(m, None)
    case Some(b) =>
      if c.fis.command == READ_DMA_EXT then
        Moved(Machine(Delivered(m.mem, c.segs, m.disk[b.start..b.start + b.total]), m.disk), Count(|m.mem|, c.segs, b.total))
      else
        Moved(Machine(m.mem, Write(m.disk, b.start, Collected(m.mem, c.segs, b.total))), Count(|m.mem|, c.segs, b.total))
  }

  ghost function Perform(m: Machine, c: Cmd, identify: seq<byte>): Moved {
    if c.fis.command == IDENTIFY then
      Moved(Machine(Delivered(m.mem, c.segs, identify), m.disk), Count(|m.mem|, c.segs, |identify|))
    else if c.fis.command == READ_DMA_EXT || c.fis.command == WRITE_DMA_EXT then PerformDma(m, c)
    else Moved(m, None)
  }

  // Addresses are 64 bits wide.
  function Wrap(a: nat): u64 { a % TWO64 }

  function HeaderAt(clb: u64, slot: nat): u64 { Wrap(clb + slot * HEADER_SIZE) }

  // The Device-to-Host Register FIS.
  function D2h(status: byte, error: byte): (r: seq<byte>)
    ensures |r| == 20
  {
    [0x34, 0x40, status, error] + seq(16, _ => 0)
  }

  const DRDY: byte := 0x40
  const DRDY_ERR: byte := 0x41
  const ABRT: byte := 0x04

  // The byte count of a success, then the FIS.
  function Completed(mem: Mem, hdrGpa: nat, fb: u64, count: Option<nat>): Mem {
    var m := if count.Some? then Write(mem, hdrGpa + 4, ToLe(count.value, WORD)) else mem;
    Write(m, Wrap(fb + 0x40), if count.Some? then D2h(DRDY, 0) else D2h(DRDY_ERR, ABRT))
  }

  ghost function Ran(m: Machine, clb: u64, fb: u64, slot: nat, identify: seq<byte>): Moved {
    var h := HeaderAt(clb, slot);
    var moved := match Decode(m.mem, h) case None => Moved(m, None) case Some(c) => Perform(m, c, identify);
    Moved(moved.m.(mem := Completed(moved.m.mem, h, fb, moved.count)), moved.count)
  }

  // The issued slots below n, in order.
  ghost function RanTo(run: (Machine, nat) -> Machine, m: Machine, ci: Bits, n: nat): Machine {
    if n == 0 then m
    else
      var before := RanTo(run, m, ci, n - 1);
      if n - 1 in ci then run(before, n - 1) else before
  }

  ghost function Runner(clb: u64, fb: u64, identify: seq<byte>): (Machine, nat) -> Machine {
    (m: Machine, slot: nat) => Ran(m, clb, fb, slot, identify).m
  }

  // ---- The controller ----------------------------------------------------------------------

  const AE: nat := 31
  const IE: nat := 1
  const ST: nat := 0
  const FRE: nat := 4
  const DHRS: nat := 0
  const TFES: nat := 30

  class Controller {
    var mem: Mem
    var ghc: Bits
    var hbaIs: Bits
    var clb: u64
    var fb: u64
    var portIs: Bits
    var portIe: Bits
    var cmd: Bits
    var tfd: nat
    var ci: Bits
    var present: bool
    var disk: seq<byte>
    var interruptPending: bool
    const numSlots: nat
    const identify: seq<byte>

    function View(): Machine
      reads `mem, `disk
    {
      Machine(mem, disk)
    }

    // Disk or identify bytes into the segments of guest memory.
    method Deliver(segs: seq<Seg>, data: seq<byte>) returns (count: Option<nat>)
      modifies `mem
      ensures mem == Delivered(old(mem), segs, data) && count == Count(|old(mem)|, segs, |data|)
    {
      var off, i := 0, 0;
      ghost var addrs, was := Addresses(segs), mem;
      while i < |segs|
        invariant 0 <= i <= |segs| && off == Min(|data|, Base(segs, i)) && |mem| == |was|
        invariant Reach(segs, i, off, |data|, |was|) == Reach(segs, 0, 0, |data|, |was|)
        invariant Within(addrs, off, |was|) && mem == Spread(was, addrs, data, off)
      {
        if off == |data| {
          break;
        }
        var n := Min(segs[i].len, |data| - off);
        NextSegment(segs, i, off, n, |data|, |was|);
        if !InBounds(mem, segs[i].gpa, n) {
          return None;
        }
        SpreadRun(was, addrs, data, off, n, segs[i].gpa);
        mem := Write(mem, segs[i].gpa, data[off..off + n]);
        off, i := off + n, i + 1;
      }
      BaseMonotone(segs, i, |segs|);
      count := Some(off);
    }

    // The segments of guest memory onto the disk.
    method Collect(segs: seq<Seg>, start: nat, total: nat) returns (count: Option<nat>)
      requires start + total <= |disk|
      modifies `disk
      ensures disk == Write(old(disk), start, Collected(mem, segs, total)) && count == Count(|mem|, segs, total)
    {
      var off, i := 0, 0;
      ghost var addrs, was := Addresses(segs), disk;
      assert Write(was, start, Picked(mem, addrs, 0)) == was;
      while i < |segs|
        invariant 0 <= i <= |segs| && off == Min(total, Base(segs, i)) && |disk| == |was|
        invariant Reach(segs, i, off, total, |mem|) == Reach(segs, 0, 0, total, |mem|)
        invariant Within(addrs, off, |mem|) && disk == Write(was, start, Picked(mem, addrs, off))
      {
        if off == total {
          break;
        }
        var s, n := segs[i], Min(segs[i].len, total - off);
        NextSegment(segs, i, off, n, total, |mem|);
        if !InBounds(mem, s.gpa, n) {
          return None;
        }
        CollectedRun(was, start, mem, addrs, off, n, s.gpa);
        disk := Write(disk, start + off, mem[s.gpa..s.gpa + n]);
        off, i := off + n, i + 1;
      }
      BaseMonotone(segs, i, |segs|);
      count := Some(off);
    }

    method PrdtSegments(hdr: Header) returns (segs: seq<Seg>)
      ensures segs == Segments(mem, hdr.ctba + PRDT_OFFSET, hdr.prdtl)
    {
      var base := hdr.ctba + PRDT_OFFSET;
      segs := [];
      for i := 0 to hdr.prdtl
        invariant segs == Segments(mem, base, i) && |segs| == i
      {
        var prd := PrdAt(mem, base, i);
        if prd == None {
          SegmentsStop(mem, base, i, hdr.prdtl);
          break;
        }
        segs := segs + [prd.value];
      }
    }

    method Transfer(segs: seq<Seg>, fis: Fis) returns (count: Option<nat>)
      requires fis.command == READ_DMA_EXT || fis.command == WRITE_DMA_EXT
      modifies `mem, `disk
      ensures Moved(View(), count) == PerformDma(old(View()), Cmd(fis, segs))
    {
      var b := TransferBounds(fis, |disk|);
      if b == None {
        return None;
      }
      var start, total := b.value.start, b.value.total;
      if fis.command == READ_DMA_EXT {
        var data := disk[start..start + total];
        count := Deliver(segs, data);
      } else {
        count := Collect(segs, start, total);
      }
    }

    // Carry out a decoded command.
    method Dispatch(hdr: Header, fis: Fis) returns (count: Option<nat>)
      modifies `mem, `disk
      ensures Moved(View(), count)
           == Perform(old(View()), Cmd(fis, Segments(old(mem), hdr.ctba + PRDT_OFFSET, hdr.prdtl)), identify)
    {
      if fis.command == IDENTIFY {
        var segs := PrdtSegments(hdr);
        count := Deliver(segs, identify);
      } else if fis.command == READ_DMA_EXT || fis.command == WRITE_DMA_EXT {
        var segs := PrdtSegments(hdr);
        count := Transfer(segs, fis);
      } else {
        count := None;
      }
    }

    predicate CanInterrupt(bits: Bits)
      reads `ghc, `portIe
    {
      IE in ghc && portIe * bits != {}
    }

    method RaisePortInterrupt(bits: Bits)
      modifies `portIs, `hbaIs, `interruptPending
      ensures portIs == old(portIs) + bits && hbaIs == old(hbaIs) + {0}
      ensures interruptPending == (old(interruptPending) || CanInterrupt(bits))
    {
      portIs := portIs + bits;
      hbaIs := hbaIs + {0};
      if IE in ghc && portIe * bits != {} {
        interruptPending := true;
      }
    }

    // Completion: count, task file, FIS and interrupt.
    method Complete(hdrGpa: nat, count: Option<nat>)
      modifies `mem, `tfd, `portIs, `hbaIs, `interruptPending
      ensures FRE in cmd ==> mem == Completed(old(mem), hdrGpa, fb, count)
      ensures FRE !in cmd ==> mem == if count.Some? then Write(old(mem), hdrGpa + 4, ToLe(count.value, WORD)) else old(mem)
      ensures tfd == if count.Some? then DRDY else DRDY_ERR + 0x100 * ABRT
      ensures portIs == old(portIs) + if count.Some? then {DHRS} else {DHRS, TFES}
      ensures hbaIs == old(hbaIs) + {0}
      ensures interruptPending ==
        (old(interruptPending) || CanInterrupt(if count.Some? then {DHRS} else {DHRS, TFES}))
    {
      if count.Some? {
        mem := Write(mem, hdrGpa + 4, ToLe(count.value, WORD));
        tfd := DRDY;
        if FRE in cmd {
          mem := Write(mem, Wrap(fb + 0x40), D2h(DRDY, 0));
        }
        RaisePortInterrupt({DHRS});
      } else {
        tfd := 0x441;
        if FRE in cmd {
          mem := Write(mem, Wrap(fb + 0x40), D2h(DRDY_ERR, ABRT));
        }
        RaisePortInterrupt({DHRS, TFES});
      }
    }

    /** One slot: what it does to memory and disk is the function of its structures in memory. */
    method RunSlot(slot: nat) returns (ghost moved: Moved)
      requires FRE in cmd
      modifies `mem, `disk, `tfd, `portIs, `hbaIs, `interruptPending
      ensures moved == Ran(old(View()), clb, fb, slot, identify) && View() == moved.m
      ensures tfd == if moved.count.Some? then DRDY else DRDY_ERR + 0x100 * ABRT
      ensures portIs == old(portIs) + if moved.count.Some? then {DHRS} else {DHRS, TFES}
      ensures hbaIs == old(hbaIs) + {0}
      ensures interruptPending ==
        (old(interruptPending) || CanInterrupt(if moved.count.Some? then {DHRS} else {DHRS, TFES}))
    {
      var hdrGpa := HeaderAt(clb, slot);
      var count := Execute(hdrGpa);
      moved := Ran(old(View()), clb, fb, slot, identify);
      Complete(hdrGpa, count);
    }

    method Execute(hdrGpa: nat) returns (count: Option<nat>)
      modifies `mem, `disk
      ensures Moved(View(), count) == match Decode(old(mem), hdrGpa)
                                      case None => Moved(old(View()), None)
                                      case Some(c) => Perform(old(View()), c, identify)
    {
      var h := Read(mem, hdrGpa, HEADER_SIZE);
      if h == None {
        return None;
      }
      var hdr := ParseHeader(h.value).value;
      var f := Read(mem, hdr.ctba, FIS_SIZE);
      if f == None {
        return None;
      }
      var fis := ParseFis(f.value);
      if fis == None {
        return None;
      }
      count := Dispatch(hdr, fis.value);
    }

    predicate Running()
      reads `ghc, `cmd, `present
    {
      AE in ghc && ST in cmd && FRE in cmd && present
    }

    // The response cause and the port's bit are up, and with both enabled the line is.
    predicate Announced()
      reads `portIs, `hbaIs, `ghc, `portIe, `interruptPending
    {
      DHRS in portIs && 0 in hbaIs && (IE in ghc && DHRS in portIe ==> interruptPending)
    }

    /** Issued slots run in order and their bits clear, and a driver that enabled the response cause is
        interrupted if there was one; a stopped port, or one with nothing issued, changes nothing. */
    method ProcessCommands()
      modifies `mem, `disk, `tfd, `portIs, `hbaIs, `interruptPending, `ci
      ensures !Running() ==> unchanged(this)
      ensures Running() ==> View() == RanTo(Runner(clb, fb, identify), old(View()), old(ci), numSlots)
      ensures Running() ==> forall b :: b in ci <==> b in old(ci) && b >= numSlots
      ensures Running() && AnyBelow(old(ci), numSlots) ==> Announced()
      ensures !AnyBelow(old(ci), numSlots) ==> unchanged(this)
    {
      if AE !in ghc {
        return;
      }
      if ST !in cmd || FRE !in cmd {
        return;
      }
      if !present {
        return;
      }
      RunIssued(Runner(clb, fb, identify));
    }

    // One slot, in terms of what the loop needs of it.
    method RunOne(slot: nat, ghost run: (Machine, nat) -> Machine)
      requires FRE in cmd && forall m, k :: run(m, k) == Ran(m, clb, fb, k, identify).m
      modifies `mem, `disk, `tfd, `portIs, `hbaIs, `interruptPending
      ensures View() == run(old(View()), slot) && Announced()
    {
      ghost var moved := RunSlot(slot);
      assert DHRS in portIe ==> DHRS in portIe * (if moved.count.Some? then {DHRS} else {DHRS, TFES});
    }

    // The loop over the slots; `run` is what a slot does.
    method RunIssued(ghost run: (Machine, nat) -> Machine)
      requires FRE in cmd && forall m, k :: run(m, k) == Ran(m, clb, fb, k, identify).m
      modifies `mem, `disk, `tfd, `portIs, `hbaIs, `interruptPending, `ci
      ensures View() == RanTo(run, old(View()), old(ci), numSlots)
      ensures forall b :: b in ci <==> b in old(ci) && b >= numSlots
      ensures if AnyBelow(old(ci), numSlots) then Announced() else unchanged(this)
    {
      for slot := 0 to numSlots
        invariant View() == RanTo(run, old(View()), old(ci), slot)
        invariant forall b :: b in ci <==> b in old(ci) && b >= slot
        invariant if AnyBelow(old(ci), slot) then Announced() else unchanged(this)
      {
        AnyNext(old(ci), slot);
        if slot !in ci {
          continue;
        }
        RunOne(slot, run);
        ci := ci - {slot};
      }
    }
  }

  // Some slot below n is issued.
  ghost predicate AnyBelow(ci: Bits, n: nat) { exists slot: nat :: slot < n && slot in ci }

  lemma AnyNext(ci: Bits, n: nat)
    ensures AnyBelow(ci, n + 1) <==> AnyBelow(ci, n) || n in ci
  {
  }

  lemma CollectedRun(d: seq<byte>, start: nat, mem: Mem, addrs: seq<nat>, off: nat, n: nat, gpa: nat)
    requires gpa + n <= |mem| && Within(addrs, off, |mem|) && off + n <= |addrs| && start + off + n <= |d|
    requires forall k :: off <= k < off + n ==> addrs[k] == gpa + (k - off)
    ensures Within(addrs, off + n, |mem|)
    ensures Write(Write(d, start, Picked(mem, addrs, off)), start + off, mem[gpa..gpa + n])
         == Write(d, start, Picked(mem, addrs, off + n))
  {
    PickedRun(mem, addrs, off, n, gpa);
    WriteJoin(d, start, Picked(mem, addrs, off), mem[gpa..gpa + n]);
  }

  lemma PickedRun(mem: Mem, addrs: seq<nat>, off: nat, n: nat, gpa: nat)
    requires gpa + n <= |mem| && Within(addrs, off, |mem|) && off + n <= |addrs|
    requires forall k :: off <= k < off + n ==> addrs[k] == gpa + (k - off)
    ensures Within(addrs, off + n, |mem|)
    ensures Picked(mem, addrs, off + n) == Picked(mem, addrs, off) + mem[gpa..gpa + n]
  {
  }

  // Two stores next to each other are one.
  lemma WriteJoin(d: seq<byte>, at: nat, x: seq<byte>, y: seq<byte>)
    requires at + |x| + |y| <= |d|
    ensures Write(Write(d, at, x), at + |x|, y) == Write(d, at, x + y)
  {
  }
}
