/**
 AHCI transfers as a driver sees them: a command laid out in memory for so many sectors from a logical block
 address on, and the bytes of the disk it reads or writes.
 */
module AhciDriver {
  import opened Common
  import opened Dma
  import opened Scatter
  import opened Ahci
  import opened AhciLayout
  import opened AhciDma

  // A transfer in a slot: where its table lies, its first sector and the count field, zero standing for 65536.
  datatype Request = Request(table: u64, device: byte, lba: nat, count: nat, segs: seq<Seg>) {
    predicate Valid() { lba < 0x1_0000_0000_0000 && count < 0x1_0000 && |segs| < 0x1_0000 }
    function Sectors(): nat { if count == 0 then 65536 else count }
    function From(): nat { 512 * lba }
    function Bytes(): nat { 512 * Sectors() }
    function To(): nat { From() + Bytes() }
    function Cmd(op: byte): Cmd { Ahci.Cmd(Fis(op, device, lba, count), segs) }
  }

  ghost predicate Laid(mem: Mem, clb: u64, slot: nat, op: byte, q: Request) {
    && q.Valid() && clb + 32 * slot < TWO64
    && HeaderLaid(mem, clb + 32 * slot, Header(|q.segs|, q.table))
    && FisLaid(mem, q.table, Fis(op, q.device, q.lba, q.count))
    && TableLaid(mem, q.table + 128, q.segs)
  }

  ghost predicate TableLaid(mem: Mem, at: nat, segs: seq<Seg>) {
    forall i {:trigger EntryLaid(mem, at, segs, i)} :: 0 <= i < |segs| ==> EntryLaid(mem, at, segs, i)
  }

  ghost predicate EntryLaid(mem: Mem, at: nat, segs: seq<Seg>, i: nat)
    requires i < |segs|
  {
    segs[i].gpa < TWO64 && segs[i].len <= 0x40_0000 && SegLaid(mem, at + i * 16, segs[i])
  }

  lemma HeaderIs(clb: u64, slot: nat)
    requires clb + 32 * slot < TWO64
    ensures HeaderAt(clb, slot) == clb + 32 * slot
  {
  }

  type Run = (Machine, nat) -> Moved

  // What running a slot of a port does, for every machine and slot looked at.
  ghost predicate Runs(run: Run, clb: u64, fb: u64, identify: seq<byte>) {
    forall m, slot {:trigger Looked(m, slot)} | Looked(m, slot) :: run(m, slot) == Ran(m, clb, fb, slot, identify)
  }

  predicate Looked(m: Machine, slot: nat) { true }

  ghost function SlotRunner(clb: u64, fb: u64, identify: seq<byte>): Run {
    (m: Machine, slot: nat) => Ran(m, clb, fb, slot, identify)
  }

  lemma RunnerRuns(clb: u64, fb: u64, identify: seq<byte>)
    ensures Runs(SlotRunner(clb, fb, identify), clb, fb, identify)
  {
  }

  // The engine finds this request in the slot.
  ghost predicate InSlot(mem: Mem, clb: u64, slot: nat, op: byte, q: Request) {
    q.Valid() && Decode(mem, HeaderAt(clb, slot)) == Some(q.Cmd(op))
  }

  /** A request laid out in a slot, 32 bytes for each header and the descriptors 128 bytes into the table, is the one
      the engine finds there. */
  lemma LaidIsFound(mem: Mem, clb: u64, slot: nat, op: byte, q: Request)
    requires Laid(mem, clb, slot, op, q)
    ensures HeaderAt(clb, slot) == clb + 32 * slot && InSlot(mem, clb, slot, op, q)
  {
    HeaderIs(clb, slot);
    TableDecodes(mem, clb + 32 * slot, Header(|q.segs|, q.table), q.Cmd(op));
  }

  lemma TableDecodes(mem: Mem, at: nat, hdr: Header, c: Cmd)
    requires hdr.prdtl == |c.segs| < 0x1_0000 && c.fis.lba < 0x1_0000_0000_0000 && c.fis.count < 0x1_0000
    requires HeaderLaid(mem, at, hdr) && FisLaid(mem, hdr.ctba, c.fis) && TableLaid(mem, hdr.ctba + 128, c.segs)
    ensures Decode(mem, at) == Some(c)
  {
    forall i | 0 <= i < |c.segs|
      ensures c.segs[i].gpa < TWO64 && c.segs[i].len <= 0x40_0000
      ensures SegLaid(mem, hdr.ctba + PRDT_OFFSET + i * PRD_SIZE, c.segs[i])
    {
      assert EntryLaid(mem, hdr.ctba + 128, c.segs, i);
    }
    DecodesAsLaidOut(mem, at, hdr, c);
  }

  /** A request is accepted exactly when its last sector lies on the disk, and then takes 512 bytes for each sector
      from 512 times its address on. */
  lemma BoundsOf(q: Request, op: byte, size: nat)
    requires q.Valid()
    ensures TransferBounds(q.Cmd(op).fis, size) == if q.To() <= size then Some(Bounds(q.From(), q.Bytes())) else None
  {
  }

  /** The first sector begins the disk, and a request ends where one for the sectors after it begins. */
  lemma BoundsFollow(q: Request, next: Request, op: byte, size: nat)
    requires q.Valid() && next.Valid() && next.lba == q.lba + q.Sectors() && next.To() <= size
    ensures TransferBounds(q.Cmd(op).fis, size).Some? && TransferBounds(next.Cmd(op).fis, size).Some?
    ensures var b, c := TransferBounds(q.Cmd(op).fis, size).value, TransferBounds(next.Cmd(op).fis, size).value;
      b.start + b.total == c.start && (q.lba == 0 ==> b.start == 0)
  {
    BoundsOf(q, op, size);
    BoundsOf(next, op, size);
  }

  // The list reaches as far as the request and lies in memory.
  ghost predicate Room(q: Request, size: nat) { Covers(q.segs, q.Bytes(), size) }

  // And visits no address twice, nor what completing the command writes.
  ghost predicate Spaced(q: Request, hdrGpa: nat, fb: u64) { SpacedFor(q.segs, q.Bytes(), hdrGpa, fb) }

  ghost predicate SpacedFor(segs: seq<Seg>, n: nat, hdrGpa: nat, fb: u64) {
    n <= |Addresses(segs)| && Distinct(Addresses(segs)[..n]) && ListClear(segs, n, hdrGpa, fb)
  }

  // The addresses, in order, hold these bytes.
  ghost predicate Hold(mem: Mem, addrs: seq<nat>, data: seq<byte>) {
    Within(addrs, |data|, |mem|) && Picked(mem, addrs, |data|) == data
  }

  // The disk with other bytes between two places.
  ghost predicate Replaced(was: seq<byte>, from: nat, to: nat, data: seq<byte>, now: seq<byte>) {
    from <= to <= |was| && |data| == to - from && now == was[..from] + data + was[to..]
  }

  lemma FoundIssued(m: Machine, clb: u64, slot: nat, op: byte, q: Request)
    requires InSlot(m.mem, clb, slot, op, q) && q.To() <= |m.disk| && Room(q, |m.mem|)
    ensures Issued(m, HeaderAt(clb, slot), op, Bounds(q.From(), q.Bytes()), q.segs)
  {
    BoundsOf(q, op, |m.disk|);
  }

  /** READ DMA EXT: the addresses of the list, in order, hold disk bytes 512 * lba up to 512 * (lba + n). */
  lemma SectorsRead(m: Machine, ran: Moved, run: Run, clb: u64, fb: u64, slot: nat, identify: seq<byte>, q: Request)
    requires InSlot(m.mem, clb, slot, 0x25, q) && q.To() <= |m.disk| && Room(q, |m.mem|)
    requires Spaced(q, HeaderAt(clb, slot), fb)
    requires ran == run(m, slot) && Runs(run, clb, fb, identify)
    ensures |ran.m.mem| == |m.mem| && Hold(ran.m.mem, Addresses(q.segs), m.disk[q.From()..q.To()])
    ensures ran.count == Some(q.Bytes()) && ran.m.disk == m.disk
  {
    FoundIssued(m, clb, slot, 0x25, q);
    IssuedRead(m, ran, run, clb, fb, slot, identify, Bounds(q.From(), q.Bytes()), q.segs);
  }

  lemma IssuedRead(m: Machine, ran: Moved, run: Run, clb: u64, fb: u64, slot: nat, identify: seq<byte>, b: Bounds,
                   segs: seq<Seg>)
    requires Issued(m, HeaderAt(clb, slot), READ_DMA_EXT, b, segs) && b.start + b.total <= |m.disk|
    requires SpacedFor(segs, b.total, HeaderAt(clb, slot), fb) && ran == run(m, slot) && Runs(run, clb, fb, identify)
    ensures |ran.m.mem| == |m.mem| && Hold(ran.m.mem, Addresses(segs), m.disk[b.start..b.start + b.total])
    ensures ran.count == Some(b.total) && ran.m.disk == m.disk
  {
    assert Looked(m, slot);
    ReadDelivers(m, ran, clb, fb, slot, identify, b, segs);
  }

  lemma WriteIs(d: seq<byte>, at: nat, data: seq<byte>)
    requires at + |data| <= |d|
    ensures Replaced(d, at, at + |data|, data, Write(d, at, data))
  {
  }

  /** WRITE DMA EXT: disk bytes 512 * lba up to 512 * (lba + n) are what the list held, and no other changes. */
  lemma SectorsWritten(m: Machine, ran: Moved, run: Run, clb: u64, fb: u64, slot: nat, identify: seq<byte>,
                       q: Request, data: seq<byte>)
    requires InSlot(m.mem, clb, slot, 0x35, q) && q.To() <= |m.disk| && Room(q, |m.mem|)
    requires ran == run(m, slot) && Runs(run, clb, fb, identify)
    requires |data| == q.Bytes() && Hold(m.mem, Addresses(q.segs), data)
    ensures Replaced(m.disk, q.From(), q.To(), data, ran.m.disk) && ran.count == Some(q.Bytes()) && |ran.m.mem| == |m.mem|
  {
    FoundIssued(m, clb, slot, 0x35, q);
    IssuedWrite(m, ran, run, clb, fb, slot, identify, Bounds(q.From(), q.Bytes()), q.segs, data);
  }

  lemma IssuedWrite(m: Machine, ran: Moved, run: Run, clb: u64, fb: u64, slot: nat, identify: seq<byte>,
                    b: Bounds, segs: seq<Seg>, data: seq<byte>)
    requires Issued(m, HeaderAt(clb, slot), WRITE_DMA_EXT, b, segs) && b.start + b.total <= |m.disk|
    requires ran == run(m, slot) && Runs(run, clb, fb, identify)
    requires |data| == b.total && Hold(m.mem, Addresses(segs), data)
    ensures Replaced(m.disk, b.start, b.start + b.total, data, ran.m.disk) && ran.count == Some(b.total)
    ensures |ran.m.mem| == |m.mem|
  {
    assert Looked(m, slot);
    WriteRuns(m, clb, fb, slot, identify, b, segs);
    WriteIs(m.disk, b.start, data);
  }

  /** Either way, a request that runs past the disk fails and moves nothing. */
  lemma SectorsRefused(m: Machine, ran: Moved, run: Run, clb: u64, fb: u64, slot: nat, op: byte, identify: seq<byte>, q: Request)
    requires InSlot(m.mem, clb, slot, op, q) && (op == 0x25 || op == 0x35) && q.To() > |m.disk|
    requires ran == run(m, slot) && Runs(run, clb, fb, identify)
    ensures ran.count == None && ran.m == Machine(Completed(m.mem, HeaderAt(clb, slot), fb, None), m.disk)
  {
    assert Looked(m, slot);
    BoundsOf(q, op, |m.disk|);
    RanAs(m, clb, fb, slot, identify, q.Cmd(op));
  }

  /** So does any command but these two and IDENTIFY DEVICE. */
  lemma OthersRefused(m: Machine, ran: Moved, run: Run, clb: u64, fb: u64, slot: nat, op: byte, identify: seq<byte>, q: Request)
    requires InSlot(m.mem, clb, slot, op, q) && op != 0x25 && op != 0x35 && op != 0xEC
    requires ran == run(m, slot) && Runs(run, clb, fb, identify)
    ensures ran.count == None && ran.m == Machine(Completed(m.mem, HeaderAt(clb, slot), fb, None), m.disk)
  {
    assert Looked(m, slot);
    RanAs(m, clb, fb, slot, identify, q.Cmd(op));
  }

  /** IDENTIFY DEVICE: the addresses of the list hold the identify block. */
  lemma Identified(m: Machine, ran: Moved, run: Run, clb: u64, fb: u64, slot: nat, identify: seq<byte>, q: Request)
    requires InSlot(m.mem, clb, slot, 0xEC, q) && Covers(q.segs, |identify|, |m.mem|)
    requires SpacedFor(q.segs, |identify|, HeaderAt(clb, slot), fb)
    requires ran == run(m, slot) && Runs(run, clb, fb, identify)
    ensures |ran.m.mem| == |m.mem| && Hold(ran.m.mem, Addresses(q.segs), identify)
    ensures ran.count == Some(|identify|) && ran.m.disk == m.disk
  {
    assert Looked(m, slot);
    RanAs(m, clb, fb, slot, identify, q.Cmd(0xEC));
    WholeReach(q.segs, |identify|, |m.mem|);
    SpreadSurvives(m.mem, q.segs, identify, HeaderAt(clb, slot), fb);
  }

  /** However its list falls short, a write changes no disk byte outside its sectors; no other command changes any. */
  lemma SectorsOutside(m: Machine, ran: Moved, run: Run, clb: u64, fb: u64, slot: nat, op: byte, identify: seq<byte>,
                       q: Request, p: nat)
    requires InSlot(m.mem, clb, slot, op, q) && ran == run(m, slot) && Runs(run, clb, fb, identify) && p < |m.disk|
    requires op != 0x35 || p < q.From() || q.To() <= p
    ensures |ran.m.disk| == |m.disk| && ran.m.disk[p] == m.disk[p]
  {
    assert Looked(m, slot);
    BoundsOf(q, op, |m.disk|);
    DiskOutside(m, clb, fb, slot, identify, p);
  }

  /** What a slot holds stays there while the memory of its structures does. */
  lemma StaysInSlot(m: Mem, n: Mem, clb: u64, slot: nat, op: byte, q: Request)
    requires InSlot(m, clb, slot, op, q) && SameCommand(m, n, HeaderAt(clb, slot))
    ensures InSlot(n, clb, slot, op, q)
  {
    DecodeFrame(m, n, HeaderAt(clb, slot));
  }

  lemma ReplacedSlice(was: seq<byte>, from: nat, to: nat, data: seq<byte>, now: seq<byte>)
    requires Replaced(was, from, to, data, now)
    ensures |now| == |was| && now[from..to] == data
  {
  }

  /** A write of n sectors from lba and then a read of the same carry the bytes of one list to the other. */
  lemma SectorsCarried(m: Machine, one: Moved, two: Moved, run: Run, clb: u64, fb: u64, w: nat, r: nat,
                       identify: seq<byte>, p: Request, q: Request, data: seq<byte>)
    requires one == run(m, w) && two == run(one.m, r) && Runs(run, clb, fb, identify)
    requires InSlot(m.mem, clb, w, 0x35, p) && InSlot(one.m.mem, clb, r, 0x25, q) && p.lba == q.lba && p.count == q.count
    requires q.To() <= |m.disk| && Room(p, |m.mem|) && Room(q, |m.mem|) && Spaced(q, HeaderAt(clb, r), fb)
    requires |data| == p.Bytes() && Hold(m.mem, Addresses(p.segs), data)
    ensures one.count == Some(p.Bytes()) == two.count
    ensures Hold(two.m.mem, Addresses(q.segs), data) && Replaced(m.disk, q.From(), q.To(), data, two.m.disk)
  {
    SectorsWritten(m, one, run, clb, fb, w, identify, p, data);
    ReplacedSlice(m.disk, p.From(), p.To(), data, one.m.disk);
    SectorsRead(one.m, two, run, clb, fb, r, identify, q);
  }

  /** Every slot, whatever it holds, answers with a register FIS in the received-FIS area: type 0x34 with the interrupt
      bit, ready, or ready with error and abort. */
  lemma Responds(m: Machine, ran: Moved, run: Run, clb: u64, fb: u64, slot: nat, identify: seq<byte>)
    requires ran == run(m, slot) && Runs(run, clb, fb, identify) && fb + 0x54 <= |m.mem| && fb + 0x54 <= TWO64
    ensures |ran.m.mem| == |m.mem|
    ensures ran.m.mem[fb + 0x40..fb + 0x54] == Response(ran.count.Some?)
  {
    assert Looked(m, slot);
    var h := HeaderAt(clb, slot);
    match Decode(m.mem, h)
    case None => Posted(m.mem, h, fb, None);
    case Some(c) =>
      var moved := Perform(m, c, identify);
      Posted(moved.m.mem, h, fb, moved.count);
  }

  lemma Posted(mem: Mem, hdrGpa: nat, fb: u64, count: Option<nat>)
    requires fb + 0x54 <= |mem| && fb + 0x54 <= TWO64
    ensures var after := Completed(mem, hdrGpa, fb, count);
      |after| == |mem| && after[fb + 0x40..fb + 0x54] == Response(count.Some?)
  {
    ResponseIs();
    var m := if count.Some? then Write(mem, hdrGpa + 4, ToLe(count.value, WORD)) else mem;
    PostedAt(m, fb, Response(count.Some?));
  }

  lemma ResponseIs()
    ensures D2h(DRDY, 0) == Response(true) && D2h(DRDY_ERR, ABRT) == Response(false)
  {
  }

  lemma PostedAt(m: Mem, fb: u64, fis: seq<byte>)
    requires fb + 0x54 <= |m| && fb + 0x54 <= TWO64 && |fis| == 20
    ensures |Write(m, Wrap(fb + 0x40), fis)| == |m| && Write(m, Wrap(fb + 0x40), fis)[fb + 0x40..fb + 0x54] == fis
  {
    WrittenSlice(m, fb + 0x40, fis);
  }

  // Type and interrupt bit, then ready, or ready with error and the reason.
  function Response(ok: bool): (r: seq<byte>)
    ensures |r| == 20
  {
    [0x34, 0x40] + (if ok then [0x40, 0] else [0x41, 4]) + seq(16, _ => 0)
  }

  /** A port that is started, in the numbers of the registers: GHC bit 31 enables the controller and bit 1 its
      interrupts, PxCMD bits 0 and 4 start the port and its FIS reception, and bit 0 of PxIE asks for the response
      interrupt.  Every issued slot runs; with any of these bits clear, or no device, nothing does. */
  method RunPort(c: Controller)
    modifies c
    ensures var on := 31 in c.ghc && 0 in c.cmd && 4 in c.cmd && c.present;
      && (!on ==> c.View() == old(c.View()) && c.ci == old(c.ci))
      && (on ==> c.View() == RanTo(Ahci.Runner(c.clb, c.fb, c.identify), old(c.View()), old(c.ci), c.numSlots))
      && (on ==> forall b :: b in c.ci <==> b in old(c.ci) && b >= c.numSlots)
      && (on && AnyBelow(old(c.ci), c.numSlots) && 1 in c.ghc && 0 in c.portIe ==> c.interruptPending)
  {
    c.ProcessCommands();
  }
}
