/**
 The 82077AA floppy controller: a FIFO protocol of command, parameter, execution and result phases
 over a 1.44MB image.  A write is staged and reaches the image only with its last byte.
 */
module Fdc {
  import opened Arith
  import opened Common

  type u8 = x: int | 0 <= x < 256

  // ---- Geometry ----------------------------------------------------------------------------

  const CYLINDERS: int := 80
  const HEADS: int := 2
  const SECTORS: int := 18
  const SECTOR_SIZE: int := 512
  const IMAGE_SIZE: int := CYLINDERS * HEADS * SECTORS * SECTOR_SIZE
  const TRACK_SIZE: int := SECTORS * SECTOR_SIZE

  function ChsToOffset(cyl: u8, head: u8, sector: u8): (r: Option<nat>)
    ensures r.Some? <==> cyl < CYLINDERS && head < HEADS && 1 <= sector <= SECTORS
    ensures r.Some? ==> r.value % SECTOR_SIZE == 0 && r.value + SECTOR_SIZE <= IMAGE_SIZE
  {
    if cyl >= CYLINDERS || head >= HEADS || sector == 0 || sector > SECTORS then None
    else Some(((cyl * HEADS + head) * SECTORS + (sector - 1)) * SECTOR_SIZE)
  }

  /** Two sectors of the geometry never share a byte of the image. */
  lemma ChsInjective(c: u8, h: u8, s: u8, c': u8, h': u8, s': u8)
    requires ChsToOffset(c, h, s).Some? && ChsToOffset(c, h, s) == ChsToOffset(c', h', s')
    ensures c == c' && h == h' && s == s'
  {
    assert (c * HEADS + h) * SECTORS + (s - 1) == (c' * HEADS + h') * SECTORS + (s' - 1);
    assert c * HEADS + h == c' * HEADS + h';
  }

  /** Every sector of the image has an address. */
  lemma ChsSurjective(off: nat) returns (c: u8, h: u8, s: u8)
    requires off < IMAGE_SIZE && off % SECTOR_SIZE == 0
    ensures ChsToOffset(c, h, s) == Some(off)
  {
    var lba := off / SECTOR_SIZE;
    var track := lba / SECTORS;
    c, h, s := track / HEADS, track % HEADS, lba % SECTORS + 1;
  }

  /** The image is in disk order: the sectors of a track, then the other head, then the next cylinder. */
  lemma DiskOrder(cyl: u8, head: u8, sector: u8)
    requires ChsToOffset(cyl, head, sector).Some?
    ensures ChsToOffset(0, 0, 1) == Some(0)
    ensures var here := ChsToOffset(cyl, head, sector).value;
      && (sector < 18 ==> ChsToOffset(cyl, head, sector + 1) == Some(here + 512))
      && (sector == 18 && head == 0 ==> ChsToOffset(cyl, 1, 1) == Some(here + 512))
      && (sector == 18 && head == 1 && cyl < 79 ==> ChsToOffset(cyl + 1, 0, 1) == Some(here + 512))
      && (sector == 18 && head == 1 && cyl == 79 ==> here + 512 == IMAGE_SIZE == 1474560)
  {
  }

  // ---- Command bytes -----------------------------------------------------------------------

  const READ_TRACK := 0x02
  const SPECIFY := 0x03
  const SENSE_DRIVE := 0x04
  const WRITE_DATA := 0x05
  const READ_DATA := 0x06
  const RECALIBRATE := 0x07
  const SENSE_INTERRUPT := 0x08
  const WRITE_DELETED := 0x09
  const READ_ID := 0x0A
  const READ_DELETED := 0x0C
  const FORMAT_TRACK := 0x0D
  const DUMPREG := 0x0E
  const SEEK := 0x0F
  const VERSION := 0x10
  const CONFIGURE := 0x13

  // The low five bits select the command.
  function Opcode(command: u8): u8 { Low(command, 32) }

  predicate Reads(op: u8) { op == READ_DATA || op == READ_DELETED || op == READ_TRACK }

  predicate Writes(op: u8) { op == WRITE_DATA || op == WRITE_DELETED }

  predicate Housekeeping(op: u8) {
    || op == SPECIFY || op == CONFIGURE || op == SENSE_DRIVE
    || op == RECALIBRATE || op == SENSE_INTERRUPT || op == SEEK
  }

  function Needed(op: u8): nat {
    if op == SPECIFY || op == SEEK then 2
    else if op == SENSE_DRIVE || op == RECALIBRATE || op == READ_ID then 1
    else if Reads(op) || Writes(op) then 8
    else if op == FORMAT_TRACK then 5
    else if op == CONFIGURE then 3
    else 0
  }

  // Parameter bytes by opcode.
  const LENGTHS: seq<nat> := [0, 0, 8, 2, 1, 8, 8, 1, 0, 8, 1, 0, 8, 5, 0, 2, 0, 0, 0, 3, 0, 0, 0, 0, 0, 0, 0, 0, 0, 0, 0, 0]

  lemma LengthTable(op: u8)
    requires op < 32
    ensures Needed(op) == LENGTHS[op]
  {
  }

  // Bit 2 is the head, bits 1 and 0 the drive.
  function HeadBit(p: u8): u8 { if Low(p, 8) >= 4 then 1 else 0 }

  function DriveBits(p: u8): u8 { Low(p, 4) }

  function Max(a: int, b: int): int { if a > b then a else b }

  function Min(a: int, b: int): int { if a < b then a else b }

  // Sectors from r up to and including eot, at most a track.
  function SectorCount(r: u8, eot: u8): int { Min(Max(eot, r) - r + 1, SECTORS) }

  // Where a read or write of these eight parameters begins, and its length in bytes.
  function Start(ps: seq<u8>): Option<nat>
    requires |ps| == 8
  {
    ChsToOffset(ps[1], HeadBit(ps[0]), ps[3])
  }

  function Length(ps: seq<u8>): nat
    requires |ps| == 8
  {
    SectorCount(ps[3], ps[5]) * SECTOR_SIZE
  }

  // What executing a command leads to: nothing more, n result bytes, or n data bytes to or from the
  // host followed by the seven result bytes.
  datatype Outcome = Idle | Results(n: nat) | Sends(n: nat) | Takes(n: nat)

  function Total(o: Outcome): nat {
    match o
    case Idle => 0
    case Results(n) => n
    case Sends(n) => n + 7
    case Takes(n) => n + 7
  }

  function OutcomeOf(op: u8, ps: seq<u8>, writeProtect: bool, interrupt: bool): Outcome
    requires |ps| == Needed(op)
  {
    if op == SPECIFY || op == CONFIGURE || op == RECALIBRATE || op == SEEK then Idle
    else if op == DUMPREG then Results(10)
    else if op == SENSE_INTERRUPT then Results(if interrupt then 2 else 1)
    else if op == READ_ID || op == FORMAT_TRACK then Results(7)
    else if Reads(op) then ReadOutcome(ps)
    else if Writes(op) then WriteOutcome(ps, writeProtect)
    else Results(1)
  }

  function ReadOutcome(ps: seq<u8>): Outcome
    requires |ps| == 8
  {
    if Start(ps).None? then Results(7) else Sends(Length(ps))
  }

  function WriteOutcome(ps: seq<u8>, writeProtect: bool): Outcome
    requires |ps| == 8
  {
    if Start(ps).None? || writeProtect then Results(7) else Takes(Length(ps))
  }

  // ---- The image ---------------------------------------------------------------------------

  // n bytes from start; past the end of the image there are zeros.
  function Span(image: seq<u8>, start: nat, n: nat): seq<u8> {
    seq(n, k requires 0 <= k => if start + k < |image| then image[start + k] else 0)
  }

  // The image with data laid over it at start, as far as it reaches.
  function Overlaid(image: seq<u8>, start: nat, data: seq<u8>): (r: seq<u8>)
    ensures |r| == |image|
  {
    seq(|image|, k requires 0 <= k < |image| => if start <= k < start + |data| then data[k - start] else image[k])
  }

  /** What was laid over the image reads back, and only what fell inside it survives. */
  lemma SpanOfOverlaid(image: seq<u8>, start: nat, data: seq<u8>)
    ensures Span(Overlaid(image, start, data), start, |data|)
         == seq(|data|, k requires 0 <= k < |data| => if start + k < |image| then data[k] else 0)
  {
  }

  /** Reading back gives what was written, whatever it was, exactly when the span lies inside the image. */
  lemma ReadBackExact(image: seq<u8>, start: nat, n: nat)
    ensures (forall data: seq<u8> :: |data| == n ==> Span(Overlaid(image, start, data), start, n) == data)
        <==> n == 0 || start + n <= |image|
  {
    if n == 0 || start + n <= |image| {
      forall data: seq<u8> | |data| == n
        ensures Span(Overlaid(image, start, data), start, n) == data
      {
        SpanOfOverlaid(image, start, data);
      }
    } else {
      var ones: seq<u8> := seq(n, _ => 1);
      SpanOfOverlaid(image, start, ones);
      assert Span(Overlaid(image, start, ones), start, n)[n - 1] == 0 != ones[n - 1];
    }
  }

  // ST0, ST1, ST2, an address and the code of 512-byte sectors.
  function Report(st0: u8, st1: u8, at: Address): (r: seq<u8>)
    ensures |r| == 7
  {
    [st0, st1, 0, at.cylinder, at.head, at.sector, 2]
  }

  // ---- The controller ----------------------------------------------------------------------

  datatype Phase = Command | Parameters | WriteExecution | ReadExecution | Result

  // Where the protocol stands.  `lba` is the image offset a staged write began at.
  datatype Fifo = Fifo(phase: Phase, command: u8, params: seq<u8>, needed: nat,
                       result: seq<u8>, resultPos: nat, xfer: seq<u8>, xferPos: nat, lba: nat)
  {
    // Each cursor lies strictly inside its buffer.
    predicate Valid() {
      match phase
      case Command => true
      case Parameters => needed == Needed(Opcode(command)) && |params| < needed
      case WriteExecution => xferPos < |xfer| && lba < IMAGE_SIZE
      case ReadExecution => xferPos < |xfer|
      case Result => resultPos < |result|
    }

    function Idled(): Fifo {
      this.(phase := Command, params := [], needed := 0, result := [], resultPos := 0, xfer := [], xferPos := 0)
    }

    function Presenting(bytes: seq<u8>): Fifo {
      this.(phase := Result, result := bytes, resultPos := 0)
    }

    function Sending(data: seq<u8>): Fifo {
      this.(phase := ReadExecution, xfer := data, xferPos := 0)
    }

    function Taking(n: nat, start: nat): Fifo {
      this.(phase := WriteExecution, xfer := seq(n, _ => 0), xferPos := 0, lba := start)
    }

    // Waiting for the parameters of a command.
    function Asking(value: u8): Fifo {
      this.(phase := Parameters, command := value, params := [], needed := Needed(Opcode(value)))
    }

    // The byte a read hands out.
    function Front(): u8
      requires Valid()
    {
      if phase == ReadExecution then xfer[xferPos] else if phase == Result then result[resultPos] else 0
    }

    // One byte further on in a read, with the report that follows the data.
    function Popped(report: seq<u8>): Fifo {
      if phase == ReadExecution then
        var next := this.(xferPos := xferPos + 1);
        if next.xferPos < |xfer| then next else next.Presenting(report)
      else if phase == Result then
        var next := this.(resultPos := resultPos + 1);
        if next.resultPos < |result| then next else next.Idled()
      else this
    }

    // One byte further on in a write.
    function Pushed(value: u8, report: seq<u8>): Fifo
      requires xferPos < |xfer|
    {
      var next := this.(xfer := xfer[xferPos := value], xferPos := xferPos + 1);
      if next.xferPos < |xfer| then next else next.Presenting(report)
    }

    predicate Reached(o: Outcome) {
      match o
      case Idle => phase == Command
      case Results(n) => phase == Result && |result| == n && resultPos == 0
      case Sends(n) => phase == ReadExecution && |xfer| == n && xferPos == 0
      case Takes(n) => phase == WriteExecution && |xfer| == n && xferPos == 0
    }
  }

  // The first finished seek from drive d on.
  function FirstFrom(done: seq<bool>, d: nat): (r: nat)
    requires d <= |done|
    ensures d <= r <= |done| && (r < |done| ==> done[r])
    ensures forall e :: d <= e < r ==> !done[e]
    decreases |done| - d
  {
    if d == |done| || done[d] then d else FirstFrom(done, d + 1)
  }

  // The four drives: where their heads stand, which seeks have finished unreported, how many reports a
  // reset still owes and the status the next seek report gives.
  datatype Heads = Heads(cylinders: seq<u8>, done: seq<bool>, resets: u8, st0: u8) {
    ghost predicate Valid() {
      && |cylinders| == 4 && (forall d :: 0 <= d < 4 ==> cylinders[d] < CYLINDERS)
      && |done| == 4 && resets <= 4
    }

    predicate Pending() { resets > 0 || true in done }

    // A drive has come to a cylinder.
    function Arrived(drive: u8, head: u8, cylinder: u8): Heads
      requires drive < |cylinders| && drive < |done| && drive < 4 && head < 2
    {
      Heads(cylinders[drive := cylinder], done[drive := true], resets, 0x20 + 4 * head + drive)
    }

    // What SENSE INTERRUPT answers, and what is left to report after it.
    function Answer(): seq<u8>
      requires |cylinders| == |done| && resets <= 4
    {
      if resets > 0 then [0xC0 + 4 - resets, 0]
      else if FirstFrom(done, 0) < |done| then [st0, cylinders[FirstFrom(done, 0)]]
      else [0x80]
    }

    function Sensed(): Heads {
      if resets > 0 then this.(resets := resets - 1)
      else if FirstFrom(done, 0) < |done| then this.(done := done[FirstFrom(done, 0) := false])
      else this
    }

    // After a command with these parameters.
    function After(op: u8, ps: seq<u8>): Heads
      requires |cylinders| == 4 == |done| && |ps| == Needed(op)
    {
      if op == RECALIBRATE then Arrived(DriveBits(ps[0]), 0, 0)
      else if op == SEEK then Arrived(DriveBits(ps[0]), HeadBit(ps[0]), Min(ps[1], CYLINDERS - 1))
      else if op == SENSE_INTERRUPT then Sensed()
      else this
    }
  }

  // The phases in which the controller has bytes for the host.
  predicate Presenting(phase: Phase) { phase == ReadExecution || phase == Result }

  predicate LastParameter(f: Fifo) { f.phase == Parameters && |f.params| + 1 >= f.needed }

  // The only two moments at which a FIFO byte can change the image.
  predicate Touches(f: Fifo) {
    || (f.phase == WriteExecution && f.xferPos + 1 >= |f.xfer|)
    || (LastParameter(f) && Opcode(f.command) == FORMAT_TRACK)
  }

  // What a command with these parameters has made of the drives, and what it answers when it moves no data.
  ghost predicate Steered(op: u8, ps: seq<u8>, was: Heads, now: Heads, wp: bool, dor: u8, end: Address, f: Fifo)
    requires was.Valid() && |ps| == Needed(op)
  {
    && now == was.After(op, ps)
    && (op == SENSE_INTERRUPT ==> f.result == was.Answer())
    && (op == SENSE_DRIVE ==> f.result == [DriveStatus(ps[0], was.cylinders, wp)])
    && (op == READ_ID || op == FORMAT_TRACK ==> f.result == Located(ps[0], was, dor))
    && (op == VERSION ==> f.result == [0x90])
    && (Reads(op) && Start(ps).None? ==> f.result == Refusal(4, Target(ps), dor, end))
    && (Writes(op) && Start(ps).None? ==> f.result == Refusal(4, Target(ps), dor, end))
    && (Writes(op) && Start(ps).Some? && wp ==> f.result == Refusal(2, Target(ps), dor, end))
  }

  // The first sector of the track under the head that these parameters select.
  ghost function UnderHead(ps: seq<u8>, heads: Heads): Address
    requires heads.Valid() && ps != []
  {
    Address(heads.cylinders[DriveBits(ps[0])], HeadBit(ps[0]), 1)
  }

  // The report of it.
  ghost function Located(p: u8, heads: Heads, dor: u8): seq<u8>
    requires heads.Valid()
  {
    Report(4 * HeadBit(p) + DriveBits(dor), 0, Address(heads.cylinders[DriveBits(p)], HeadBit(p), 1))
  }

  // Abnormal termination at an address, for the reason in ST1; the head in ST0 is that of the last transfer.
  ghost function Refusal(st1: u8, at: Address, dor: u8, end: Address): seq<u8> {
    Report(0x40 + 4 * Low(end.head, 2) + DriveBits(dor), st1, at)
  }

  // Where a command with these parameters has led.
  ghost predicate ExecutedWith(command: u8, ps: seq<u8>, wp: bool, pending: bool, f: Fifo, image: seq<u8>,
                               end: Address)
  {
    && |ps| == Needed(Opcode(command)) && f.Reached(OutcomeOf(Opcode(command), ps, wp, pending))
    && (f.phase == ReadExecution ==> |ps| == 8 && Start(ps).Some? && f.xfer == Span(image, Start(ps).value, Length(ps)))
    && (f.phase == WriteExecution ==> |ps| == 8 && Start(ps) == Some(f.lba))
    && (f.phase == ReadExecution || f.phase == WriteExecution ==> end == Beyond(ps))
  }

  predicate Bit2(b: u8) { HeadBit(b) == 1 }

  // Command busy, execution without DMA, and direction towards the host.
  function PhaseBits(phase: Phase): u8 {
    match phase
    case Command => 0
    case Parameters => 0x10
    case WriteExecution => 0x30
    case ReadExecution => 0x70
    case Result => 0x50
  }

  function SeekBits(seeks: seq<bool>): u8
    requires |seeks| == 4
  {
    (if seeks[0] then 1 else 0) + (if seeks[1] then 2 else 0) + (if seeks[2] then 4 else 0) + (if seeks[3] then 8 else 0)
  }

  // Bit 6 of the main status register.
  predicate Dio(msr: u8) { Low(msr, 128) >= 64 }

  // The address a transfer ended at.
  datatype Address = Address(cylinder: u8, head: u8, sector: u8)

  class Fdc {
    var dor: u8
    var dsr: u8
    var ccr: u8
    var fifo: Fifo

    var srtHut: u8
    var hltNd: u8
    var config: seq<u8>

    var end: Address
    var heads: Heads
    var irq: bool

    var image: seq<u8>
    var writeProtect: bool
    var diskChanged: bool

    // What holds even while a command executes.
    ghost predicate Sound()
      reads this
    {
      |image| == IMAGE_SIZE && |config| == 3 && heads.Valid()
    }

    // What holds between any two port accesses.
    ghost predicate Valid()
      reads this
    {
      Sound() && fifo.Valid()
    }

    constructor (data: seq<u8>)
      ensures Valid() && fifo.phase == Command && !writeProtect
      ensures image == Span(data, 0, IMAGE_SIZE)
    {
      dor, dsr, ccr := 0, 0, 0;
      fifo := Fifo(Command, 0, [], 0, [], 0, [], 0, 0);
      srtHut, hltNd, config := 0, 0, [0, 0, 0];
      heads := Heads([0, 0, 0, 0], [false, false, false, false], 0, 0);
      end, irq := Address(0, 0, 1), false;
      image := Span(data, 0, IMAGE_SIZE);
      writeProtect, diskChanged := false, true;
    }

    // Drive and head bits under an interrupt code of the top two bits.
    function MakeSt0(ic: u8): u8
      requires ic == 0 || ic == 0x40
      reads `dor, `end
    {
      ic + Low(end.head, 2) * 4 + DriveBits(dor)
    }

    // After a transfer: the address after the last sector.
    method BeginRwResult()
      modifies `fifo, `irq
      ensures fifo == old(fifo).Presenting(Report(MakeSt0(0), 0, end)) && irq
    {
      irq := true;
      fifo := fifo.Presenting(Report(MakeSt0(0), 0, end));
    }

    // ---- Commands --------------------------------------------------------------------------

    method Recalibrate()
      requires Sound() && |fifo.params| == 1
      modifies `fifo, `end, `heads, `irq
      ensures Valid() && irq && fifo == old(fifo).Idled() && end == Address(0, 0, old(end.sector))
      ensures heads == old(heads).Arrived(old(DriveBits(fifo.params[0])), 0, 0)
    {
      var drive := DriveBits(fifo.params[0]);
      heads := heads.(cylinders := heads.cylinders[drive := 0]);
      end := Address(0, 0, end.sector);
      heads := heads.(done := heads.done[drive := true], st0 := 0x20 + drive);
      irq := true;
      fifo := fifo.Idled();
    }

    // A seek past the last cylinder stops there.
    method Seek()
      requires Sound() && |fifo.params| == 2
      modifies `fifo, `end, `heads, `irq
      ensures Valid() && irq && fifo == old(fifo).Idled()
      ensures end == Address(Min(old(fifo.params[1]), CYLINDERS - 1), old(HeadBit(fifo.params[0])), old(end.sector))
      ensures heads == old(heads).Arrived(old(DriveBits(fifo.params[0])), end.head, end.cylinder)
    {
      var drive, head := DriveBits(fifo.params[0]), HeadBit(fifo.params[0]);
      var target := Min(fifo.params[1], CYLINDERS - 1);
      heads := heads.(cylinders := heads.cylinders[drive := target]);
      end := Address(target, head, end.sector);
      heads := heads.(done := heads.done[drive := true], st0 := 0x20 + 4 * head + drive);
      irq := true;
      fifo := fifo.Idled();
    }

    // The four reports of a reset first, then the first finished seek.
    method SenseInterrupt()
      requires Sound()
      modifies `fifo, `irq, `heads
      ensures Valid()
      ensures heads == old(heads).Sensed() && fifo == old(fifo).Presenting(old(heads).Answer())
      ensures irq == (old(irq) && heads.resets > 0)
    {
      if heads.resets > 0 {
        var idx := 4 - heads.resets;
        heads := heads.(resets := heads.resets - 1);
        if heads.resets == 0 {
          irq := false;
        }
        fifo := fifo.Presenting([0xC0 + idx, 0]);
        return;
      }
      var d := 0;
      while d < 4 && !heads.done[d]
        invariant 0 <= d <= 4 && FirstFrom(heads.done, d) == FirstFrom(heads.done, 0)
      {
        d := d + 1;
      }
      irq := false;
      if d < 4 {
        heads := heads.(done := heads.done[d := false]);
        fifo := fifo.Presenting([heads.st0, heads.cylinders[d]]);
      } else {
        fifo := fifo.Presenting([0x80]);
      }
    }

    method SenseDriveStatus()
      requires Sound() && |fifo.params| == 1
      modifies `fifo
      ensures Valid() && fifo == old(fifo).Presenting([DriveStatus(old(fifo.params[0]), heads.cylinders, writeProtect)])
    {
      var drive := DriveBits(fifo.params[0]);
      var st3 := 4 * HeadBit(fifo.params[0]) + drive + 0x20;
      if heads.cylinders[drive] == 0 {
        st3 := st3 + 0x10;
      }
      if writeProtect {
        st3 := st3 + 0x40;
      }
      fifo := fifo.Presenting([st3]);
    }

    method ReadId()
      requires Sound() && |fifo.params| == 1
      modifies `fifo, `irq, `end
      ensures Valid() && irq
      ensures end == Address(heads.cylinders[old(DriveBits(fifo.params[0]))], old(HeadBit(fifo.params[0])), 1)
      ensures fifo == old(fifo).Presenting(Report(MakeSt0(0), 0, end))
    {
      end := Address(heads.cylinders[DriveBits(fifo.params[0])], HeadBit(fifo.params[0]), 1);
      irq := true;
      fifo := fifo.Presenting(Report(MakeSt0(0), 0, end));
    }

    // A read or write that cannot start answers with its own address.
    method Refuse(st1: u8)
      requires |fifo.params| == 8
      modifies `fifo, `irq
      ensures irq && fifo == old(fifo).Presenting(Report(MakeSt0(0x40), st1, Target(old(fifo.params))))
    {
      irq := true;
      fifo := fifo.Presenting(Report(MakeSt0(0x40), st1, Target(fifo.params)));
    }

    // Sector by sector from the image; zeros for a sector past its end.
    method Fetch(start: nat, count: nat) returns (buf: seq<u8>)
      requires |image| == IMAGE_SIZE && start % SECTOR_SIZE == 0
      ensures buf == Span(image, start, count * SECTOR_SIZE)
    {
      buf := [];
      for i := 0 to count
        invariant buf == Span(image, start, i * SECTOR_SIZE)
      {
        var off := start + i * SECTOR_SIZE;
        SectorWhole(start, i);
        if off + SECTOR_SIZE <= |image| {
          buf := buf + image[off..off + SECTOR_SIZE];
        } else {
          buf := buf + seq(SECTOR_SIZE, _ => 0);
        }
      }
    }

    // How many sectors a transfer moves; its report names the sector after the last.
    method Aim() returns (count: nat)
      requires |fifo.params| == 8 && Start(fifo.params).Some?
      modifies `end
      ensures count * SECTOR_SIZE == Length(fifo.params) > 0 && end == Beyond(fifo.params)
    {
      var r := fifo.params[3];
      var last := if fifo.params[5] > r then fifo.params[5] else r;
      count := Min(last - r + 1, SECTORS);
      end := Address(fifo.params[1], HeadBit(fifo.params[0]), r + count);
    }

    method ReadData()
      requires Sound() && |fifo.params| == 8
      modifies `fifo, `irq, `end
      ensures Valid()
      ensures old(Start(fifo.params)).None? ==>
        irq && end == old(end) && fifo == old(fifo).Presenting(Report(MakeSt0(0x40), 4, Target(old(fifo.params))))
      ensures old(Start(fifo.params)).Some? ==> end == Beyond(old(fifo.params)) && fifo == old(fifo).Sending(
        Span(image, Start(old(fifo.params)).value, Length(old(fifo.params))))
    {
      var start := ChsToOffset(fifo.params[1], HeadBit(fifo.params[0]), fifo.params[3]);
      if start == None {
        Refuse(4);
        return;
      }
      var count := Aim();
      var buf := Fetch(start.value, count);
      fifo := fifo.Sending(buf);
    }

    method WriteData()
      requires Sound() && |fifo.params| == 8
      modifies `fifo, `irq, `end
      ensures Valid()
      ensures old(Start(fifo.params)).None? || writeProtect ==>
        irq && end == old(end) && fifo == old(fifo).Presenting(Report(
          MakeSt0(0x40), if old(Start(fifo.params)).None? then 4 else 2, Target(old(fifo.params))))
      ensures old(Start(fifo.params)).Some? && !writeProtect ==>
        end == Beyond(old(fifo.params)) &&
        fifo == old(fifo).Taking(Length(old(fifo.params)), Start(old(fifo.params)).value)
    {
      var start := ChsToOffset(fifo.params[1], HeadBit(fifo.params[0]), fifo.params[3]);
      if start == None {
        Refuse(4);
        return;
      }
      if writeProtect {
        Refuse(2);
        return;
      }
      var count := Aim();
      fifo := fifo.Taking(count * SECTOR_SIZE, start.value);
    }

    // The staged bytes reach the image, cut off at its end.
    method CommitWrite()
      requires |image| == IMAGE_SIZE && fifo.lba < IMAGE_SIZE
      modifies `image
      ensures image == Overlaid(old(image), fifo.lba, fifo.xfer)
    {
      var stop := Min(fifo.lba + |fifo.xfer|, |image|);
      image := image[..fifo.lba] + fifo.xfer[..stop - fifo.lba] + image[stop..];
    }

    method Fill(start: nat, fill: u8)
      requires |image| == IMAGE_SIZE && start < IMAGE_SIZE
      modifies `image
      ensures image == Overlaid(old(image), start, seq(TRACK_SIZE, _ => fill))
    {
      var stop := Min(start + TRACK_SIZE, |image|);
      image := image[..start] + seq(stop - start, _ => fill) + image[stop..];
    }

    method FormatTrack()
      requires Sound() && |fifo.params| == 5
      modifies `fifo, `irq, `end, `image
      ensures Valid() && irq
      ensures end == Address(heads.cylinders[old(DriveBits(fifo.params[0]))], old(HeadBit(fifo.params[0])), 1)
      ensures fifo == old(fifo).Presenting(Report(MakeSt0(0), 0, end))
      ensures image == Formatted(old(image), end, old(fifo.params[4]))
    {
      end := Address(heads.cylinders[DriveBits(fifo.params[0])], HeadBit(fifo.params[0]), 1);
      var start := ChsToOffset(end.cylinder, end.head, 1);
      if start.Some? {
        Fill(start.value, fifo.params[4]);
      }
      irq := true;
      fifo := fifo.Presenting(Report(MakeSt0(0), 0, end));
    }

    // Commands with no transfer and no interrupt to report.
    method Retain()
      requires Sound() && |fifo.params| == Needed(Opcode(fifo.command))
      requires Opcode(fifo.command) == SPECIFY || Opcode(fifo.command) == CONFIGURE
      modifies `fifo, `srtHut, `hltNd, `config
      ensures Valid() && fifo == old(fifo).Idled()
      ensures old(Opcode(fifo.command)) == SPECIFY ==> [srtHut, hltNd] == old(fifo.params) && config == old(config)
      ensures old(Opcode(fifo.command)) == CONFIGURE ==>
        config == old(fifo.params) && srtHut == old(srtHut) && hltNd == old(hltNd)
    {
      if Opcode(fifo.command) == SPECIFY {
        srtHut, hltNd := fifo.params[0], fifo.params[1];
      } else {
        config := fifo.params;
      }
      fifo := fifo.Idled();
    }

    method Describe()
      requires Sound()
      modifies `fifo
      ensures Valid()
      ensures fifo == old(fifo).Presenting(
        if old(Opcode(fifo.command)) == VERSION then [0x90]
        else if old(Opcode(fifo.command)) == DUMPREG
        then heads.cylinders + [srtHut, hltNd, end.sector, config[1], config[1], config[2]]
        else [0x80])
    {
      if Opcode(fifo.command) == VERSION {
        fifo := fifo.Presenting([0x90]);
      } else if Opcode(fifo.command) == DUMPREG {
        fifo := fifo.Presenting(heads.cylinders + [srtHut, hltNd, end.sector, config[1], config[1], config[2]]);
      } else {
        fifo := fifo.Presenting([0x80]);
      }
    }

    // The commands that move no data.
    method Housekeep()
      requires Sound() && |fifo.params| == Needed(Opcode(fifo.command)) && Housekeeping(Opcode(fifo.command))
      modifies `fifo, `srtHut, `hltNd, `config, `end, `heads, `irq
      ensures Valid() && !(fifo.phase == ReadExecution || fifo.phase == WriteExecution)
      ensures fifo.Reached(OutcomeOf(Opcode(old(fifo.command)), old(fifo.params), writeProtect, old(heads).Pending()))
      ensures Steered(old(Opcode(fifo.command)), old(fifo.params), old(heads), heads, writeProtect, dor, end, fifo)
    {
      var op := Opcode(fifo.command);
      if op == SPECIFY || op == CONFIGURE {
        Retain();
      } else if op == SENSE_DRIVE {
        SenseDriveStatus();
      } else if op == RECALIBRATE {
        Recalibrate();
      } else if op == SENSE_INTERRUPT {
        SenseInterrupt();
      } else {
        Seek();
      }
    }

    /** With all its parameters in, a command leads exactly where its outcome says; only FORMAT touches
        the image. */
    method Execute()
      requires Sound() && |fifo.params| == Needed(Opcode(fifo.command))
      modifies `fifo, `srtHut, `hltNd, `config, `end, `heads, `irq, `image
      ensures Valid()
      ensures ExecutedWith(old(fifo.command), old(fifo.params), writeProtect, old(heads).Pending(), fifo, image, end)
      ensures Steered(old(Opcode(fifo.command)), old(fifo.params), old(heads), heads, writeProtect, dor, end, fifo)
      ensures image == if Opcode(old(fifo.command)) == FORMAT_TRACK
                       then Formatted(old(image), UnderHead(old(fifo.params), old(heads)), old(fifo.params[4])) else old(image)
    {
      if Housekeeping(Opcode(fifo.command)) {
        Housekeep();
      } else {
        Operate();
      }
    }

    // The commands that reach for a sector or describe the controller.
    method Operate()
      requires Sound() && |fifo.params| == Needed(Opcode(fifo.command)) && !Housekeeping(Opcode(fifo.command))
      modifies `fifo, `irq, `end, `image
      ensures Valid()
      ensures ExecutedWith(old(fifo.command), old(fifo.params), writeProtect, heads.Pending(), fifo, image, end)
      ensures Steered(old(Opcode(fifo.command)), old(fifo.params), heads, heads, writeProtect, dor, end, fifo)
      ensures image == if Opcode(old(fifo.command)) == FORMAT_TRACK
                       then Formatted(old(image), UnderHead(old(fifo.params), old(heads)), old(fifo.params[4])) else old(image)
    {
      var op := Opcode(fifo.command);
      if Reads(op) {
        ReadData();
      } else if Writes(op) {
        WriteData();
      } else if op == READ_ID {
        ReadId();
      } else if op == FORMAT_TRACK {
        FormatTrack();
      } else {
        Describe();
      }
    }

    // ---- Port accesses ---------------------------------------------------------------------

    // Busy and direction bits of the phase, and a bit for every finished seek.
    method ReadMsr() returns (msr: u8)
      requires Valid()
      ensures msr == 128 + (if fifo.phase == ReadExecution || fifo.phase == Result then 64 else 0)
                     + (if fifo.phase == ReadExecution || fifo.phase == WriteExecution then 32 else 0)
                     + (if fifo.phase == Command then 0 else 16) + SeekBits(heads.done)
      ensures Dio(msr) <==> fifo.phase == ReadExecution || fifo.phase == Result
    {
      msr := 0x80 + PhaseBits(fifo.phase);
      if heads.done[0] {
        msr := msr + 1;
      }
      if heads.done[1] {
        msr := msr + 2;
      }
      if heads.done[2] {
        msr := msr + 4;
      }
      if heads.done[3] {
        msr := msr + 8;
      }
      assert Low(msr, 128) == Low(msr - 128, 128) == msr - 128;
    }

    /** A read hands out the next data or result byte; in any other phase nothing changes. */
    method ReadFifo() returns (b: u8)
      requires Valid()
      modifies `fifo, `irq
      ensures Valid() && b == old(fifo).Front()
      ensures fifo == old(fifo).Popped(Report(MakeSt0(0), 0, end))
      ensures !Presenting(old(fifo).phase) ==> irq == old(irq)
    {
      b := 0;
      if fifo.phase == ReadExecution {
        b := fifo.xfer[fifo.xferPos];
        fifo := fifo.(xferPos := fifo.xferPos + 1);
        if fifo.xferPos >= |fifo.xfer| {
          BeginRwResult();
        }
      } else if fifo.phase == Result {
        b := fifo.result[fifo.resultPos];
        fifo := fifo.(resultPos := fifo.resultPos + 1);
        if fifo.resultPos >= |fifo.result| {
          fifo := fifo.Idled();
        }
      }
    }

    // Nothing to report has come or gone.
    twostate predicate Undisturbed()
      reads this
    {
      heads == old(heads)
    }

    method StartCommand(value: u8)
      requires Valid() && fifo.phase == Command
      modifies `fifo, `srtHut, `hltNd, `config, `end, `heads, `irq, `image
      ensures Valid() && image == old(image)
      ensures Needed(Opcode(value)) > 0 ==> fifo == old(fifo).Asking(value) && Undisturbed()
      ensures Needed(Opcode(value)) == 0 ==>
        fifo.Reached(OutcomeOf(Opcode(value), [], writeProtect, old(heads).Pending())) &&
        Steered(Opcode(value), [], old(heads), heads, writeProtect, dor, end, fifo)
    {
      fifo := fifo.(command := value, params := [], needed := Needed(Opcode(value)));
      if fifo.needed == 0 {
        Execute();
      } else {
        fifo := fifo.(phase := Parameters);
      }
    }

    method TakeParameter(value: u8)
      requires Valid() && fifo.phase == Parameters
      modifies `fifo, `srtHut, `hltNd, `config, `end, `heads, `irq, `image
      ensures Valid()
      ensures !LastParameter(old(fifo)) ==> fifo == old(fifo.(params := fifo.params + [value])) && Undisturbed()
      ensures LastParameter(old(fifo)) ==> ExecutedWith(
        old(fifo.command), old(fifo.params) + [value], writeProtect, old(heads).Pending(), fifo, image, end)
      ensures LastParameter(old(fifo)) ==> Steered(
        old(Opcode(fifo.command)), old(fifo.params) + [value], old(heads), heads, writeProtect, dor, end, fifo)
      ensures !Touches(old(fifo)) ==> image == old(image)
      ensures Touches(old(fifo)) ==> image == Formatted(old(image), UnderHead(old(fifo.params) + [value], old(heads)), value)
    {
      fifo := fifo.(params := fifo.params + [value]);
      if |fifo.params| >= fifo.needed {
        Execute();
      }
    }

    method TakeData(value: u8)
      requires Valid() && fifo.phase == WriteExecution
      modifies `fifo, `irq, `image
      ensures Valid()
      ensures fifo == old(fifo).Pushed(value, Report(MakeSt0(0), 0, end))
      ensures image == if Touches(old(fifo)) then Overlaid(old(image), fifo.lba, fifo.xfer) else old(image)
    {
      fifo := fifo.(xfer := fifo.xfer[fifo.xferPos := value], xferPos := fifo.xferPos + 1);
      if fifo.xferPos >= |fifo.xfer| {
        CommitWrite();
        BeginRwResult();
      }
    }

    method WriteFifo(value: u8)
      requires Valid()
      modifies `fifo, `srtHut, `hltNd, `config, `end, `heads, `irq, `image
      ensures Valid()
      ensures Presenting(old(fifo.phase)) ==> unchanged(this)
      ensures !Touches(old(fifo)) ==> image == old(image)
      ensures old(fifo.phase) == Command && Needed(Opcode(value)) > 0 ==>
        fifo == old(fifo).Asking(value) && Undisturbed()
      ensures old(fifo.phase) == Command && Needed(Opcode(value)) == 0 ==>
        fifo.Reached(OutcomeOf(Opcode(value), [], writeProtect, old(heads).Pending())) &&
        Steered(Opcode(value), [], old(heads), heads, writeProtect, dor, end, fifo)
      ensures old(fifo.phase) == Parameters && !LastParameter(old(fifo)) ==>
        fifo == old(fifo.(params := fifo.params + [value])) && Undisturbed()
      ensures LastParameter(old(fifo)) ==> ExecutedWith(
        old(fifo.command), old(fifo.params) + [value], writeProtect, old(heads).Pending(), fifo, image, end)
      ensures LastParameter(old(fifo)) ==> Steered(
        old(Opcode(fifo.command)), old(fifo.params) + [value], old(heads), heads, writeProtect, dor, end, fifo)
      ensures LastParameter(old(fifo)) && Touches(old(fifo)) ==>
        image == Formatted(old(image), UnderHead(old(fifo.params) + [value], old(heads)), value)
      ensures old(fifo.phase) == WriteExecution ==> end == old(end) && fifo == old(fifo).Pushed(value, Report(MakeSt0(0), 0, end))
      ensures old(fifo.phase) == WriteExecution && Touches(old(fifo)) ==>
        image == Overlaid(old(image), fifo.lba, fifo.xfer)
    {
      match fifo.phase
      case Command => StartCommand(value);
      case Parameters => TakeParameter(value);
      case WriteExecution => TakeData(value);
      case ReadExecution =>
      case Result =>
    }

    // Leaving reset pends four reports; being in reset parks the protocol.  Neither reaches the image.
    method WriteDor(value: u8)
      requires Valid()
      modifies `dor, `fifo, `heads, `irq
      ensures Valid() && dor == value
      ensures fifo == if Bit2(value) && Bit2(old(dor)) then old(fifo) else old(fifo).Idled()
      ensures Bit2(value) && !Bit2(old(dor)) ==>
        irq && heads == Heads([0, 0, 0, 0], [false, false, false, false], 4, 0xC0)
      ensures !Bit2(value) || Bit2(old(dor)) ==> heads == old(heads) && irq == old(irq)
    {
      var wasReset, nowReset := !Bit2(dor), !Bit2(value);
      dor := value;
      if wasReset && !nowReset {
        fifo := fifo.Idled();
        heads := Heads([0, 0, 0, 0], [false, false, false, false], 4, 0xC0);
        irq := true;
      }
      if nowReset {
        fifo := fifo.Idled();
      }
    }
  }

  // The address named by the parameters of a read or write, and the one after its last sector.
  function Target(ps: seq<u8>): Address
    requires |ps| == 8
  {
    Address(ps[1], HeadBit(ps[0]), ps[3])
  }

  function Beyond(ps: seq<u8>): Address
    requires |ps| == 8 && Start(ps).Some?
  {
    Address(ps[1], HeadBit(ps[0]), ps[3] + SectorCount(ps[3], ps[5]))
  }

  // ST3: ready, with head and drive, track 0 and write protection.
  function DriveStatus(p: u8, drives: seq<u8>, writeProtect: bool): u8
    requires |drives| == 4
  {
    0x20 + 4 * HeadBit(p) + DriveBits(p)
    + (if drives[DriveBits(p)] == 0 then 0x10 else 0) + (if writeProtect then 0x40 else 0)
  }

  function Formatted(image: seq<u8>, at: Address, fill: u8): seq<u8> {
    match ChsToOffset(at.cylinder, at.head, 1)
    case None => image
    case Some(start) => Overlaid(image, start, seq(TRACK_SIZE, _ => fill))
  }

  // A sector lies inside the image or past its end, never across it.
  lemma SectorWhole(start: nat, i: nat)
    requires start % SECTOR_SIZE == 0
    ensures start + i * SECTOR_SIZE + SECTOR_SIZE <= IMAGE_SIZE || start + i * SECTOR_SIZE >= IMAGE_SIZE
    ensures (i + 1) * SECTOR_SIZE == i * SECTOR_SIZE + SECTOR_SIZE
  {
    assert start == start / SECTOR_SIZE * SECTOR_SIZE;
  }
}
