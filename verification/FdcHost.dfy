/**
 What a host can rely on when it drives the floppy controller through its ports: any history of
 accesses at all, and the conversations that follow the direction bit.
 */
module FdcHost {
  import opened Arith
  import opened Common
  import opened Fdc

  // ---- Any history of port accesses --------------------------------------------------------

  datatype Access = In(port: int) | Out(port: int, value: u8)

  const DOR := 0x3F2
  const MSR := 0x3F4
  const FIFO := 0x3F5
  const DIR := 0x3F7

  method Read(fdc: Fdc, port: int) returns (b: u8)
    requires fdc.Valid()
    modifies fdc
    ensures fdc.Valid() && fdc.image == old(fdc.image) && fdc.writeProtect == old(fdc.writeProtect)
    ensures fdc.heads == old(fdc.heads) && fdc.dor == old(fdc.dor)
    ensures port == FIFO ==> b == old(fdc.fifo).Front() && fdc.fifo == old(fdc.fifo).Popped(Report(fdc.MakeSt0(0), 0, fdc.end))
    ensures port != FIFO ==> fdc.fifo == old(fdc.fifo)
    ensures port == MSR ==> (Dio(b) <==> Presenting(fdc.fifo.phase))
    ensures port == DOR ==> b == fdc.dor
    ensures port < 0x3F0 || port > DIR || port == 0x3F6 ==> b == 0xFF
  {
    if port == 0x3F0 || port == 0x3F1 || port == 0x3F3 {
      b := 0;
    } else if port == DOR {
      b := fdc.dor;
    } else if port == MSR {
      b := fdc.ReadMsr();
    } else if port == FIFO {
      b := fdc.ReadFifo();
    } else if port == DIR {
      b := if fdc.diskChanged then 0x80 else 0;
    } else {
      b := 0xFF;
    }
  }

  method Write(fdc: Fdc, port: int, value: u8)
    requires fdc.Valid()
    modifies fdc
    ensures fdc.Valid() && fdc.writeProtect == old(fdc.writeProtect)
    ensures !(port == FIFO && Touches(old(fdc.fifo))) ==> fdc.image == old(fdc.image)
    ensures port == DOR ==> fdc.dor == value
    ensures port == DOR ==> fdc.fifo == if Bit2(value) && Bit2(old(fdc.dor)) then old(fdc.fifo) else old(fdc.fifo).Idled()
    ensures port != DOR && (port != FIFO || Presenting(old(fdc.fifo.phase))) ==>
      fdc.fifo == old(fdc.fifo) && fdc.heads == old(fdc.heads) && fdc.dor == old(fdc.dor)
  {
    if port == DOR {
      fdc.WriteDor(value);
    } else if port == MSR {
      fdc.dsr := value;
    } else if port == FIFO {
      fdc.WriteFifo(value);
    } else if port == DIR {
      fdc.ccr := value;
    }
  }

  // The controller as a history finds it before each access, and at the end.
  datatype Moment = Moment(fifo: Fifo, image: seq<u8>)

  // A FIFO access against the direction bit.
  predicate WrongWay(a: Access, phase: Phase) {
    a.port == FIFO && (a.Out? <==> Presenting(phase))
  }

  // What an access may do: change the image only with the last byte of a write transfer or of FORMAT, and in the
  // wrong direction nothing at all.
  ghost predicate Allowed(m: Moment, a: Access, n: Moment) {
    && (n.image != m.image ==> a.Out? && a.port == FIFO && Touches(m.fifo))
    && (WrongWay(a, m.fifo.phase) ==> n == m)
  }

  // Cursors inside their buffers, the image of fixed size, and every access within what is allowed.
  ghost predicate Orderly(ms: seq<Moment>, history: seq<Access>) {
    && |ms| == |history| + 1
    && (forall i :: 0 <= i < |ms| ==> ms[i].fifo.Valid() && |ms[i].image| == IMAGE_SIZE)
    && (forall i {:trigger history[i]} :: 0 <= i < |history| ==> Allowed(ms[i], history[i], ms[i + 1]))
  }

  lemma OrderlyNext(ms: seq<Moment>, history: seq<Access>, a: Access, n: Moment)
    requires Orderly(ms, history) && Allowed(ms[|history|], a, n) && n.fifo.Valid() && |n.image| == IMAGE_SIZE
    ensures Orderly(ms + [n], history + [a])
  {
    var ns, more := ms + [n], history + [a];
    forall i | 0 <= i < |more|
      ensures Allowed(ns[i], more[i], ns[i + 1])
    {
      if i < |history| {
        assert Allowed(ms[i], history[i], ms[i + 1]);
      }
    }
  }

  method Apply(fdc: Fdc, a: Access) returns (b: u8)
    requires fdc.Valid()
    modifies fdc
    ensures fdc.Valid() && Allowed(old(Moment(fdc.fifo, fdc.image)), a, Moment(fdc.fifo, fdc.image))
  {
    b := 0;
    match a
    case In(port) => b := Read(fdc, port);
    case Out(port, value) => Write(fdc, port, value);
  }

  method Replay(fdc: Fdc, history: seq<Access>) returns (bytes: seq<u8>, ghost ms: seq<Moment>)
    requires fdc.Valid()
    modifies fdc
    ensures fdc.Valid() && |bytes| == |history| && Orderly(ms, history)
    ensures ms[0] == old(Moment(fdc.fifo, fdc.image)) && ms[|history|] == Moment(fdc.fifo, fdc.image)
  {
    bytes, ms := [], [Moment(fdc.fifo, fdc.image)];
    for i := 0 to |history|
      invariant fdc.Valid() && |bytes| == i && Orderly(ms, history[..i])
      invariant ms[0] == old(Moment(fdc.fifo, fdc.image)) && ms[i] == Moment(fdc.fifo, fdc.image)
    {
      var b := Apply(fdc, history[i]);
      OrderlyNext(ms, history[..i], history[i], Moment(fdc.fifo, fdc.image));
      assert history[..i + 1] == history[..i] + [history[i]];
      ms := ms + [Moment(fdc.fifo, fdc.image)];
      bytes := bytes + [b];
    }
    assert history[..|history|] == history;
  }

  // ---- A conversation that follows the direction bit ---------------------------------------

  ghost function BytesLeft(f: Fifo): nat
    requires f.Valid()
  {
    match f.phase
    case Command => 0
    case Parameters => f.needed - |f.params|
    case WriteExecution => |f.xfer| - f.xferPos
    case ReadExecution => |f.xfer| - f.xferPos
    case Result => |f.result| - f.resultPos
  }

  // FIFO accesses still to come, when the command will end with this outcome.
  ghost function Owed(f: Fifo, o: Outcome): nat
    requires f.Valid()
  {
    match f.phase
    case Command => 0
    case Parameters => BytesLeft(f) + Total(o)
    case WriteExecution => BytesLeft(f) + 7
    case ReadExecution => BytesLeft(f) + 7
    case Result => BytesLeft(f)
  }

  function Supplied(supply: nat -> u8, n: nat): seq<u8> {
    seq(n, i requires 0 <= i => supply(i))
  }

  // While parameters are collected they are the supplied ones.
  ghost predicate Collecting(f: Fifo, command: u8, ps: seq<u8>, sent: nat) {
    f.phase == Parameters ==> f.command == command && sent < |ps| && f.params == ps[..sent]
  }

  lemma NextParameter(ps: seq<u8>, sent: nat)
    requires sent < |ps|
    ensures ps[..sent] + [ps[sent]] == ps[..sent + 1]
    ensures sent + 1 == |ps| ==> ps[..sent + 1] == ps
  {
  }

  // One FIFO access in the direction the status register gives.
  method Turn(fdc: Fdc, ghost command: u8, ghost ps: seq<u8>, ghost o: Outcome, value: u8, ghost sent: nat)
    returns (wrote: bool, b: u8)
    requires fdc.Valid() && fdc.fifo.phase != Command && |ps| == Needed(Opcode(command))
    requires Collecting(fdc.fifo, command, ps, sent)
    requires fdc.fifo.phase == Parameters ==>
      value == ps[sent] && o == OutcomeOf(Opcode(command), ps, fdc.writeProtect, fdc.heads.Pending())
    modifies fdc
    ensures fdc.Valid() && fdc.writeProtect == old(fdc.writeProtect)
    ensures Collecting(fdc.fifo, command, ps, if wrote then sent + 1 else sent)
    ensures fdc.fifo.phase == Parameters ==> fdc.heads.Pending() == old(fdc.heads.Pending())
    ensures Owed(fdc.fifo, o) == old(Owed(fdc.fifo, o)) - 1
    ensures wrote <==> !Presenting(old(fdc.fifo.phase))
    ensures fdc.fifo.phase == Parameters ==> old(fdc.fifo.phase) == Parameters
  {
    var msr := fdc.ReadMsr();
    wrote, b := !Dio(msr), 0;
    if wrote {
      if fdc.fifo.phase == Parameters {
        NextParameter(ps, sent);
      }
      fdc.WriteFifo(value);
    } else {
      b := fdc.ReadFifo();
    }
  }

  /** For every command byte and every supply of bytes, a host that writes when DIO is clear and reads
      when it is set is back at idle after exactly one command byte, the parameters, the data and the
      results, however the command ends. */
  method Converse(fdc: Fdc, command: u8, supply: nat -> u8) returns (count: nat, got: seq<u8>)
    requires fdc.Valid() && fdc.fifo.phase == Command
    modifies fdc
    ensures fdc.Valid() && fdc.fifo.phase == Command
    ensures count == 1 + Needed(Opcode(command)) + Total(OutcomeOf(
      Opcode(command), Supplied(supply, Needed(Opcode(command))), fdc.writeProtect, old(fdc.heads.Pending())))
  {
    ghost var ps := Supplied(supply, Needed(Opcode(command)));
    ghost var o := OutcomeOf(Opcode(command), ps, fdc.writeProtect, fdc.heads.Pending());
    ghost var pending := fdc.heads.Pending();
    fdc.WriteFifo(command);
    count, got := 1, [];
    var sent := 0;
    while fdc.fifo.phase != Command
      invariant fdc.Valid() && fdc.writeProtect == old(fdc.writeProtect)
      invariant count + Owed(fdc.fifo, o) == 1 + |ps| + Total(o)
      invariant Collecting(fdc.fifo, command, ps, sent)
      invariant fdc.fifo.phase == Parameters ==> fdc.heads.Pending() == pending
      decreases Owed(fdc.fifo, o)
    {
      var wrote, b := Turn(fdc, command, ps, o, supply(sent), sent);
      if wrote {
        sent := sent + 1;
      } else {
        got := got + [b];
      }
      count := count + 1;
    }
  }

  // ---- Writing and reading back ------------------------------------------------------------

  // Of the commands with parameters only FORMAT reaches the image by itself.
  ghost function ImageAfter(op: u8, ps: seq<u8>, heads: Heads, image: seq<u8>): seq<u8>
    requires |ps| == Needed(op) > 0 && heads.Valid()
  {
    if op == FORMAT_TRACK then Formatted(image, UnderHead(ps, heads), ps[4]) else image
  }

  // A command byte and its parameters.
  method Issue(fdc: Fdc, command: u8, ps: seq<u8>)
    requires fdc.Valid() && fdc.fifo.phase == Command && |ps| == Needed(Opcode(command)) > 0
    modifies fdc
    ensures fdc.Valid() && fdc.writeProtect == old(fdc.writeProtect)
    ensures fdc.image == ImageAfter(Opcode(command), ps, old(fdc.heads), old(fdc.image))
    ensures ExecutedWith(command, ps, fdc.writeProtect, old(fdc.heads.Pending()), fdc.fifo, fdc.image, fdc.end)
    ensures Steered(Opcode(command), ps, old(fdc.heads), fdc.heads, fdc.writeProtect, fdc.dor, fdc.end, fdc.fifo)
    ensures fdc.dor == old(fdc.dor)
  {
    fdc.WriteFifo(command);
    ghost var before := fdc.heads;
    ghost var pending := before.Pending();
    var sent := 0;
    while sent < |ps|
      invariant sent <= |ps| && fdc.Valid() && fdc.writeProtect == old(fdc.writeProtect)
      invariant fdc.image == if sent < |ps| then old(fdc.image) else ImageAfter(Opcode(command), ps, before, old(fdc.image))
      invariant sent < |ps| ==> fdc.fifo.phase == Parameters && Collecting(fdc.fifo, command, ps, sent)
      invariant sent < |ps| ==> fdc.heads == before
      invariant sent == |ps| ==> ExecutedWith(command, ps, fdc.writeProtect, pending, fdc.fifo, fdc.image, fdc.end)
      invariant sent == |ps| ==> Steered(Opcode(command), ps, before, fdc.heads, fdc.writeProtect, fdc.dor, fdc.end, fdc.fifo)
      invariant fdc.dor == old(fdc.dor)
    {
      NextParameter(ps, sent);
      fdc.WriteFifo(ps[sent]);
      sent := sent + 1;
    }
  }

  // The staging buffer after the first n bytes of data.
  ghost predicate Staged(f: Fifo, data: seq<u8>, n: nat, lba: nat) {
    f.phase == WriteExecution && |f.xfer| == |data| && f.xferPos == n < |data| && f.xfer[..n] == data[..n] && f.lba == lba
  }

  // The first n bytes of a write, short of the last: nothing reaches the image.
  method Stage(fdc: Fdc, data: seq<u8>, n: nat)
    requires fdc.Valid() && fdc.fifo.phase == WriteExecution && fdc.fifo.xferPos == 0
    requires |fdc.fifo.xfer| == |data| && n < |data|
    modifies fdc
    ensures fdc.Valid() && fdc.writeProtect == old(fdc.writeProtect) && fdc.image == old(fdc.image)
    ensures Staged(fdc.fifo, data, n, old(fdc.fifo.lba)) && fdc.dor == old(fdc.dor) && fdc.end == old(fdc.end)
  {
    for i := 0 to n
      invariant fdc.Valid() && fdc.writeProtect == old(fdc.writeProtect) && fdc.image == old(fdc.image)
      invariant Staged(fdc.fifo, data, i, old(fdc.fifo.lba)) && fdc.dor == old(fdc.dor) && fdc.end == old(fdc.end)
    {
      fdc.WriteFifo(data[i]);
      assert fdc.fifo.xfer[..i + 1] == data[..i] + [data[i]];
    }
  }

  method Stream(fdc: Fdc, data: seq<u8>)
    requires fdc.Valid() && fdc.fifo.phase == WriteExecution && fdc.fifo.xferPos == 0
    requires |fdc.fifo.xfer| == |data|
    modifies fdc
    ensures fdc.Valid() && fdc.writeProtect == old(fdc.writeProtect)
    ensures fdc.image == Overlaid(old(fdc.image), old(fdc.fifo.lba), data)
    ensures fdc.fifo.phase == Result && fdc.fifo.resultPos == 0 && fdc.dor == old(fdc.dor) && fdc.end == old(fdc.end)
    ensures fdc.fifo.result == Report(fdc.MakeSt0(0), 0, fdc.end)
  {
    Stage(fdc, data, |data| - 1);
    ghost var staged := fdc.fifo.xfer;
    fdc.WriteFifo(data[|data| - 1]);
    assert fdc.fifo.xfer == data[..|data| - 1] + [data[|data| - 1]];
  }

  // All the result bytes.
  method Drain(fdc: Fdc) returns (bytes: seq<u8>)
    requires fdc.Valid() && fdc.fifo.phase == Result && fdc.fifo.resultPos == 0
    modifies fdc
    ensures fdc.Valid() && fdc.fifo.phase == Command && bytes == old(fdc.fifo.result)
    ensures fdc.image == old(fdc.image) && fdc.writeProtect == old(fdc.writeProtect)
    ensures fdc.heads == old(fdc.heads) && fdc.dor == old(fdc.dor)
  {
    ghost var all := fdc.fifo.result;
    bytes := [];
    while fdc.fifo.phase == Result
      invariant fdc.Valid() && fdc.image == old(fdc.image) && fdc.writeProtect == old(fdc.writeProtect)
      invariant fdc.heads == old(fdc.heads) && fdc.dor == old(fdc.dor)
      invariant fdc.fifo.phase == Result || fdc.fifo.phase == Command
      invariant fdc.fifo.phase == Result ==> fdc.fifo.result == all && |bytes| == fdc.fifo.resultPos
      invariant |bytes| <= |all| && bytes == all[..|bytes|]
      invariant fdc.fifo.phase == Command ==> |bytes| == |all|
      decreases |all| - |bytes|
    {
      var b := fdc.ReadFifo();
      bytes := bytes + [b];
    }
  }

  // All the data bytes of a read.
  method Collect(fdc: Fdc) returns (bytes: seq<u8>)
    requires fdc.Valid() && fdc.fifo.phase == ReadExecution && fdc.fifo.xferPos == 0
    modifies fdc
    ensures fdc.Valid() && fdc.fifo.phase == Result && fdc.fifo.resultPos == 0 && bytes == old(fdc.fifo.xfer)
    ensures fdc.image == old(fdc.image) && fdc.writeProtect == old(fdc.writeProtect)
    ensures fdc.dor == old(fdc.dor) && fdc.end == old(fdc.end) && fdc.fifo.result == Report(fdc.MakeSt0(0), 0, fdc.end)
  {
    ghost var all := fdc.fifo.xfer;
    bytes := [];
    while fdc.fifo.phase == ReadExecution
      invariant fdc.Valid() && fdc.image == old(fdc.image) && fdc.writeProtect == old(fdc.writeProtect)
      invariant fdc.dor == old(fdc.dor) && fdc.end == old(fdc.end)
      invariant fdc.fifo.phase == ReadExecution || (fdc.fifo.phase == Result && fdc.fifo.resultPos == 0)
      invariant fdc.fifo.phase == Result ==> fdc.fifo.result == Report(fdc.MakeSt0(0), 0, fdc.end)
      invariant fdc.fifo.phase == ReadExecution ==> fdc.fifo.xfer == all && |bytes| == fdc.fifo.xferPos
      invariant |bytes| <= |all| && bytes == all[..|bytes|]
      invariant fdc.fifo.phase == Result ==> |bytes| == |all|
      decreases |all| - |bytes|
    {
      var b := fdc.ReadFifo();
      bytes := bytes + [b];
    }
  }

  /** A WRITE DATA, its bytes and its result, then a READ DATA with the same parameters: what comes back
      is what was streamed, as far as the span lies inside the image, with zeros past its end; every
      other byte of the image is as before. */
  method WriteThenRead(fdc: Fdc, write: u8, read: u8, ps: seq<u8>, data: seq<u8>) returns (back: seq<u8>)
    requires fdc.Valid() && fdc.fifo.phase == Command && !fdc.writeProtect
    requires Writes(Opcode(write)) && Reads(Opcode(read))
    requires |ps| == 8 && Start(ps).Some? && |data| == Length(ps)
    modifies fdc
    ensures fdc.Valid() && fdc.fifo.phase == Result
    ensures fdc.image == Overlaid(old(fdc.image), Start(ps).value, data)
    ensures |back| == |data|
    ensures forall k :: 0 <= k < |data| ==> back[k] == if Start(ps).value + k < IMAGE_SIZE then data[k] else 0
    ensures Start(ps).value + Length(ps) <= IMAGE_SIZE ==> back == data
  {
    Issue(fdc, write, ps);
    Stream(fdc, data);
    var report := Drain(fdc);
    Issue(fdc, read, ps);
    back := Collect(fdc);
    SpanOfOverlaid(old(fdc.image), Start(ps).value, data);
  }

  // ---- What a driver asks for, in numbers --------------------------------------------------

  // Where sector r of a track begins in the image, sectors counting from 1.
  function At(cyl: nat, head: nat, sector: nat): int { 512 * (36 * cyl + 18 * head + sector - 1) }

  // The eight parameters of a read or write; the controller has no use for four of them.
  function Request(drive: u8, head: u8, cyl: u8, sector: u8, eot: u8, spare: seq<u8>): (ps: seq<u8>)
    requires drive < 4 && head < 2 && |spare| == 4
  {
    [4 * head + drive, cyl, spare[0], sector, spare[1], eot, spare[2], spare[3]]
  }

  lemma SelectBits(drive: u8, head: u8)
    requires drive < 4 && head < 2
    ensures HeadBit(4 * head + drive) == head && DriveBits(4 * head + drive) == drive
  {
    LowIsRemainder(4 * head + drive, 8);
    LowIsRemainder(4 * head + drive, 4);
  }

  // The low five bits of a command byte are its opcode, whatever the three above them.
  lemma OpcodeIs(flags: nat, op: u8)
    requires flags < 8 && op < 32
    ensures Opcode(32 * flags + op) == op
  {
    LowIsRemainder(32 * flags + op, 32);
  }

  lemma RequestSpans(drive: u8, head: u8, cyl: u8, sector: u8, eot: u8, spare: seq<u8>)
    requires drive < 4 && head < 2 && cyl < 80 && 1 <= sector <= eot <= 18 && |spare| == 4
    ensures var ps := Request(drive, head, cyl, sector, eot, spare);
      && Start(ps) == Some(At(cyl, head, sector)) && Length(ps) == At(cyl, head, eot + 1) - At(cyl, head, sector)
      && Beyond(ps) == Address(cyl, head, eot + 1) && At(cyl, head, eot + 1) <= IMAGE_SIZE
  {
    SelectBits(drive, head);
  }

  /** READ DATA gives the image from the sector asked for up to the end of the last one, and reports the sector
      after it. */
  method ReadSectors(fdc: Fdc, flags: nat, drive: u8, head: u8, cyl: u8, sector: u8, eot: u8, spare: seq<u8>)
    returns (data: seq<u8>, report: seq<u8>)
    requires fdc.Valid() && fdc.fifo.phase == Command && flags < 8
    requires drive < 4 && head < 2 && cyl < 80 && 1 <= sector <= eot <= 18 && |spare| == 4
    modifies fdc
    ensures fdc.Valid() && fdc.fifo.phase == Command && fdc.image == old(fdc.image)
    ensures At(cyl, head, eot + 1) <= |fdc.image| && data == fdc.image[At(cyl, head, sector)..At(cyl, head, eot + 1)]
    ensures report == [4 * head + old(fdc.dor) % 4, 0, 0, cyl, head, eot + 1, 2]
  {
    var ps := Request(drive, head, cyl, sector, eot, spare);
    OpcodeIs(flags, 6);
    RequestSpans(drive, head, cyl, sector, eot, spare);
    Issue(fdc, 32 * flags + 6, ps);
    data := Collect(fdc);
    ReportIs(head, fdc.dor);
    report := Drain(fdc);
  }

  lemma ReportIs(head: u8, dor: u8)
    requires head < 2
    ensures Low(head, 2) == head && DriveBits(dor) == dor % 4
  {
    LowIsRemainder(head, 2);
    LowIsRemainder(dor, 4);
  }

  /** WRITE DATA puts its bytes there and nowhere else. */
  method WriteSectors(fdc: Fdc, flags: nat, drive: u8, head: u8, cyl: u8, sector: u8, eot: u8, spare: seq<u8>, data: seq<u8>)
    returns (report: seq<u8>)
    requires fdc.Valid() && fdc.fifo.phase == Command && flags < 8 && !fdc.writeProtect
    requires drive < 4 && head < 2 && cyl < 80 && 1 <= sector <= eot <= 18 && |spare| == 4
    requires |data| == At(cyl, head, eot + 1) - At(cyl, head, sector)
    modifies fdc
    ensures fdc.Valid() && fdc.fifo.phase == Command && At(cyl, head, eot + 1) <= |old(fdc.image)|
    ensures fdc.image == old(fdc.image)[..At(cyl, head, sector)] + data + old(fdc.image)[At(cyl, head, eot + 1)..]
    ensures report == [4 * head + old(fdc.dor) % 4, 0, 0, cyl, head, eot + 1, 2]
  {
    var ps := Request(drive, head, cyl, sector, eot, spare);
    OpcodeIs(flags, 5);
    RequestSpans(drive, head, cyl, sector, eot, spare);
    Issue(fdc, 32 * flags + 5, ps);
    Stream(fdc, data);
    ReportIs(head, fdc.dor);
    report := Drain(fdc);
    OverlaidIs(old(fdc.image), At(cyl, head, sector), data);
  }

  lemma OverlaidIs(image: seq<u8>, start: nat, data: seq<u8>)
    requires start + |data| <= |image|
    ensures Overlaid(image, start, data) == image[..start] + data + image[start + |data|..]
  {
  }

  /** SEEK to a cylinder and FORMAT TRACK there: the whole track takes the fill byte and nothing else changes. */
  method FormatAt(fdc: Fdc, drive: u8, head: u8, cyl: u8, spare: seq<u8>, fill: u8) returns (report: seq<u8>)
    requires fdc.Valid() && fdc.fifo.phase == Command && drive < 4 && head < 2 && cyl < 80 && |spare| == 3
    modifies fdc
    ensures fdc.Valid() && fdc.fifo.phase == Command && At(cyl, head, 19) <= |old(fdc.image)|
    ensures fdc.image == old(fdc.image)[..At(cyl, head, 1)] + seq(9216, _ => fill) + old(fdc.image)[At(cyl, head, 19)..]
    ensures report == [4 * head + old(fdc.dor) % 4, 0, 0, cyl, head, 1, 2]
  {
    SelectBits(drive, head);
    Issue(fdc, SEEK, [4 * head + drive, cyl]);
    Issue(fdc, FORMAT_TRACK, [4 * head + drive] + spare + [fill]);
    ReportIs(head, fdc.dor);
    report := Drain(fdc);
    OverlaidIs(old(fdc.image), At(cyl, head, 1), seq(9216, _ => fill));
  }

  /** SEEK, then SENSE DRIVE STATUS: the drive is ready, and on track 0 exactly when it was sent there. */
  method StatusAfterSeek(fdc: Fdc, drive: u8, head: u8, cyl: u8) returns (st3: seq<u8>)
    requires fdc.Valid() && fdc.fifo.phase == Command && drive < 4 && head < 2
    modifies fdc
    ensures fdc.Valid() && fdc.fifo.phase == Command
    ensures st3 == [32 + 4 * head + drive + (if cyl == 0 then 16 else 0) + (if fdc.writeProtect then 64 else 0)]
  {
    SelectBits(drive, head);
    Issue(fdc, SEEK, [4 * head + drive, cyl]);
    Issue(fdc, SENSE_DRIVE, [4 * head + drive]);
    st3 := Drain(fdc);
  }

  /** RECALIBRATE brings any drive to track 0. */
  method StatusAfterRecalibrate(fdc: Fdc, drive: u8) returns (st3: seq<u8>)
    requires fdc.Valid() && fdc.fifo.phase == Command && drive < 4
    modifies fdc
    ensures fdc.Valid() && fdc.fifo.phase == Command
    ensures st3 == [32 + drive + 16 + (if fdc.writeProtect then 64 else 0)]
  {
    SelectBits(drive, 0);
    Issue(fdc, 7, [drive]);
    Issue(fdc, 4, [drive]);
    st3 := Drain(fdc);
  }

  /** VERSION answers as an enhanced controller. */
  method Version(fdc: Fdc) returns (version: seq<u8>)
    requires fdc.Valid() && fdc.fifo.phase == Command
    modifies fdc
    ensures fdc.Valid() && fdc.fifo.phase == Command && version == [0x90]
  {
    fdc.WriteFifo(0x10);
    version := Drain(fdc);
  }

  // WRITE DATA from the last sector of the image to an end of track of 255.
  const LAST_SECTOR: seq<u8> := [4, CYLINDERS - 1, 1, SECTORS, 2, 255, 27, 255]

  lemma LastSectorRuns()
    ensures Start(LAST_SECTOR) == Some(IMAGE_SIZE - SECTOR_SIZE) && Length(LAST_SECTOR) == TRACK_SIZE
    ensures WriteOutcome(LAST_SECTOR, false) == Takes(TRACK_SIZE)
  {
    assert HeadBit(4) == 1;
  }

  /** A span that is accepted and does not read back: eighteen sectors of ones from the last sector on come
      back as one sector of ones and zeros after it. */
  method PastTheEnd(fdc: Fdc) returns (back: seq<u8>)
    requires fdc.Valid() && fdc.fifo.phase == Command && !fdc.writeProtect
    modifies fdc
    ensures |back| == TRACK_SIZE && forall k :: 0 <= k < TRACK_SIZE ==> back[k] == if k < SECTOR_SIZE then 1 else 0
  {
    LastSectorRuns();
    back := WriteThenRead(fdc, WRITE_DATA, READ_DATA, LAST_SECTOR, seq(TRACK_SIZE, _ => 1));
  }

  /** A reset before the last byte of a write leaves the image as it was and the controller idle. */
  method ResetInWrite(fdc: Fdc, write: u8, ps: seq<u8>, data: seq<u8>, n: nat)
    requires fdc.Valid() && fdc.fifo.phase == Command && !fdc.writeProtect && Writes(Opcode(write))
    requires |ps| == 8 && Start(ps).Some? && |data| == Length(ps) && n < |data|
    modifies fdc
    ensures fdc.Valid() && fdc.fifo.phase == Command && fdc.image == old(fdc.image)
  {
    Issue(fdc, write, ps);
    Stage(fdc, data, n);
    fdc.WriteDor(0);
  }

  // ---- Seeking and sensing -----------------------------------------------------------------

  // SENSE INTERRUPT and its result.
  method Sense(fdc: Fdc) returns (bytes: seq<u8>)
    requires fdc.Valid() && fdc.fifo.phase == Command
    modifies fdc
    ensures fdc.Valid() && fdc.fifo.phase == Command && fdc.dor == old(fdc.dor)
    ensures fdc.heads == old(fdc.heads).Sensed() && bytes == old(fdc.heads).Answer()
    ensures fdc.writeProtect == old(fdc.writeProtect) && fdc.image == old(fdc.image)
  {
    fdc.WriteFifo(SENSE_INTERRUPT);
    bytes := Drain(fdc);
  }

  // The reports a reset still owes.
  function ResetPart(n: nat): seq<seq<u8>>
    requires n <= 4
  {
    if n == 0 then [] else [[0xC4 - n, 0]] + ResetPart(n - 1)
  }

  // What is reported of a drive that finished a seek.
  datatype SeekReport = SeekReport(drive: nat, bytes: seq<u8>)

  // The finished seeks from drive d on, in the order they are reported.
  function SeeksFrom(h: Heads, d: nat): seq<SeekReport>
    requires |h.done| == |h.cylinders| && d <= |h.done|
    decreases |h.done| - d
  {
    if d == |h.done| then []
    else (if h.done[d] then [SeekReport(d, [h.st0, h.cylinders[d]])] else []) + SeeksFrom(h, d + 1)
  }

  function Texts(rs: seq<SeekReport>): seq<seq<u8>> {
    seq(|rs|, i requires 0 <= i < |rs| => rs[i].bytes)
  }

  // Every report outstanding, in order.
  function Expected(h: Heads): seq<seq<u8>>
    requires |h.done| == |h.cylinders| && h.resets <= 4
  {
    ResetPart(h.resets) + Texts(SeeksFrom(h, 0))
  }

  lemma {:induction false} SkipTo(h: Heads, d: nat, f: nat)
    requires |h.done| == |h.cylinders| && d <= f <= |h.done| && forall e :: d <= e < f ==> !h.done[e]
    ensures SeeksFrom(h, d) == SeeksFrom(h, f)
    decreases f - d
  {
    if d < f {
      SkipTo(h, d + 1, f);
    }
  }

  lemma {:induction false} SameFrom(h: Heads, g: Heads, d: nat)
    requires |h.done| == |h.cylinders| == |g.done| && g.cylinders == h.cylinders && g.st0 == h.st0 && d <= |h.done|
    requires forall e :: d <= e < |h.done| ==> g.done[e] == h.done[e]
    ensures SeeksFrom(g, d) == SeeksFrom(h, d)
    decreases |h.done| - d
  {
    if d < |h.done| {
      SameFrom(h, g, d + 1);
    }
  }

  // The first finished seek is reported first.
  lemma FirstSeek(h: Heads, f: nat)
    requires h.Valid() && f == FirstFrom(h.done, 0) < 4
    ensures SeeksFrom(h, 0) == [SeekReport(f, [h.st0, h.cylinders[f]])] + SeeksFrom(h.(done := h.done[f := false]), 0)
  {
    var g := h.(done := h.done[f := false]);
    SkipTo(h, 0, f);
    SkipTo(g, 0, f + 1);
    SameFrom(h, g, f + 1);
  }

  // Sensing gives the first of them and leaves the others; with none it says so.
  lemma SensesOne(h: Heads)
    requires h.Valid()
    ensures h.Sensed().Valid() && (h.Pending() <==> Expected(h) != []) && (|h.Answer()| == 1 <==> Expected(h) == [])
    ensures Expected(h) != [] ==> Expected(h) == [h.Answer()] + Expected(h.Sensed())
    ensures Expected(h) == [] ==> h.Sensed() == h
  {
    var f, g := FirstFrom(h.done, 0), h.Sensed();
    if h.resets > 0 {
      SameFrom(h, g, 0);
      assert Expected(h) == [h.Answer()] + (ResetPart(h.resets - 1) + Texts(SeeksFrom(h, 0)));
    } else if f < 4 {
      FirstSeek(h, f);
      assert h.done[f] in h.done;
      assert Texts(SeeksFrom(h, 0)) == [h.Answer()] + Texts(SeeksFrom(g, 0));
      assert Expected(h) == Texts(SeeksFrom(h, 0)) && Expected(g) == Texts(SeeksFrom(g, 0));
    } else {
      SkipTo(h, 0, 4);
      assert SeeksFrom(h, 4) == [];
    }
  }

  lemma SenseTurn(h: Heads, now: Heads, reports: seq<seq<u8>>)
    requires h.Valid() && now.Valid() && reports + Expected(now) == Expected(h)
    ensures now.Sensed().Valid()
    ensures if |now.Answer()| == 1 then !now.Pending() && now.Sensed() == now && reports == Expected(h)
            else |Expected(now.Sensed())| < |Expected(now)| &&
                 (reports + [now.Answer()]) + Expected(now.Sensed()) == Expected(h)
  {
    SensesOne(now);
  }

  // SENSE INTERRUPT until there is nothing left: every report outstanding, in order.
  method SenseAll(fdc: Fdc) returns (reports: seq<seq<u8>>)
    requires fdc.Valid() && fdc.fifo.phase == Command
    modifies fdc
    ensures fdc.Valid() && fdc.fifo.phase == Command && fdc.dor == old(fdc.dor)
    ensures !fdc.heads.Pending() && reports == Expected(old(fdc.heads))
    ensures fdc.heads.cylinders == old(fdc.heads.cylinders) && fdc.heads.st0 == old(fdc.heads.st0)
  {
    reports := [];
    ghost var h := fdc.heads;
    while true
      invariant fdc.Valid() && fdc.fifo.phase == Command && fdc.dor == old(fdc.dor)
      invariant reports + Expected(fdc.heads) == Expected(h)
      invariant fdc.heads.cylinders == h.cylinders && fdc.heads.st0 == h.st0
      decreases |Expected(fdc.heads)|
    {
      SenseTurn(h, fdc.heads, reports);
      var bytes := Sense(fdc);
      if |bytes| == 1 {
        return;
      }
      reports := reports + [bytes];
    }
  }

  // Every finished seek is among them.
  lemma {:induction false} SeekListed(h: Heads, d: nat, from: nat) returns (i: nat)
    requires h.Valid() && from <= d < 4 && h.done[d]
    ensures i < |SeeksFrom(h, from)| && SeeksFrom(h, from)[i] == SeekReport(d, [h.st0, h.cylinders[d]])
    decreases d - from
  {
    if from == d {
      i := 0;
    } else {
      i := SeekListed(h, d, from + 1);
      i := if h.done[from] then i + 1 else i;
    }
  }

  lemma SeekExpected(h: Heads, d: nat)
    requires h.Valid() && d < 4 && h.done[d]
    ensures [h.st0, h.cylinders[d]] in Expected(h)
  {
    var i := SeekListed(h, d, 0);
    assert Expected(h)[|ResetPart(h.resets)| + i] == [h.st0, h.cylinders[d]];
  }

  /** SEEK, then SENSE INTERRUPT until there is nothing left, then READ ID on the same drive, from any idle
      controller: one of the reports names the drive, head and cylinder sought, stopping at the last, and
      READ ID finds the head there.  With nothing outstanding before, it is the only report. */
  method SeekThenSense(fdc: Fdc, ps: seq<u8>) returns (reports: seq<seq<u8>>, id: seq<u8>)
    requires fdc.Valid() && fdc.fifo.phase == Command && |ps| == 2
    modifies fdc
    ensures fdc.Valid() && fdc.fifo.phase == Command && !fdc.heads.Pending()
    ensures [0x20 + 4 * HeadBit(ps[0]) + DriveBits(ps[0]), Min(ps[1], CYLINDERS - 1)] in reports
    ensures !old(fdc.heads.Pending()) ==> |reports| == 1
    ensures |id| == 7 && id[3] == Min(ps[1], CYLINDERS - 1) && id[4] == HeadBit(ps[0])
  {
    ghost var h := fdc.heads;
    Issue(fdc, SEEK, ps);
    if !h.Pending() {
      OneSeek(h, DriveBits(ps[0]), HeadBit(ps[0]), Min(ps[1], CYLINDERS - 1));
    }
    SeekExpected(fdc.heads, DriveBits(ps[0]));
    reports := SenseAll(fdc);
    Issue(fdc, READ_ID, [ps[0]]);
    id := Drain(fdc);
  }

  lemma NoneDone(h: Heads)
    requires h.Valid() && !h.Pending()
    ensures forall e :: 0 <= e < 4 ==> !h.done[e]
  {
    forall e | 0 <= e < 4
      ensures !h.done[e]
    {
      assert h.done[e] in h.done;
    }
  }

  // With nothing else outstanding, a finished seek is the only thing there is.
  lemma OneSeek(heads: Heads, drive: u8, head: u8, cylinder: u8)
    requires heads.Valid() && !heads.Pending() && drive < 4 && head < 2 && cylinder < CYLINDERS
    ensures var h := heads.Arrived(drive, head, cylinder);
      SeeksFrom(h, 0) == [SeekReport(drive, [h.st0, cylinder])] && |Expected(h)| == 1
  {
    var h := heads.Arrived(drive, head, cylinder);
    NoneDone(heads);
    SkipTo(h, 0, drive);
    SkipTo(h, drive + 1, 4);
  }

  // ---- The shared status byte --------------------------------------------------------------

  // A report names the drive it is about.
  predicate Own(r: SeekReport) { |r.bytes| == 2 && DriveBits(r.bytes[0]) == r.drive }

  ghost predicate AllOwn(h: Heads)
    requires h.Valid()
  {
    forall r :: r in SeeksFrom(h, 0) ==> Own(r)
  }

  lemma {:induction false} ListedSeek(h: Heads, from: nat, r: SeekReport)
    requires h.Valid() && from <= 4 && r in SeeksFrom(h, from)
    ensures from <= r.drive < 4 && h.done[r.drive] && r.bytes == [h.st0, h.cylinders[r.drive]]
    decreases 4 - from
  {
    if from < 4 && !(h.done[from] && r == SeekReport(from, [h.st0, h.cylinders[from]])) {
      ListedSeek(h, from + 1, r);
    }
  }

  /** Every report of a finished seek names its own drive if and only if every drive with one unreported is the
      drive in the status byte they share. */
  lemma OwnExactly(h: Heads)
    requires h.Valid()
    ensures AllOwn(h) <==> forall d :: 0 <= d < 4 && h.done[d] ==> d == DriveBits(h.st0)
  {
    if AllOwn(h) {
      forall d | 0 <= d < 4 && h.done[d]
        ensures d == DriveBits(h.st0)
      {
        var i := SeekListed(h, d, 0);
        assert SeeksFrom(h, 0)[i] in SeeksFrom(h, 0);
      }
    } else {
      var r :| r in SeeksFrom(h, 0) && !Own(r);
      ListedSeek(h, 0, r);
    }
  }

  lemma StatusDrive(drive: u8, head: u8)
    requires drive < 4 && head < 2
    ensures DriveBits(0x20 + 4 * head + drive) == drive
  {
    LowIsRemainder(0x20 + 4 * head + drive, 4);
  }

  /** Two seeks with no sense between them, from a controller with nothing outstanding: the reports name their
      own drives if and only if both seeks were of the same one. */
  method TwoSeeks(fdc: Fdc, a: seq<u8>, b: seq<u8>) returns (reports: seq<seq<u8>>, ghost h: Heads)
    requires fdc.Valid() && fdc.fifo.phase == Command && !fdc.heads.Pending() && |a| == 2 == |b|
    modifies fdc
    ensures h.Valid() && reports == Expected(h) == Texts(SeeksFrom(h, 0))
    ensures AllOwn(h) <==> DriveBits(a[0]) == DriveBits(b[0])
    ensures |reports| == if DriveBits(a[0]) == DriveBits(b[0]) then 1 else 2
  {
    ghost var before := fdc.heads;
    NoneDone(before);
    Issue(fdc, SEEK, a);
    Issue(fdc, SEEK, b);
    h := fdc.heads;
    StatusDrive(DriveBits(b[0]), HeadBit(b[0]));
    OwnExactly(h);
    assert h.done == before.done[DriveBits(a[0]) := true][DriveBits(b[0]) := true];
    TwoDone(h, DriveBits(a[0]), DriveBits(b[0]));
    assert h.resets == 0 && Expected(h) == [] + Texts(SeeksFrom(h, 0));
    assert (forall d :: 0 <= d < 4 && h.done[d] ==> d == DriveBits(b[0])) <==> DriveBits(a[0]) == DriveBits(b[0]) by {
      assert h.done[DriveBits(a[0])];
    }
    reports := SenseAll(fdc);
  }

  lemma TwoDone(h: Heads, p: nat, q: nat)
    requires h.Valid() && p < 4 && q < 4 && forall e :: 0 <= e < 4 ==> h.done[e] == (e == p || e == q)
    ensures |SeeksFrom(h, 0)| == if p == q then 1 else 2
  {
    var lo, hi := if p < q then p else q, if p < q then q else p;
    SkipTo(h, 0, lo);
    if lo < hi {
      SkipTo(h, lo + 1, hi);
    }
    SkipTo(h, hi + 1, 4);
  }

  /** After a seek of drive 0 to cylinder 10 and one of drive 1 to cylinder 20, both reports name drive 1. */
  method SharedStatus(fdc: Fdc) returns (first: seq<u8>, second: seq<u8>)
    requires fdc.Valid() && fdc.fifo.phase == Command && !fdc.heads.Pending()
    modifies fdc
    ensures first == [0x21, 10] && second == [0x21, 20]
  {
    NoneDone(fdc.heads);
    Issue(fdc, SEEK, [0, 10]);
    Issue(fdc, SEEK, [1, 20]);
    assert FirstFrom(fdc.heads.done, 0) == 0;
    first := Sense(fdc);
    assert FirstFrom(fdc.heads.done, 0) == 1;
    second := Sense(fdc);
  }

  /** Out of reset there are four reports, one for each drive, and then nothing to report. */
  method ResetReports(fdc: Fdc) returns (reports: seq<seq<u8>>)
    requires fdc.Valid()
    modifies fdc
    ensures fdc.Valid() && fdc.fifo.phase == Command && !fdc.heads.Pending() && fdc.image == old(fdc.image)
    ensures reports == [[0xC0, 0], [0xC1, 0], [0xC2, 0], [0xC3, 0], [0x80]]
  {
    fdc.WriteDor(0);
    fdc.WriteDor(4);
    reports := [];
    for i := 0 to 4
      invariant fdc.Valid() && fdc.fifo.phase == Command && fdc.image == old(fdc.image)
      invariant fdc.heads == Heads([0, 0, 0, 0], [false, false, false, false], 4 - i, 0xC0)
      invariant reports == [[0xC0, 0], [0xC1, 0], [0xC2, 0], [0xC3, 0]][..i]
    {
      var bytes := Sense(fdc);
      reports := reports + [bytes];
    }
    var last := Sense(fdc);
    reports := reports + [last];
  }
}
