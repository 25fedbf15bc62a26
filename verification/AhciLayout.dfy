/**
 The command structures as a driver lays them out in memory (sections 4.2.2 and 4.2.3 of the AHCI 1.3.1
 specification), and the proof that the engine reads back what was laid out.
 */
module AhciLayout {
  import opened Common
  import opened Dma
  import opened Scatter
  import opened Ahci

  lemma WordValue(buf: seq<byte>, at: nat, v: nat)
    requires v < TWO32 && at + 4 <= |buf| && buf[at..at + 4] == ToLe(v, WORD)
    ensures Le32(buf, at) == v
  {
    WordOf(v);
    var d := buf[at..at + 4];
    assert d[0] == buf[at] && d[1] == buf[at + 1] && d[2] == buf[at + 2] && d[3] == buf[at + 3];
    assert v / 256 / 256 == v / 0x1_0000 && v / 0x1_0000 / 256 == v / 0x100_0000;
  }

  // ---- Command header ----------------------------------------------------------------------

  // Flags, table length, byte count, table address low and high, and what is reserved.
  function HeaderBytes(flags: seq<byte>, prdtl: nat, prdbc: seq<byte>, ctba: u64, rest: seq<byte>): seq<byte> {
    flags + ToLe(prdtl, PAIR) + prdbc + ToLe(ctba % TWO32, WORD) + ToLe(ctba / TWO32, WORD) + rest
  }

  lemma HeaderReadsBack(flags: seq<byte>, prdtl: nat, prdbc: seq<byte>, ctba: u64, rest: seq<byte>)
    requires |flags| == 2 && prdtl < 0x1_0000 && |prdbc| == 4 && |rest| == 16
    ensures ParseHeader(HeaderBytes(flags, prdtl, prdbc, ctba, rest)) == Some(Header(prdtl, ctba))
  {
    var buf := HeaderBytes(flags, prdtl, prdbc, ctba, rest);
    PairOf(prdtl);
    assert buf[2] == prdtl % 256 && buf[3] == prdtl / 256;
    assert buf[8..12] == ToLe(ctba % TWO32, WORD);
    assert buf[12..16] == ToLe(ctba / TWO32, WORD);
    WordValue(buf, 8, ctba % TWO32);
    WordValue(buf, 12, ctba / TWO32);
  }

  // ---- Command FIS -------------------------------------------------------------------------

  // Type, port flags, command, features, LBA low, device, LBA high, features high, count and the rest.
  function FisBytes(f: Fis, flags: byte, features: byte, high: byte, rest: seq<byte>): seq<byte> {
    [0x27, flags, f.command, features] + ToLe(f.lba % 0x100_0000, TRIPLE) + [f.device]
    + ToLe(f.lba / 0x100_0000, TRIPLE) + [high] + ToLe(f.count, PAIR) + rest
  }

  lemma FisReadsBack(f: Fis, flags: byte, features: byte, high: byte, rest: seq<byte>)
    requires f.lba < 0x1_0000_0000_0000 && f.count < 0x1_0000 && |rest| >= 2
    ensures ParseFis(FisBytes(f, flags, features, high, rest)) == Some(f)
  {
    var buf := FisBytes(f, flags, features, high, rest);
    var low, top := f.lba % 0x100_0000, f.lba / 0x100_0000;
    TripleOf(low);
    TripleOf(top);
    PairOf(f.count);
    assert buf[4] == low % 256 && buf[5] == low / 256 % 256 && buf[6] == low / 0x1_0000;
    assert buf[8] == top % 256 && buf[9] == top / 256 % 256 && buf[10] == top / 0x1_0000;
    assert buf[12] == f.count % 256 && buf[13] == f.count / 256;
    assert low / 256 / 256 == low / 0x1_0000 && top / 256 / 256 == top / 0x1_0000;
  }

  // ---- Region descriptors ------------------------------------------------------------------

  // Address low and high, a reserved word, and the count less one under flags the engine ignores.
  function PrdBytes(s: Seg, reserved: seq<byte>, flags: nat): seq<byte> {
    ToLe(s.gpa % TWO32, WORD) + ToLe(s.gpa / TWO32, WORD) + reserved + ToLe(s.len - 1 + flags * 0x40_0000, WORD)
  }

  // The count survives under the flags.
  lemma CountUnderFlags(len: pos, flags: nat)
    requires len <= 0x40_0000 && flags < 0x400
    ensures len - 1 + flags * 0x40_0000 < TWO32 && (len - 1 + flags * 0x40_0000) % 0x40_0000 + 1 == len
  {
  }

  lemma FourWords(a: seq<byte>, b: seq<byte>, c: seq<byte>, d: seq<byte>)
    requires |a| == 4 && |b| == 4 && |c| == 4 && |d| == 4
    ensures var buf := a + b + c + d; buf[0..4] == a && buf[4..8] == b && buf[12..16] == d
  {
  }

  lemma PrdReadsBack(s: Seg, reserved: seq<byte>, flags: nat)
    requires s.gpa < TWO64 && s.len <= 0x40_0000 && |reserved| == 4 && flags < 0x400
    ensures ParsePrd(PrdBytes(s, reserved, flags)) == Some(s)
  {
    var buf := PrdBytes(s, reserved, flags);
    CountUnderFlags(s.len, flags);
    var low, high, count := s.gpa % TWO32, s.gpa / TWO32, s.len - 1 + flags * 0x40_0000;
    FourWords(ToLe(low, WORD), ToLe(high, WORD), reserved, ToLe(count, WORD));
    WordValue(buf, 0, low);
    WordValue(buf, 4, high);
    WordValue(buf, 12, count);
  }

  // ---- A command in memory -----------------------------------------------------------------

  ghost predicate Holds(mem: Mem, at: nat, bytes: seq<byte>) {
    at + |bytes| <= |mem| && mem[at..at + |bytes|] == bytes
  }

  ghost predicate HeaderLaid(mem: Mem, at: nat, hdr: Header) {
    exists flags, prdbc, rest ::
      |flags| == 2 && |prdbc| == 4 && |rest| == 16 && Holds(mem, at, HeaderBytes(flags, hdr.prdtl, prdbc, hdr.ctba, rest))
  }

  ghost predicate FisLaid(mem: Mem, at: nat, fis: Fis) {
    exists flags, features, high, rest ::
      |rest| == FIS_SIZE - 14 && Holds(mem, at, FisBytes(fis, flags, features, high, rest))
  }

  ghost predicate SegLaid(mem: Mem, at: nat, s: Seg) {
    exists reserved, flags: nat :: |reserved| == 4 && flags < 0x400 && Holds(mem, at, PrdBytes(s, reserved, flags))
  }

  lemma {:induction false} SegmentsLaidOut(mem: Mem, base: nat, segs: seq<Seg>, n: nat)
    requires n <= |segs| && forall i :: 0 <= i < |segs| ==> segs[i].gpa < TWO64 && segs[i].len <= 0x40_0000
    requires forall i :: 0 <= i < |segs| ==> SegLaid(mem, base + i * PRD_SIZE, segs[i])
    ensures Segments(mem, base, n) == segs[..n]
  {
    if n > 0 {
      SegmentsLaidOut(mem, base, segs, n - 1);
      var s := segs[n - 1];
      var reserved, flags: nat :|
        |reserved| == 4 && flags < 0x400 && Holds(mem, base + (n - 1) * PRD_SIZE, PrdBytes(s, reserved, flags));
      PrdReadsBack(s, reserved, flags);
      assert PrdAt(mem, base, n - 1) == Some(s);
      assert segs[..n] == segs[..n - 1] + [s];
    }
  }

  /** A command laid out in memory is the command the engine decodes, whatever its reserved bytes hold. */
  lemma DecodesAsLaidOut(mem: Mem, hdrGpa: nat, hdr: Header, cmd: Cmd)
    requires hdr.prdtl == |cmd.segs| < 0x1_0000 && cmd.fis.lba < 0x1_0000_0000_0000 && cmd.fis.count < 0x1_0000
    requires forall i :: 0 <= i < |cmd.segs| ==> cmd.segs[i].gpa < TWO64 && cmd.segs[i].len <= 0x40_0000
    requires HeaderLaid(mem, hdrGpa, hdr) && FisLaid(mem, hdr.ctba, cmd.fis)
    requires forall i :: 0 <= i < |cmd.segs| ==> SegLaid(mem, hdr.ctba + PRDT_OFFSET + i * PRD_SIZE, cmd.segs[i])
    ensures Decode(mem, hdrGpa) == Some(cmd)
  {
    HeaderRead(mem, hdrGpa, hdr);
    FisRead(mem, hdr.ctba, cmd.fis);
    SegmentsLaidOut(mem, hdr.ctba + PRDT_OFFSET, cmd.segs, |cmd.segs|);
    assert cmd.segs[..|cmd.segs|] == cmd.segs;
  }

  lemma HeaderRead(mem: Mem, at: nat, hdr: Header)
    requires HeaderLaid(mem, at, hdr) && hdr.prdtl < 0x1_0000
    ensures Read(mem, at, HEADER_SIZE).Some? && ParseHeader(Read(mem, at, HEADER_SIZE).value) == Some(hdr)
  {
    var flags, prdbc, rest :|
      |flags| == 2 && |prdbc| == 4 && |rest| == 16 && Holds(mem, at, HeaderBytes(flags, hdr.prdtl, prdbc, hdr.ctba, rest));
    HeaderReadsBack(flags, hdr.prdtl, prdbc, hdr.ctba, rest);
    assert |HeaderBytes(flags, hdr.prdtl, prdbc, hdr.ctba, rest)| == HEADER_SIZE;
  }

  lemma FisRead(mem: Mem, at: nat, fis: Fis)
    requires FisLaid(mem, at, fis) && fis.lba < 0x1_0000_0000_0000 && fis.count < 0x1_0000
    ensures Read(mem, at, FIS_SIZE).Some? && ParseFis(Read(mem, at, FIS_SIZE).value) == Some(fis)
  {
    var flags, features, high, rest :|
      |rest| == FIS_SIZE - 14 && Holds(mem, at, FisBytes(fis, flags, features, high, rest));
    FisReadsBack(fis, flags, features, high, rest);
    assert |FisBytes(fis, flags, features, high, rest)| == FIS_SIZE;
  }
}
