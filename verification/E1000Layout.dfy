/** Transmit descriptors as a driver lays them out, and the proof that the walk reads back what was laid out. */
module E1000Layout {
  import opened Arith
  import opened Common
  import opened Dma
  import opened E1000Tx

  // The number whose bits these are, lowest first.
  function Value(bits: seq<bool>): nat {
    if bits == [] then 0 else (if bits[0] then 1 else 0) + 2 * Value(bits[1..])
  }

  lemma {:induction false} BitOf(bits: seq<bool>, i: nat)
    requires i < |bits|
    ensures Value(bits) / Pow2(i) % 2 == if bits[i] then 1 else 0
  {
    var b, v := if bits[0] then 1 else 0, Value(bits[1..]);
    if i == 0 {
      LowBit(b, v);
    } else {
      BitOf(bits[1..], i - 1);
      HalfDown(b, v, Pow2(i - 1));
    }
  }

  lemma LowBit(b: nat, v: nat)
    requires b < 2
    ensures (b + 2 * v) / 1 % 2 == b
  {
  }

  lemma HalfDown(b: nat, v: nat, p: nat)
    requires b < 2 && p > 0
    ensures (b + 2 * v) / (2 * p) == v / p
  {
    var q, r := v / p, v % p;
    assert v == q * p + r;
    assert b + 2 * v == q * (2 * p) + (2 * r + b) by {
      assert 2 * (q * p) == q * (2 * p);
    }
    DivModUnique(b + 2 * v, 2 * p, q, 2 * r + b);
  }

  lemma {:induction false} ValueBound(bits: seq<bool>)
    ensures Value(bits) < Pow2(|bits|)
  {
    if bits != [] {
      ValueBound(bits[1..]);
    }
  }

  const OCTET: nat := 8

  lemma OctetIs()
    ensures Pow2(OCTET) == 256 && Pow2(0) == 1 && Pow2(3) == 8 && Pow2(5) == 32
  {
    assert Pow2(3) == 8;
    assert Pow2(5) == 4 * Pow2(3);
    assert Pow2(8) == 8 * Pow2(5);
  }

  // The bits of a command byte from the lowest: bit 0 ends a packet, bit 3 asks for a report, bit 5 marks the extended
  // format, and the walk ignores the others.
  ghost predicate Command(bits: seq<bool>, cmd: byte) { |bits| == OCTET && cmd == Value(bits) }

  lemma AnyCommand(bits: seq<bool>) returns (cmd: byte)
    requires |bits| == OCTET
    ensures Command(bits, cmd)
  {
    OctetIs();
    ValueBound(bits);
    cmd := Value(bits);
  }

  /** The three flags are read from those bits. */
  lemma CommandBits(bits: seq<bool>, cmd: byte)
    requires Command(bits, cmd)
    ensures Eop(cmd) == bits[0] && Rs(cmd) == bits[3] && Dext(cmd) == bits[5]
  {
    OctetIs();
    BitOf(bits, 0);
    BitOf(bits, 3);
    BitOf(bits, 5);
  }

  // Buffer address, length, checksum offset, command and the write-back half.
  function LegacyBytes(addr: nat, len: nat, cso: byte, cmd: byte, rest: seq<byte>): seq<byte> {
    ToLe(addr, LONG) + ToLe(len, PAIR) + [cso, cmd] + rest
  }

  /** A legacy descriptor reads back: address, 16-bit length, end of packet and report status. */
  lemma LegacyReadsBack(addr: u64, len: nat, cso: byte, cmd: byte, bits: seq<bool>, rest: seq<byte>)
    requires len < 0x1_0000 && |rest| == 4 && Command(bits, cmd) && !bits[5]
    ensures Parse(LegacyBytes(addr, len, cso, cmd, rest)) == Descriptor(true, addr, len, bits[0], bits[3])
  {
    var raw := LegacyBytes(addr, len, cso, cmd, rest);
    PairOf(len);
    CommandBits(bits, cmd);
    assert raw[..8] == ToLe(addr, LONG);
    assert raw[8] == len % 256 && raw[9] == len / 256 && raw[11] == cmd;
    WidthBounds();
    LeToLe(addr, LONG);
  }

  // Buffer address, 20-bit length under the 4-bit type, command and the write-back half.
  function ExtendedBytes(addr: nat, len: nat, dtyp: nat, cmd: byte, rest: seq<byte>): seq<byte> {
    ToLe(addr, LONG) + ToLe(len + 0x10_0000 * dtyp, TRIPLE) + [cmd] + rest
  }

  /** An extended descriptor of the data type reads back with its 20-bit length; of any other type it names
      no buffer and ends no packet. */
  lemma ExtendedReadsBack(addr: u64, len: nat, dtyp: nat, cmd: byte, bits: seq<bool>, rest: seq<byte>)
    requires len < 0x10_0000 && dtyp < 16 && |rest| == 4 && Command(bits, cmd) && bits[5]
    ensures Parse(ExtendedBytes(addr, len, dtyp, cmd, rest))
         == if dtyp == 1 then Descriptor(true, addr, len, bits[0], bits[3]) else Descriptor(false, 0, 0, false, bits[3])
  {
    var raw := ExtendedBytes(addr, len, dtyp, cmd, rest);
    var v := len + 0x10_0000 * dtyp;
    TripleOf(v);
    CommandBits(bits, cmd);
    assert raw[..8] == ToLe(addr, LONG);
    assert raw[8] == v % 256 && raw[9] == v / 256 % 256 && raw[10] == v / 0x1_0000 && raw[11] == cmd;
    LengthUnderType(len, dtyp);
    WidthBounds();
    LeToLe(addr, LONG);
  }

  lemma LengthUnderType(len: nat, dtyp: nat)
    requires len < 0x10_0000 && dtyp < 16
    ensures var v := len + 0x10_0000 * dtyp;
      v / 0x1_0000 / 16 == dtyp && v % 256 + 0x100 * (v / 256 % 256) + 0x1_0000 * (v / 0x1_0000 % 16) == len
  {
  }
}
