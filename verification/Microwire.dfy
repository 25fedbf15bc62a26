/**
 The e1000 EEPROM: the Microwire bit-bang machine behind EECD, the one-shot EERD read, and the image
 they both read.  EECD is a set of bit positions; words are 16-bit values.
 */
module Microwire {
  import opened Arith
  import opened Common

  type Bits = set<nat>
  type u16 = x: int | 0 <= x < 0x1_0000
  type byte = x: int | 0 <= x < 256

  const SK: nat := 0
  const CS: nat := 1
  const DI: nat := 2
  const DO: nat := 3
  const REQ: nat := 6
  const GNT: nat := 7

  const WORDS: nat := 64
  const OPCODE_READ: nat := 6
  const ADDRESS_BITS: nat := 6
  const COMMAND_BITS: nat := 9
  const DATA_BITS: nat := 16

  // The value of the top bits of v, with n bits below them.
  function Top(v: nat, n: nat): int { v / Pow2(n) }

  function BitAt(v: nat, n: nat): (b: nat)
    ensures b < 2
  {
    Top(v, n) % 2
  }

  /** One more bit: the top grows by doubling and adding the bit below it. */
  lemma TopNext(v: nat, n: nat)
    ensures Top(v, n) == 2 * Top(v, n + 1) + BitAt(v, n)
  {
    var p := Pow2(n);
    var q, r := v / p, v % p;
    assert v == q * p + r;
    var h, b := q / 2, q % 2;
    assert q == 2 * h + b;
    assert q * p == h * (2 * p) + b * p;
    assert b * p + r < 2 * p;
    DivModUnique(v, 2 * p, h, b * p + r);
  }

  lemma TopAll(v: nat, n: nat)
    requires v < Pow2(n)
    ensures Top(v, n) == 0
  {
    DivModUnique(v, Pow2(n), 0, v);
  }

  // Bitwise or.
  function Or(a: nat, b: nat): nat
    decreases a + b
  {
    if a == 0 then b else if b == 0 then a
    else (if a % 2 == 1 || b % 2 == 1 then 1 else 0) + 2 * Or(a / 2, b / 2)
  }

  lemma {:induction false} OrFits(a: nat, b: nat, n: nat)
    requires a < Pow2(n) && b < Pow2(n)
    ensures Or(a, b) < Pow2(n)
  {
    if n > 0 && a > 0 && b > 0 {
      OrFits(a / 2, b / 2, n - 1);
    }
  }

  // Every bit of d is a bit of w.
  ghost predicate Inside(d: nat, w: nat) {
    forall n: nat :: BitAt(d, n) == 1 ==> BitAt(w, n) == 1
  }

  lemma BitBelow(v: nat, n: nat)
    ensures BitAt(v, 0) == v % 2 && BitAt(v, n + 1) == BitAt(v / 2, n)
  {
    var p: nat := Pow2(n);
    DivTwice(v, p);
  }

  lemma DivTwice(v: nat, p: nat)
    requires p > 0
    ensures v / (2 * p) == v / 2 / p
  {
    var q := v / 2 / p;
    DivModUnique(v / 2, p, q, v / 2 % p);
    DivModUnique(v, 2 * p, q, v - 2 * p * q);
  }

  lemma InsideHalves(d: nat, w: nat)
    ensures Inside(d, w) <==> (d % 2 == 1 ==> w % 2 == 1) && Inside(d / 2, w / 2)
  {
    BitBelow(d, 0);
    BitBelow(w, 0);
    if Inside(d, w) {
      forall n: nat | BitAt(d / 2, n) == 1
        ensures BitAt(w / 2, n) == 1
      {
        BitBelow(d, n);
        BitBelow(w, n);
      }
    }
    if (d % 2 == 1 ==> w % 2 == 1) && Inside(d / 2, w / 2) {
      forall n: nat | BitAt(d, n) == 1
        ensures BitAt(w, n) == 1
      {
        if n > 0 {
          BitBelow(d, n - 1);
          BitBelow(w, n - 1);
        }
      }
    }
  }

  lemma ZeroHasNoBits(n: nat)
    ensures BitAt(0, n) == 0
  {
    var p: nat := Pow2(n);
    assert 0 / p == 0;
  }

  /** Bits or-ed into a word leave it as it is exactly when they are bits of it already. */
  lemma {:induction false} OrAbsorbs(d: nat, w: nat)
    ensures Or(d, w) == w <==> Inside(d, w)
    decreases d + w
  {
    if d == 0 {
      forall n: nat
        ensures BitAt(d, n) == 0
      {
        ZeroHasNoBits(n);
      }
    } else {
      InsideHalves(d, w);
      if w == 0 {
        OrAbsorbs(d / 2, 0);
      } else {
        OrAbsorbs(d / 2, w / 2);
      }
    }
  }

  /** Every word reads through data bits d exactly when there are none. */
  lemma OrTransparent(d: nat)
    ensures (forall word: u16 :: Or(d, word) == word) <==> d == 0
  {
    if d != 0 {
      assert Or(d, 0) == d;
    }
  }

  lemma SixteenBits()
    ensures Pow2(DATA_BITS) == 0x1_0000 && Pow2(COMMAND_BITS) == 512
  {
    assert Pow2(4) == 16;
    assert Pow2(8) == 16 * Pow2(4);
    assert Pow2(12) == 16 * Pow2(8);
    assert Pow2(9) == 2 * Pow2(8);
    assert Pow2(16) == 16 * Pow2(12);
  }

  // ---- The image ---------------------------------------------------------------------------

  function SumTo(w: seq<u16>, n: nat): nat
    requires n <= |w|
  {
    if n == 0 then 0 else SumTo(w, n - 1) + w[n - 1]
  }

  function Word(lo: byte, hi: byte): u16 {
    var h: int := hi;
    lo + 256 * h
  }

  // The 16-bit sum of the first n words.
  method WrappingSum(w: seq<u16>, n: nat) returns (sum: u16)
    requires n <= |w|
    ensures sum == SumTo(w, n) % 0x1_0000
  {
    sum := 0;
    for i := 0 to n
      invariant sum == SumTo(w, i) % 0x1_0000
    {
      AddModulo(SumTo(w, i), w[i]);
      sum := (sum + w[i]) % 0x1_0000;
    }
  }

  lemma AddModulo(a: nat, b: nat)
    ensures (a % 0x1_0000 + b) % 0x1_0000 == (a + b) % 0x1_0000
  {
  }

  lemma ChecksumCloses(sum: nat)
    ensures (sum + (0xBABA - sum % 0x1_0000) % 0x1_0000) % 0x1_0000 == 0xBABA
  {
  }

  /** The image holds the MAC address and sums to the checksum the driver expects. */
  method NewImage(mac: seq<byte>) returns (eeprom: seq<u16>)
    requires |mac| == 6
    ensures |eeprom| == WORDS && SumTo(eeprom, WORDS) % 0x1_0000 == 0xBABA
    ensures eeprom[0] == Word(mac[0], mac[1]) && eeprom[1] == Word(mac[2], mac[3]) && eeprom[2] == Word(mac[4], mac[5])
  {
    var zeros: seq<u16> := seq(WORDS - 4, _ => 0);
    var image: seq<u16> := [Word(mac[0], mac[1]), Word(mac[2], mac[3]), Word(mac[4], mac[5]), 0x100E] + zeros;
    var sum := WrappingSum(image, WORDS - 1);
    ChecksumCloses(SumTo(image, WORDS - 1));
    var total: int := sum;
    var rest := 0xBABA - total;
    eeprom := image[WORDS - 1 := rest % 0x1_0000];
    SumSame(image, eeprom, WORDS - 1);
  }

  lemma {:induction false} SumSame(v: seq<u16>, w: seq<u16>, n: nat)
    requires n <= |v| && n <= |w| && v[..n] == w[..n]
    ensures SumTo(v, n) == SumTo(w, n)
  {
    if n > 0 {
      assert v[..n - 1] == v[..n][..n - 1] && w[..n - 1] == w[..n][..n - 1] && v[n - 1] == v[..n][n - 1];
      SumSame(v, w, n - 1);
    }
  }

  // ---- The machine -------------------------------------------------------------------------

  // EERD: start and done, the word address and the data; the other bits are kept as written.
  datatype Eerd = Eerd(start: bool, done: bool, spare: nat, addr: byte, data: u16)

  class Eeprom {
    const words: seq<u16>
    var eecd: Bits
    var eerd: Eerd
    var shift: u16
    var count: nat
    var reading: bool
    var dataout: u16
    var dataoutCount: nat
    var prevSk: bool
    var dataOut: bool

    ghost predicate Valid()
      reads this
    {
      && |words| == WORDS && count <= COMMAND_BITS
      && if reading then dataoutCount < DATA_BITS else count < COMMAND_BITS
    }

    constructor (image: seq<u16>)
      requires |image| == WORDS
      ensures Valid() && words == image
    {
      words := image;
      eecd, eerd, shift, count, reading := {}, Eerd(false, false, 0, 0, 0), 0, 0, false;
      dataout, dataoutCount, prevSk, dataOut := 0, 0, false, false;
    }

    // What a rising clock edge does while a word is shifted out, most significant bit first.
    twostate predicate ShiftedOut()
      reads this
      requires old(dataoutCount) < DATA_BITS
    {
      && dataOut == (BitAt(old(dataout), 15 - old(dataoutCount)) == 1)
      && dataoutCount == old(dataoutCount) + 1 && reading == (dataoutCount < DATA_BITS) && dataout == old(dataout)
      && if reading then count == old(count) && shift == old(shift) else count == 0 && shift == 0
    }

    method ShiftOut()
      requires Valid() && reading
      modifies `dataOut, `dataoutCount, `reading, `count, `shift
      ensures Valid() && ShiftedOut()
    {
      dataOut := BitAt(dataout, 15 - dataoutCount) == 1;
      dataoutCount := dataoutCount + 1;
      if dataoutCount >= DATA_BITS {
        reading, count, shift := false, 0, 0;
      }
    }

    // What it does while a command is shifted in: with the ninth bit a READ latches its word, and any
    // other command is forgotten.
    twostate predicate ShiftedIn(di: bool)
      reads this
      requires |words| == WORDS
    {
      var s := (2 * old(shift) + if di then 1 else 0) % 0x1_0000;
      !dataOut &&
      if old(count) + 1 < COMMAND_BITS then
        shift == s && count == old(count) + 1 && !reading && dataoutCount == old(dataoutCount) && dataout == old(dataout)
      else if s / 64 % 8 == OPCODE_READ then
        reading && dataout == words[s % 64] && dataoutCount == 0 && shift == s && count == old(count) + 1
      else !reading && count == 0 && shift == 0
    }

    method ShiftIn(di: bool)
      requires Valid() && !reading
      modifies `dataOut, `dataoutCount, `reading, `count, `shift, `dataout
      ensures Valid() && ShiftedIn(di)
    {
      shift := (2 * shift + if di then 1 else 0) % 0x1_0000;
      count := count + 1;
      dataOut := false;
      if count >= COMMAND_BITS {
        var opcode := shift / 64 % 8;
        if opcode == OPCODE_READ {
          dataout := words[shift % 64];
          dataoutCount := 0;
          reading := true;
        } else {
          count, shift := 0, 0;
        }
      }
    }

    twostate predicate Held()
      reads this
    {
      && shift == old(shift) && count == old(count) && reading == old(reading) && dataout == old(dataout)
      && dataoutCount == old(dataoutCount) && dataOut == old(dataOut)
    }

    // One write to EECD.
    method EecdWrite(value: Bits)
      requires Valid()
      modifies `eecd, `dataOut, `dataoutCount, `reading, `count, `shift, `dataout, `prevSk
      ensures Valid() && prevSk == (SK in value)
      ensures eecd == (if REQ in value then value + {GNT} else value - {GNT}) - {DO}
      ensures CS !in value ==> shift == 0 && count == 0 && !reading && dataoutCount == 0 && !dataOut
      ensures CS in value && !(SK in value && !old(prevSk)) ==> Held()
      ensures CS in value && SK in value && !old(prevSk) && old(reading) ==> ShiftedOut()
      ensures CS in value && SK in value && !old(prevSk) && !old(reading) ==> ShiftedIn(DI in value)
    {
      var stored := if REQ in value then value + {GNT} else value - {GNT};
      var cs, sk, di := CS in value, SK in value, DI in value;
      if !cs {
        shift, count, reading, dataoutCount, dataOut := 0, 0, false, 0, false;
      } else if sk && !prevSk {
        if reading {
          ShiftOut();
        } else {
          ShiftIn(di);
        }
      }
      prevSk := sk;
      eecd := stored - {DO};
    }

    // EECD as read back: the live data-out bit in place of the stored one.
    function EecdRead(): Bits
      reads `eecd, `dataOut
    {
      (eecd - {DO}) + if dataOut then {DO} else {}
    }

    // A one-shot read: START clears, DONE sets, and the word joins whatever the data field held.
    method StartRead(value: Eerd)
      requires Valid()
      modifies `eerd
      ensures Valid()
      ensures !value.start ==> eerd == value.(done := false)
      ensures value.start ==> eerd == value.(start := false, done := true, data := eerd.data)
      ensures value.start ==> eerd.data == Or(value.data, if value.addr < WORDS then words[value.addr] else 0)
    {
      if !value.start {
        eerd := value.(done := false);
        return;
      }
      var data: u16 := if value.addr < WORDS then words[value.addr] else 0;
      SixteenBits();
      OrFits(value.data, data, DATA_BITS);
      eerd := value.(start := false, done := true, data := Or(value.data, data));
    }
  }

  // ---- The driver --------------------------------------------------------------------------

  // The bits a driver writes: clock 0, select 1, data in 2, and access requested in 6.
  function Pins(cs: bool, sk: bool, di: bool): Bits {
    {6} + (if cs then {1} else {}) + (if sk then {0} else {}) + (if di then {2} else {})
  }

  // Present a bit, then one clock pulse.
  method ClockIn(e: Eeprom, di: bool)
    requires e.Valid() && !e.reading && !e.prevSk
    modifies e
    ensures e.Valid() && !e.prevSk && e.ShiftedIn(di)
  {
    e.EecdWrite(Pins(true, false, di));
    e.EecdWrite(Pins(true, true, di));
    e.EecdWrite(Pins(true, false, di));
  }

  // One clock pulse, reading data-out while the clock is high.
  method ClockOut(e: Eeprom) returns (bit: bool)
    requires e.Valid() && e.reading && !e.prevSk
    modifies e
    ensures e.Valid() && !e.prevSk && e.ShiftedOut() && bit == e.dataOut
  {
    e.EecdWrite(Pins(true, true, false));
    bit := 3 in e.EecdRead();
    e.EecdWrite(Pins(true, false, false));
  }

  // Bit i of a command, most significant first.
  method SendBit(e: Eeprom, command: nat, i: nat)
    requires e.Valid() && !e.prevSk && !e.reading && command < 512 && command / 64 == OPCODE_READ
    requires i < COMMAND_BITS && e.count == i && e.shift == Top(command, COMMAND_BITS - i)
    modifies e
    ensures e.Valid() && !e.prevSk
    ensures i + 1 < COMMAND_BITS ==> !e.reading && e.count == i + 1 && e.shift == Top(command, COMMAND_BITS - (i + 1))
    ensures i + 1 == COMMAND_BITS ==> e.reading && e.dataout == e.words[command % 64] && e.dataoutCount == 0
  {
    TopNext(command, COMMAND_BITS - i - 1);
    TopSmall(command, COMMAND_BITS - i - 1);
    ClockIn(e, BitAt(command, COMMAND_BITS - i - 1) == 1);
  }

  // The nine command bits: the READ opcode and the address, most significant first.
  method SendCommand(e: Eeprom, addr: nat)
    requires e.Valid() && addr < WORDS && !e.reading && e.count == 0 && e.shift == 0 && !e.prevSk
    modifies e
    ensures e.Valid() && e.reading && e.dataout == e.words[addr] && e.dataoutCount == 0 && !e.prevSk
  {
    var command := 0x180 + addr;
    SixteenBits();
    TopAll(command, COMMAND_BITS);
    for i := 0 to COMMAND_BITS
      invariant e.Valid() && !e.prevSk
      invariant i < COMMAND_BITS ==> !e.reading && e.count == i && e.shift == Top(command, COMMAND_BITS - i)
      invariant i == COMMAND_BITS ==> e.reading && e.dataout == e.words[addr] && e.dataoutCount == 0
    {
      SendBit(e, command, i);
    }
  }

  lemma {:induction false} TopSmall(v: nat, n: nat)
    ensures 0 <= Top(v, n) <= v && Top(v, 0) == v
  {
    if n > 0 {
      TopSmall(v, n - 1);
      TopNext(v, n - 1);
    }
  }

  method ReceiveWord(e: Eeprom) returns (word: nat)
    requires e.Valid() && e.reading && e.dataoutCount == 0 && !e.prevSk
    modifies e
    ensures e.Valid() && word == old(e.dataout) && !e.prevSk && !e.reading && e.count == 0 && e.shift == 0
  {
    ghost var v := e.dataout;
    SixteenBits();
    TopAll(v, DATA_BITS);
    word := 0;
    for i := 0 to DATA_BITS
      invariant e.Valid() && !e.prevSk && e.dataout == v && word == Top(v, DATA_BITS - i)
      invariant i < DATA_BITS ==> e.reading && e.dataoutCount == i
      invariant i == DATA_BITS ==> !e.reading && e.count == 0 && e.shift == 0
    {
      TopNext(v, DATA_BITS - i - 1);
      TopSmall(v, DATA_BITS - i - 1);
      var bit := ClockOut(e);
      word := 2 * word + if bit then 1 else 0;
    }
    TopSmall(v, 0);
  }

  /** From any state at all, deselect, select, clock in READ and an address, clock out sixteen bits: the
      word at that address.  The machine is then ready for the next command without a deselect. */
  method ReadWord(e: Eeprom, addr: nat) returns (word: nat)
    requires e.Valid() && addr < WORDS
    modifies e
    ensures e.Valid() && word == e.words[addr] && Ready(e)
  {
    e.EecdWrite(Pins(false, false, false));
    e.EecdWrite(Pins(true, false, false));
    word := ReadAgain(e, addr);
  }

  ghost predicate Ready(e: Eeprom)
    reads e
  {
    !e.reading && e.count == 0 && e.shift == 0 && !e.prevSk
  }

  /** Back to back: another word without deselecting. */
  method ReadAgain(e: Eeprom, addr: nat) returns (word: nat)
    requires e.Valid() && addr < WORDS && Ready(e)
    modifies e
    ensures e.Valid() && word == e.words[addr] && Ready(e)
  {
    SendCommand(e, addr);
    word := ReceiveWord(e);
  }

  /** The serial read and the one-shot read of any register value that starts one: they agree exactly when
      the data bits written along with START are bits of the word already, so always when there are none. */
  method BothWays(e: Eeprom, value: Eerd) returns (serial: nat, direct: u16)
    requires e.Valid() && value.addr < WORDS && value.start
    modifies e
    ensures e.Valid() && serial == e.words[value.addr]
    ensures e.eerd == value.(start := false, done := true, data := direct) && direct == Or(value.data, serial)
    ensures serial == direct <==> Inside(value.data, serial)
    ensures value.data == 0 ==> serial == direct
  {
    serial := ReadWord(e, value.addr);
    e.StartRead(value);
    direct := e.eerd.data;
    OrAbsorbs(value.data, serial);
  }

  /** Where they differ: in the image of a device whose MAC address begins with 2, the first word is 2; read with a
      data bit of 1 left in the register it comes back as 3. */
  method DataBitsStay() returns (serial: nat, direct: nat)
    ensures serial == 2 && direct == 3
  {
    var image := NewImage([2, 0, 0, 0, 0, 0]);
    var e := new Eeprom(image);
    assert Or(1, 2) == 3;
    serial, direct := BothWays(e, Eerd(true, false, 0, 0, 1));
  }
}
