/** Where each field of a saved context lies, counted in bytes from the start of the blob. */
module ContextLayout {
  import opened Common
  import opened Dma
  import MemMap
  import opened ContextCodec

  // A little-endian number of so many bytes at a place.
  ghost predicate Field(data: seq<byte>, at: nat, width: nat, value: nat) {
    at + width <= |data| && Le(data[at..at + width]) == value
  }

  lemma NumberField(data: seq<byte>, at: nat, width: nat, value: nat)
    requires At(data, at, ToLe(value, width)) && value < Pow256(width)
    ensures Field(data, at, width, value)
  {
    LeToLe(value, width);
  }

  // Number and the rest after it.
  lemma NumberThen(data: seq<byte>, at: nat, width: nat, value: nat, rest: seq<byte>)
    requires At(data, at, ToLe(value, width) + rest) && value < Pow256(width)
    ensures Field(data, at, width, value) && At(data, at + width, rest)
  {
    AtSplit(data, at, ToLe(value, width), rest);
    NumberField(data, at, width, value);
  }

  ghost predicate HeadLaid(data: seq<byte>, s: Snapshot, arch: nat) {
    && At(data, 0, [0x43, 0x58, 0x41, 0x52]) && Field(data, 4, 4, 1) && Field(data, 8, 4, arch)
    && Field(data, 12, 4, s.mode) && Field(data, 16, 4, if s.emu.Some? then 1 else 0)
  }

  /** Magic, version, architecture, mode and flags, four bytes each. */
  lemma HeadFields(data: seq<byte>, s: Snapshot, arch: nat)
    requires At(data, 0, EncodeHead(s, arch)) && arch < 0x1_0000_0000 && s.mode < 0x1_0000_0000
    ensures HeadLaid(data, s, arch)
  {
    WidthBounds();
    var flags := ToLe(Flags(s), WORD);
    var mode := ToLe(s.mode, WORD) + flags;
    var a := ToLe(arch, WORD) + mode;
    MagicBytes();
    AtSplit(data, 0, ToLe(MAGIC, WORD), ToLe(VERSION, WORD) + a);
    NumberThen(data, 4, WORD, VERSION, a);
    NumberThen(data, 8, WORD, arch, mode);
    NumberThen(data, 12, WORD, s.mode, flags);
    NumberField(data, 16, WORD, Flags(s));
  }

  lemma MagicBytes()
    ensures ToLe(MAGIC, WORD) == [0x43, 0x58, 0x41, 0x52]
  {
    WordOf(MAGIC);
  }

  // The bytes of the emulator state, none without it.
  function EmuBytes(s: Snapshot): seq<byte> { if s.emu.Some? then s.emu.value else [] }

  ghost predicate TailLaid(data: seq<byte>, s: Snapshot) {
    && Field(data, 20, 8, |s.cpu|) && At(data, 28, s.cpu)
    && Field(data, 28 + |s.cpu|, 8, |EmuBytes(s)|) && At(data, 36 + |s.cpu|, EmuBytes(s))
    && Field(data, 36 + |s.cpu| + |EmuBytes(s)|, 8, |s.regions|)
  }

  /** From byte 20 on: the length of the CPU state and the state, the length of the emulator state and the state, the
      number of regions and the regions. */
  lemma TailFields(data: seq<byte>, s: Snapshot)
    requires At(data, 20, EncodeTail(s)) && |s.cpu| < TWO64 && |EmuBytes(s)| < TWO64 && |s.regions| < TWO64
    ensures TailLaid(data, s)
  {
    CpuFields(data, s);
    EmuFields(data, 28 + |s.cpu|, s);
  }

  // The CPU state, and what follows it.
  lemma CpuFields(data: seq<byte>, s: Snapshot)
    requires At(data, 20, EncodeTail(s)) && |s.cpu| < TWO64
    ensures Field(data, 20, 8, |s.cpu|) && At(data, 28, s.cpu)
    ensures At(data, 28 + |s.cpu|, EncodeEmu(s) + (ToLe(|s.regions|, LONG) + EncodeRegions(s.regions, |s.regions|)))
  {
    WidthBounds();
    AtSplit(data, 20, EncodeBytes(s.cpu), EncodeEmu(s) + (ToLe(|s.regions|, LONG) + EncodeRegions(s.regions, |s.regions|)));
    NumberThen(data, 20, LONG, |s.cpu|, s.cpu);
  }

  lemma EmuFields(data: seq<byte>, e: nat, s: Snapshot)
    requires At(data, e, EncodeEmu(s) + (ToLe(|s.regions|, LONG) + EncodeRegions(s.regions, |s.regions|)))
    requires |EmuBytes(s)| < TWO64 && |s.regions| < TWO64
    ensures Field(data, e, 8, |EmuBytes(s)|) && At(data, e + 8, EmuBytes(s)) && Field(data, e + 8 + |EmuBytes(s)|, 8, |s.regions|)
    ensures At(data, e + 16 + |EmuBytes(s)|, EncodeRegions(s.regions, |s.regions|))
  {
    assert EncodeEmu(s) == EncodeBytes(EmuBytes(s));
    PrefixedThen(data, e, EmuBytes(s), |s.regions|, EncodeRegions(s.regions, |s.regions|));
  }

  // Bytes under their length, then a count and the rest.
  lemma PrefixedThen(data: seq<byte>, at: nat, b: seq<byte>, n: nat, rest: seq<byte>)
    requires At(data, at, EncodeBytes(b) + (ToLe(n, LONG) + rest)) && |b| < TWO64 && n < TWO64
    ensures Field(data, at, 8, |b|) && At(data, at + 8, b) && Field(data, at + 8 + |b|, 8, n) && At(data, at + 16 + |b|, rest)
  {
    WidthBounds();
    AtSplit(data, at, EncodeBytes(b), ToLe(n, LONG) + rest);
    NumberThen(data, at, LONG, |b|, b);
    NumberThen(data, at + 8 + |b|, LONG, n, rest);
  }

  ghost predicate RegionLaid(data: seq<byte>, at: nat, r: MemMap.Region) {
    && Field(data, at, 8, r.spec.base) && Field(data, at + 8, 8, r.spec.size) && Field(data, at + 16, 4, r.spec.perms)
    && Field(data, at + 20, 4, 0) && At(data, at + 24, r.data)
  }

  /** A region: base and size in eight bytes each, permissions and padding in four each, and its contents. */
  lemma RegionFields(data: seq<byte>, at: nat, r: MemMap.Region)
    requires At(data, at, EncodeRegion(r)) && r.spec.base < TWO64 && r.spec.size < TWO64
    ensures RegionLaid(data, at, r)
  {
    WidthBounds();
    var body := ToLe(0, WORD) + r.data;
    var perms := ToLe(r.spec.perms, WORD) + body;
    NumberThen(data, at, LONG, r.spec.base, ToLe(r.spec.size, LONG) + perms);
    NumberThen(data, at + 8, LONG, r.spec.size, perms);
    NumberThen(data, at + 16, WORD, r.spec.perms, body);
    NumberThen(data, at + 20, WORD, 0, r.data);
  }

  // The bytes of the first i regions.
  function Offset(rs: seq<MemMap.Region>, i: nat): nat
    requires i <= |rs|
  {
    if i == 0 then 0 else Offset(rs, i - 1) + 24 + |rs[i - 1].data|
  }

  lemma {:induction false} OffsetIs(rs: seq<MemMap.Region>, i: nat)
    requires i <= |rs|
    ensures |EncodeRegions(rs, i)| == Offset(rs, i)
  {
    if i > 0 {
      OffsetIs(rs, i - 1);
    }
  }

  /** Regions follow each other in order. */
  lemma {:induction false} RegionPlace(data: seq<byte>, at: nat, rs: seq<MemMap.Region>, n: nat, i: nat)
    requires n <= |rs| && i < n && At(data, at, EncodeRegions(rs, n))
    ensures At(data, at + Offset(rs, i), EncodeRegion(rs[i]))
  {
    AtSplit(data, at, EncodeRegions(rs, n - 1), EncodeRegion(rs[n - 1]));
    OffsetIs(rs, n - 1);
    if i < n - 1 {
      RegionPlace(data, at, rs, n - 1, i);
    }
  }

  lemma EncodedParts(s: Snapshot, arch: nat)
    ensures At(Encode(s, arch), 0, EncodeHead(s, arch)) && At(Encode(s, arch), 20, EncodeTail(s))
  {
    var data := Encode(s, arch);
    assert data[0..|data|] == data;
    AtSplit(data, 0, EncodeHead(s, arch), EncodeTail(s));
  }

  // The numbers fit their fields.
  ghost predicate Fits(s: Snapshot, arch: nat) {
    && arch < 0x1_0000_0000 && s.mode < 0x1_0000_0000
    && |s.cpu| < TWO64 && |EmuBytes(s)| < TWO64 && |s.regions| < TWO64
    && forall i :: 0 <= i < |s.regions| ==> s.regions[i].spec.base < TWO64 && s.regions[i].spec.size < TWO64
  }

  /** A saved context begins with its head, */
  lemma HeadLayout(s: Snapshot, arch: nat)
    requires Fits(s, arch)
    ensures HeadLaid(Encode(s, arch), s, arch)
  {
    EncodedParts(s, arch);
    HeadFields(Encode(s, arch), s, arch);
  }

  /** goes on with state and the number of regions, */
  lemma TailLayout(s: Snapshot, arch: nat)
    requires Fits(s, arch)
    ensures TailLaid(Encode(s, arch), s)
  {
    EncodedParts(s, arch);
    TailFields(Encode(s, arch), s);
  }

  /** and then has the regions, */
  lemma RegionsStart(s: Snapshot, arch: nat)
    requires Fits(s, arch)
    ensures At(Encode(s, arch), 44 + |s.cpu| + |EmuBytes(s)|, EncodeRegions(s.regions, |s.regions|))
  {
    EncodedParts(s, arch);
    CpuFields(Encode(s, arch), s);
    EmuFields(Encode(s, arch), 28 + |s.cpu|, s);
  }

  /** of which number i lies after the bytes of those before it. */
  lemma RegionsLaid(data: seq<byte>, at: nat, rs: seq<MemMap.Region>, i: nat)
    requires i < |rs| && At(data, at, EncodeRegions(rs, |rs|)) && rs[i].spec.base < TWO64 && rs[i].spec.size < TWO64
    ensures RegionLaid(data, at + Offset(rs, i), rs[i])
  {
    RegionPlace(data, at, rs, |rs|, i);
    RegionFields(data, at + Offset(rs, i), rs[i]);
  }
}
