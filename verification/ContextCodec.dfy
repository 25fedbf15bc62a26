/**
 The byte layout of a saved context: little-endian fields, length-prefixed state and the memory regions
 with their contents.  Reading back what was written gives it again; reading any shorter prefix fails.
 */
module ContextCodec {
  import opened Common
  import opened Dma
  import MemMap

  // ---- Fields ------------------------------------------------------------------------------

  // What reading at a position gives: a value and the position after it.
  datatype Parsed<+T> = Fail | Got(value: T, pos: nat)

  function Take(data: seq<byte>, pos: nat, n: nat): Parsed<seq<byte>> {
    if pos + n > |data| then Fail else Got(data[pos..pos + n], pos + n)
  }

  function Number(data: seq<byte>, pos: nat, n: nat): Parsed<nat> {
    match Take(data, pos, n) case Fail => Fail case Got(b, p) => Got(Le(b), p)
  }

  // A field that counts as zero when it cannot be read; the position then stays.
  function NumberOr0(data: seq<byte>, pos: nat, n: nat): (nat, nat) {
    match Number(data, pos, n) case Fail => (0, pos) case Got(v, p) => (v, p)
  }

  // The bytes lie at the position, or are cut off somewhere inside.
  ghost predicate At(data: seq<byte>, pos: nat, e: seq<byte>) {
    pos + |e| <= |data| && data[pos..pos + |e|] == e
  }

  ghost predicate CutAt(data: seq<byte>, pos: nat, e: seq<byte>) {
    pos <= |data| < pos + |e| && data[pos..] == e[..|data| - pos]
  }

  lemma AtSplit(data: seq<byte>, pos: nat, a: seq<byte>, b: seq<byte>)
    requires At(data, pos, a + b)
    ensures At(data, pos, a) && At(data, pos + |a|, b)
  {
    assert data[pos..pos + |a|] == (a + b)[..|a|];
    assert data[pos + |a|..pos + |a| + |b|] == (a + b)[|a|..];
  }

  lemma CutSplit(data: seq<byte>, pos: nat, a: seq<byte>, b: seq<byte>)
    requires CutAt(data, pos, a + b)
    ensures CutAt(data, pos, a) || (At(data, pos, a) && CutAt(data, pos + |a|, b))
  {
    if |data| < pos + |a| {
      assert data[pos..] == a[..|data| - pos];
    } else {
      assert data[pos..pos + |a|] == data[pos..][..|a|] == (a + b)[..|data| - pos][..|a|] == a;
      assert data[pos + |a|..] == data[pos..][|a|..] == b[..|data| - pos - |a|];
    }
  }

  lemma NumberAt(data: seq<byte>, pos: nat, v: nat, n: nat)
    requires At(data, pos, ToLe(v, n)) && v < Pow256(n)
    ensures Number(data, pos, n) == Got(v, pos + n)
  {
    LeToLe(v, n);
  }

  lemma NumberCut(data: seq<byte>, pos: nat, e: seq<byte>, n: nat)
    requires CutAt(data, pos, e) && |e| == n
    ensures Number(data, pos, n) == Fail
  {
  }

  // ---- Length-prefixed bytes ---------------------------------------------------------------

  function EncodeBytes(b: seq<byte>): seq<byte> { ToLe(|b|, LONG) + b }

  function Bytes(data: seq<byte>, pos: nat): Parsed<seq<byte>> {
    match Number(data, pos, LONG) case Fail => Fail case Got(n, p) => Take(data, p, n)
  }

  lemma BytesAt(data: seq<byte>, pos: nat, b: seq<byte>)
    requires At(data, pos, EncodeBytes(b)) && |b| < Pow256(LONG)
    ensures Bytes(data, pos) == Got(b, pos + |EncodeBytes(b)|)
  {
    AtSplit(data, pos, ToLe(|b|, LONG), b);
    NumberAt(data, pos, |b|, LONG);
  }

  lemma BytesCut(data: seq<byte>, pos: nat, b: seq<byte>)
    requires CutAt(data, pos, EncodeBytes(b)) && |b| < Pow256(LONG)
    ensures Bytes(data, pos) == Fail
  {
    CutSplit(data, pos, ToLe(|b|, LONG), b);
    if CutAt(data, pos, ToLe(|b|, LONG)) {
      NumberCut(data, pos, ToLe(|b|, LONG), LONG);
    } else {
      NumberAt(data, pos, |b|, LONG);
    }
  }

  // ---- Regions -----------------------------------------------------------------------------

  ghost predicate Encodable(r: MemMap.Region) {
    && r.spec.base < Pow256(LONG) && r.spec.size < Pow256(LONG) && r.spec.perms < Pow256(WORD)
    && |r.data| == r.spec.size
  }

  function EncodeRegion(r: MemMap.Region): seq<byte> {
    ToLe(r.spec.base, LONG) + (ToLe(r.spec.size, LONG) + (ToLe(r.spec.perms, WORD) + (ToLe(0, WORD) + r.data)))
  }

  // Permissions and padding may be missing; the contents may not.
  function RegionBody(data: seq<byte>, pos: nat, base: nat, size: nat): Parsed<MemMap.Region> {
    var (perms, p) := NumberOr0(data, pos, WORD);
    var (_, q) := NumberOr0(data, p, WORD);
    match Take(data, q, size)
    case Fail => Fail
    case Got(b, end) => Got(MemMap.Region(MemMap.Spec(base, size, perms % 0x1_0000_0000), b), end)
  }

  function Region(data: seq<byte>, pos: nat): Parsed<MemMap.Region> {
    match Number(data, pos, LONG)
    case Fail => Fail
    case Got(base, p) =>
      match Number(data, p, LONG)
      case Fail => Fail
      case Got(size, q) => RegionBody(data, q, base, size)
  }

  lemma BodyAt(data: seq<byte>, pos: nat, r: MemMap.Region)
    requires Encodable(r) && At(data, pos, ToLe(r.spec.perms, WORD) + (ToLe(0, WORD) + r.data))
    ensures RegionBody(data, pos, r.spec.base, r.spec.size) == Got(r, pos + 2 * WORD + |r.data|)
  {
    AtSplit(data, pos, ToLe(r.spec.perms, WORD), ToLe(0, WORD) + r.data);
    AtSplit(data, pos + WORD, ToLe(0, WORD), r.data);
    WidthBounds();
    NumberAt(data, pos, r.spec.perms, WORD);
    NumberAt(data, pos + WORD, 0, WORD);
  }

  // Nothing was read, or less than a number is left behind it.
  ghost predicate Spent<T>(r: Parsed<T>, data: seq<byte>) { r.Got? ==> |data| < r.pos + LONG }

  // Cut off inside permissions or padding, the contents come out of the few bytes that are left if they fit.
  lemma BodyCut(data: seq<byte>, pos: nat, r: MemMap.Region)
    requires Encodable(r) && CutAt(data, pos, ToLe(r.spec.perms, WORD) + (ToLe(0, WORD) + r.data))
    ensures Spent(RegionBody(data, pos, r.spec.base, r.spec.size), data)
    ensures r.spec.size >= WORD ==> RegionBody(data, pos, r.spec.base, r.spec.size) == Fail
    ensures r.spec.size < WORD && |data| == pos + r.spec.size ==>
      RegionBody(data, pos, r.spec.base, r.spec.size) == Got(
        MemMap.Region(MemMap.Spec(r.spec.base, r.spec.size, 0), ToLe(r.spec.perms, WORD)[..r.spec.size]), |data|)
  {
    var perms := ToLe(r.spec.perms, WORD);
    if r.spec.size < WORD && |data| == pos + r.spec.size {
      assert data[pos..pos + r.spec.size] == (perms + (ToLe(0, WORD) + r.data))[..r.spec.size] == perms[..r.spec.size];
    }
  }

  lemma RegionAt(data: seq<byte>, pos: nat, r: MemMap.Region)
    requires Encodable(r) && At(data, pos, EncodeRegion(r))
    ensures Region(data, pos) == Got(r, pos + |EncodeRegion(r)|)
  {
    var body := ToLe(r.spec.perms, WORD) + (ToLe(0, WORD) + r.data);
    AtSplit(data, pos, ToLe(r.spec.base, LONG), ToLe(r.spec.size, LONG) + body);
    AtSplit(data, pos + LONG, ToLe(r.spec.size, LONG), body);
    NumberAt(data, pos, r.spec.base, LONG);
    NumberAt(data, pos + LONG, r.spec.size, LONG);
    BodyAt(data, pos + 2 * LONG, r);
  }

  // The two numbers a region begins with are there, or it is not read.
  lemma RegionCut(data: seq<byte>, pos: nat, r: MemMap.Region)
    requires Encodable(r) && CutAt(data, pos, EncodeRegion(r))
    ensures Spent(Region(data, pos), data)
    ensures r.spec.size >= WORD ==> Region(data, pos) == Fail
    ensures r.spec.size < WORD && |data| == pos + 2 * LONG + r.spec.size ==> Region(data, pos) == Got(Shortened(r), |data|)
  {
    var body := ToLe(r.spec.perms, WORD) + (ToLe(0, WORD) + r.data);
    CutSplit(data, pos, ToLe(r.spec.base, LONG), ToLe(r.spec.size, LONG) + body);
    if CutAt(data, pos, ToLe(r.spec.base, LONG)) {
      NumberCut(data, pos, ToLe(r.spec.base, LONG), LONG);
    } else {
      NumberAt(data, pos, r.spec.base, LONG);
      CutSplit(data, pos + LONG, ToLe(r.spec.size, LONG), body);
      if CutAt(data, pos + LONG, ToLe(r.spec.size, LONG)) {
        NumberCut(data, pos + LONG, ToLe(r.spec.size, LONG), LONG);
      } else {
        NumberAt(data, pos + LONG, r.spec.size, LONG);
        BodyCut(data, pos + 2 * LONG, r);
      }
    }
  }

  // What a region of less than four bytes becomes when its last eight are cut off: its permissions are gone
  // and its contents are what was written of them.
  function Shortened(r: MemMap.Region): MemMap.Region
    requires r.spec.size < WORD
  {
    MemMap.Region(MemMap.Spec(r.spec.base, r.spec.size, 0), ToLe(r.spec.perms, WORD)[..r.spec.size])
  }

  // ---- Lists -------------------------------------------------------------------------------

  // A parser gives x back from its bytes, and when they are cut off gives nothing or leaves too little for
  // another.
  ghost predicate Inverts<T>(p: (seq<byte>, nat) -> Parsed<T>, e: T -> seq<byte>, x: T) {
    forall data, pos: nat ::
      && (At(data, pos, e(x)) ==> p(data, pos) == Got(x, pos + |e(x)|))
      && (CutAt(data, pos, e(x)) ==> Spent(p(data, pos), data))
  }

  // A parser fails when its bytes are cut off.
  ghost predicate Firm<T>(p: (seq<byte>, nat) -> Parsed<T>, e: T -> seq<byte>, x: T) {
    forall data, pos: nat :: CutAt(data, pos, e(x)) ==> p(data, pos) == Fail
  }

  // A parser needs at least a number.
  ghost predicate Hungry<T>(p: (seq<byte>, nat) -> Parsed<T>) {
    forall data, pos: nat :: |data| < pos + LONG ==> p(data, pos) == Fail
  }

  function EncodeMany<T>(e: T -> seq<byte>, xs: seq<T>, n: nat): seq<byte>
    requires n <= |xs|
  {
    if n == 0 then [] else EncodeMany(e, xs, n - 1) + e(xs[n - 1])
  }

  // k items one after the other.
  function Many<T>(p: (seq<byte>, nat) -> Parsed<T>, data: seq<byte>, pos: nat, k: nat): Parsed<seq<T>> {
    if k == 0 then Got([], pos)
    else match Many(p, data, pos, k - 1)
      case Fail => Fail
      case Got(xs, q) => Append(xs, p(data, q))
  }

  function Append<T>(xs: seq<T>, r: Parsed<T>): Parsed<seq<T>> {
    match r case Fail => Fail case Got(x, q) => Got(xs + [x], q)
  }

  lemma {:induction false} ManyAt<T>(p: (seq<byte>, nat) -> Parsed<T>, e: T -> seq<byte>,
                                     data: seq<byte>, pos: nat, xs: seq<T>, k: nat)
    requires k <= |xs| && (forall i :: 0 <= i < |xs| ==> Inverts(p, e, xs[i])) && At(data, pos, EncodeMany(e, xs, k))
    ensures Many(p, data, pos, k) == Got(xs[..k], pos + |EncodeMany(e, xs, k)|)
  {
    if k > 0 {
      AtSplit(data, pos, EncodeMany(e, xs, k - 1), e(xs[k - 1]));
      ManyAt(p, e, data, pos, xs, k - 1);
      ManyOneMore(p, e, data, pos, xs, k);
    }
  }

  lemma ManyOneMore<T>(p: (seq<byte>, nat) -> Parsed<T>, e: T -> seq<byte>, data: seq<byte>, pos: nat, xs: seq<T>, k: nat)
    requires 0 < k <= |xs| && Inverts(p, e, xs[k - 1]) && At(data, pos + |EncodeMany(e, xs, k - 1)|, e(xs[k - 1]))
    requires Many(p, data, pos, k - 1) == Got(xs[..k - 1], pos + |EncodeMany(e, xs, k - 1)|)
    ensures Many(p, data, pos, k) == Got(xs[..k], pos + |EncodeMany(e, xs, k)|)
  {
    var a, x := EncodeMany(e, xs, k - 1), xs[k - 1];
    InvertsAt(p, e, data, pos + |a|, x);
    ManyNext(p, data, pos, k, xs[..k - 1], pos + |a|, x, pos + |a| + |e(x)|);
    Snoc(xs, k);
  }

  lemma InvertsAt<T>(p: (seq<byte>, nat) -> Parsed<T>, e: T -> seq<byte>, data: seq<byte>, pos: nat, x: T)
    requires Inverts(p, e, x)
    ensures At(data, pos, e(x)) ==> p(data, pos) == Got(x, pos + |e(x)|)
    ensures CutAt(data, pos, e(x)) ==> Spent(p(data, pos), data)
  {
  }

  lemma ManyNext<T>(p: (seq<byte>, nat) -> Parsed<T>, data: seq<byte>, pos: nat, k: nat, xs: seq<T>, q: nat, x: T, r: nat)
    requires k > 0 && Many(p, data, pos, k - 1) == Got(xs, q) && p(data, q) == Got(x, r)
    ensures Many(p, data, pos, k) == Got(xs + [x], r)
  {
  }

  lemma Snoc<T>(xs: seq<T>, k: nat)
    requires 0 < k <= |xs|
    ensures xs[..k - 1] + [xs[k - 1]] == xs[..k]
  {
  }

  /** A list cut off anywhere is not read, or leaves too little for another item. */
  lemma {:induction false} ManySpent<T>(p: (seq<byte>, nat) -> Parsed<T>, e: T -> seq<byte>,
                                        data: seq<byte>, pos: nat, xs: seq<T>, k: nat)
    requires k <= |xs| && (forall i :: 0 <= i < |xs| ==> Inverts(p, e, xs[i])) && Hungry(p)
    requires CutAt(data, pos, EncodeMany(e, xs, k))
    ensures Spent(Many(p, data, pos, k), data)
  {
    if k > 0 {
      CutSplit(data, pos, EncodeMany(e, xs, k - 1), e(xs[k - 1]));
      if CutAt(data, pos, EncodeMany(e, xs, k - 1)) {
        ManySpent(p, e, data, pos, xs, k - 1);
      } else {
        ManyAt(p, e, data, pos, xs, k - 1);
        InvertsAt(p, e, data, pos + |EncodeMany(e, xs, k - 1)|, xs[k - 1]);
      }
    }
  }

  /** It is not read at all when its last item fails on being cut off, whatever the items before it do. */
  lemma ManyCut<T>(p: (seq<byte>, nat) -> Parsed<T>, e: T -> seq<byte>, data: seq<byte>, pos: nat, xs: seq<T>, k: nat)
    requires 0 < k <= |xs| && (forall i :: 0 <= i < |xs| ==> Inverts(p, e, xs[i])) && Hungry(p)
    requires Firm(p, e, xs[k - 1]) && CutAt(data, pos, EncodeMany(e, xs, k))
    ensures Many(p, data, pos, k) == Fail
  {
    CutSplit(data, pos, EncodeMany(e, xs, k - 1), e(xs[k - 1]));
    if CutAt(data, pos, EncodeMany(e, xs, k - 1)) {
      ManySpent(p, e, data, pos, xs, k - 1);
      ManyStarves(p, data, pos, k);
    } else {
      ManyAt(p, e, data, pos, xs, k - 1);
      ManyEnds(p, e, data, pos, xs[..k - 1], k, pos + |EncodeMany(e, xs, k - 1)|, xs[k - 1]);
    }
  }

  lemma ManyEnds<T>(p: (seq<byte>, nat) -> Parsed<T>, e: T -> seq<byte>, data: seq<byte>, pos: nat, xs: seq<T>, k: nat,
                    q: nat, x: T)
    requires k > 0 && Many(p, data, pos, k - 1) == Got(xs, q) && Firm(p, e, x) && CutAt(data, q, e(x))
    ensures Many(p, data, pos, k) == Fail
  {
  }

  lemma ManyStarves<T>(p: (seq<byte>, nat) -> Parsed<T>, data: seq<byte>, pos: nat, k: nat)
    requires k > 0 && Hungry(p) && Spent(Many(p, data, pos, k - 1), data)
    ensures Many(p, data, pos, k) == Fail
  {
  }

  function EncodeRegions(rs: seq<MemMap.Region>, n: nat): seq<byte>
    requires n <= |rs|
  {
    EncodeMany(EncodeRegion, rs, n)
  }

  // The first k regions from pos on.
  function Regions(data: seq<byte>, pos: nat, k: nat): Parsed<seq<MemMap.Region>> { Many(Region, data, pos, k) }

  ghost predicate AllEncodable(rs: seq<MemMap.Region>) {
    forall i :: 0 <= i < |rs| ==> Encodable(rs[i])
  }

  lemma RegionsInvert(rs: seq<MemMap.Region>)
    requires AllEncodable(rs)
    ensures forall i :: 0 <= i < |rs| ==> Inverts(Region, EncodeRegion, rs[i])
  {
    forall i | 0 <= i < |rs|
      ensures Inverts(Region, EncodeRegion, rs[i])
    {
      RegionInverts(rs[i]);
    }
  }

  /** One region: given back whole, and from a shorter prefix only with its end too near for another. */
  lemma RegionInverts(r: MemMap.Region)
    requires Encodable(r)
    ensures Inverts(Region, EncodeRegion, r)
  {
    forall data, pos: nat
      ensures At(data, pos, EncodeRegion(r)) ==> Region(data, pos) == Got(r, pos + |EncodeRegion(r)|)
      ensures CutAt(data, pos, EncodeRegion(r)) ==> Spent(Region(data, pos), data)
    {
      if At(data, pos, EncodeRegion(r)) {
        RegionAt(data, pos, r);
      }
      if CutAt(data, pos, EncodeRegion(r)) {
        RegionCut(data, pos, r);
      }
    }
  }

  lemma RegionFirm(r: MemMap.Region)
    requires Encodable(r) && r.spec.size >= WORD
    ensures Firm(Region, EncodeRegion, r)
  {
    forall data, pos: nat | CutAt(data, pos, EncodeRegion(r))
      ensures Region(data, pos) == Fail
    {
      RegionCut(data, pos, r);
    }
  }

  lemma RegionHungry()
    ensures Hungry(Region)
  {
  }

  // ---- The whole context -------------------------------------------------------------------

  datatype Snapshot = Snapshot(mode: nat, cpu: seq<byte>, emu: Option<seq<byte>>, regions: seq<MemMap.Region>)

  // Which byte strings the state decoders take, and the architecture of the engine.
  datatype Codec = Codec(arch: nat, cpuFine: seq<byte> -> bool, emuFine: seq<byte> -> bool)

  const MAGIC: nat := 0x5241_5843
  const VERSION: nat := 1

  function Flags(s: Snapshot): nat { if s.emu.Some? then 1 else 0 }

  function EncodeEmu(s: Snapshot): seq<byte> {
    if s.emu.Some? then EncodeBytes(s.emu.value) else ToLe(0, LONG)
  }

  function EncodeHead(s: Snapshot, arch: nat): seq<byte> {
    ToLe(MAGIC, WORD) + (ToLe(VERSION, WORD) + (ToLe(arch, WORD) + (ToLe(s.mode, WORD) + ToLe(Flags(s), WORD))))
  }

  function EncodeTail(s: Snapshot): seq<byte> {
    EncodeBytes(s.cpu) + (EncodeEmu(s) + (ToLe(|s.regions|, LONG) + EncodeRegions(s.regions, |s.regions|)))
  }

  function Encode(s: Snapshot, arch: nat): seq<byte> { EncodeHead(s, arch) + EncodeTail(s) }

  datatype Failure = BadFormat | BadArch

  datatype Result<+T> = Ok(value: T, pos: nat) | Err(why: Failure)

  // Mode and flags, when magic, version and architecture are right.
  function Head(data: seq<byte>, arch: nat): Result<(nat, nat)> {
    match Number(data, 0, WORD)
    case Fail => Err(BadFormat)
    case Got(magic, p0) =>
      if magic != MAGIC then Err(BadFormat)
      else
        var (version, p1) := NumberOr0(data, p0, WORD);
        if version != VERSION then Err(BadFormat)
        else match Number(data, p1, WORD)
          case Fail => Err(BadArch)
          case Got(a, p2) => HeadRest(data, arch, a, p2)
  }

  function HeadRest(data: seq<byte>, arch: nat, a: nat, pos: nat): Result<(nat, nat)> {
    var (mode, p) := NumberOr0(data, pos, WORD);
    if a != arch then Err(BadArch)
    else match Number(data, p, WORD)
      case Fail => Err(BadFormat)
      case Got(flags, q) => Ok((mode, flags), q)
  }

  function Emu(data: seq<byte>, pos: nat, flags: nat, codec: Codec): Parsed<Option<seq<byte>>> {
    if flags % 2 == 1 then
      match Bytes(data, pos)
      case Fail => Fail
      case Got(b, p) => if codec.emuFine(b) then Got(Some(b), p) else Fail
    else
      match Number(data, pos, LONG) case Fail => Fail case Got(_, p) => Got(None, p)
  }

  function RegionList(data: seq<byte>, pos: nat): Parsed<seq<MemMap.Region>> {
    match Number(data, pos, LONG) case Fail => Fail case Got(n, p) => Regions(data, p, n)
  }

  function Tail(data: seq<byte>, pos: nat, mode: nat, flags: nat, codec: Codec): Parsed<Snapshot> {
    match Bytes(data, pos)
    case Fail => Fail
    case Got(cpu, p) =>
      if !codec.cpuFine(cpu) then Fail
      else match Emu(data, p, flags, codec)
        case Fail => Fail
        case Got(emu, q) =>
          match RegionList(data, q)
          case Fail => Fail
          case Got(rs, end) => if rs == [] then Fail else Got(Snapshot(mode, cpu, emu, rs), end)
  }

  function Decode(data: seq<byte>, codec: Codec): Result<Snapshot> {
    match Head(data, codec.arch)
    case Err(why) => Err(why)
    case Ok(h, p) =>
      match Tail(data, p, h.0, h.1, codec) case Fail => Err(BadFormat) case Got(s, q) => Ok(s, q)
  }

  // What every engine saves: fields that fit, state its own decoders take, and at least one region.
  ghost predicate Savable(s: Snapshot, codec: Codec) {
    && s.mode < Pow256(WORD) && codec.arch < Pow256(WORD) && |s.cpu| < Pow256(LONG) && codec.cpuFine(s.cpu)
    && (s.emu.Some? ==> |s.emu.value| < Pow256(LONG) && codec.emuFine(s.emu.value))
    && s.regions != [] && |s.regions| < Pow256(LONG) && AllEncodable(s.regions)
  }

  // ---- Heads -------------------------------------------------------------------------------

  // The fields of a head, in place.
  lemma HeadParts(data: seq<byte>, s: Snapshot, arch: nat)
    requires At(data, 0, EncodeHead(s, arch))
    ensures At(data, 0, ToLe(MAGIC, WORD)) && At(data, WORD, ToLe(VERSION, WORD)) && At(data, 2 * WORD, ToLe(arch, WORD))
    ensures At(data, 3 * WORD, ToLe(s.mode, WORD)) && At(data, 4 * WORD, ToLe(Flags(s), WORD))
  {
    FiveWords(data, ToLe(MAGIC, WORD), ToLe(VERSION, WORD), ToLe(arch, WORD), ToLe(s.mode, WORD), ToLe(Flags(s), WORD));
  }

  lemma FiveWords(data: seq<byte>, a: seq<byte>, b: seq<byte>, c: seq<byte>, d: seq<byte>, e: seq<byte>)
    requires |a| == WORD && |b| == WORD && |c| == WORD && |d| == WORD && |e| == WORD
    requires At(data, 0, a + (b + (c + (d + e))))
    ensures At(data, 0, a) && At(data, WORD, b) && At(data, 2 * WORD, c) && At(data, 3 * WORD, d) && At(data, 4 * WORD, e)
  {
    AtSplit(data, 0, a, b + (c + (d + e)));
    AtSplit(data, WORD, b, c + (d + e));
    AtSplit(data, 2 * WORD, c, d + e);
    AtSplit(data, 3 * WORD, d, e);
  }

  lemma HeadNumbers(data: seq<byte>, s: Snapshot, codec: Codec)
    requires Savable(s, codec) && At(data, 0, EncodeHead(s, codec.arch))
    ensures Number(data, 0, WORD) == Got(MAGIC, WORD) && Number(data, WORD, WORD) == Got(VERSION, 2 * WORD)
    ensures Number(data, 2 * WORD, WORD) == Got(codec.arch, 3 * WORD)
    ensures Number(data, 3 * WORD, WORD) == Got(s.mode, 4 * WORD) && Number(data, 4 * WORD, WORD) == Got(Flags(s), 5 * WORD)
  {
    HeadParts(data, s, codec.arch);
    WidthBounds();
    NumberAt(data, 0, MAGIC, WORD);
    NumberAt(data, WORD, VERSION, WORD);
    NumberAt(data, 2 * WORD, codec.arch, WORD);
    NumberAt(data, 3 * WORD, s.mode, WORD);
    NumberAt(data, 4 * WORD, Flags(s), WORD);
  }

  lemma HeadAt(data: seq<byte>, s: Snapshot, codec: Codec)
    requires Savable(s, codec) && At(data, 0, EncodeHead(s, codec.arch))
    ensures Head(data, codec.arch) == Ok((s.mode, Flags(s)), 5 * WORD)
  {
    HeadNumbers(data, s, codec);
  }

  // A head of twenty bytes cannot be read from fewer.
  lemma HeadShort(data: seq<byte>, arch: nat)
    requires |data| < 5 * WORD
    ensures Head(data, arch).Err?
  {
  }

  // ---- Tails -------------------------------------------------------------------------------

  lemma EmuAt(data: seq<byte>, pos: nat, s: Snapshot, codec: Codec)
    requires Savable(s, codec) && At(data, pos, EncodeEmu(s))
    ensures Emu(data, pos, Flags(s), codec) == Got(s.emu, pos + |EncodeEmu(s)|)
  {
    if s.emu.Some? {
      BytesAt(data, pos, s.emu.value);
    } else {
      WidthBounds();
      NumberAt(data, pos, 0, LONG);
    }
  }

  lemma EmuCut(data: seq<byte>, pos: nat, s: Snapshot, codec: Codec)
    requires Savable(s, codec) && CutAt(data, pos, EncodeEmu(s))
    ensures Emu(data, pos, Flags(s), codec) == Fail
  {
    if s.emu.Some? {
      BytesCut(data, pos, s.emu.value);
    }
  }

  function EncodeList(rs: seq<MemMap.Region>): seq<byte> { ToLe(|rs|, LONG) + EncodeRegions(rs, |rs|) }

  lemma ListAt(data: seq<byte>, pos: nat, rs: seq<MemMap.Region>)
    requires AllEncodable(rs) && |rs| < Pow256(LONG) && At(data, pos, EncodeList(rs))
    ensures RegionList(data, pos) == Got(rs, pos + |EncodeList(rs)|)
  {
    AtSplit(data, pos, ToLe(|rs|, LONG), EncodeRegions(rs, |rs|));
    NumberAt(data, pos, |rs|, LONG);
    RegionsInvert(rs);
    ManyAt(Region, EncodeRegion, data, pos + LONG, rs, |rs|);
    assert rs[..|rs|] == rs;
  }

  lemma ListCut(data: seq<byte>, pos: nat, rs: seq<MemMap.Region>)
    requires AllEncodable(rs) && 0 < |rs| < Pow256(LONG) && CutAt(data, pos, EncodeList(rs))
    requires rs[|rs| - 1].spec.size >= WORD
    ensures RegionList(data, pos) == Fail
  {
    CutSplit(data, pos, ToLe(|rs|, LONG), EncodeRegions(rs, |rs|));
    if CutAt(data, pos, ToLe(|rs|, LONG)) {
      NumberCut(data, pos, ToLe(|rs|, LONG), LONG);
    } else {
      NumberAt(data, pos, |rs|, LONG);
      RegionsInvert(rs);
      RegionFirm(rs[|rs| - 1]);
      RegionHungry();
      ManyCut(Region, EncodeRegion, data, pos + LONG, rs, |rs|);
    }
  }

  // With its last eight bytes cut off, a list that ends in a region of less than four is read all the same.
  lemma ListShort(data: seq<byte>, pos: nat, rs: seq<MemMap.Region>)
    requires AllEncodable(rs) && 0 < |rs| < Pow256(LONG) && CutAt(data, pos, EncodeList(rs))
    requires rs[|rs| - 1].spec.size < WORD && |data| == pos + |EncodeList(rs)| - 2 * WORD
    ensures RegionList(data, pos) == Got(rs[..|rs| - 1] + [Shortened(rs[|rs| - 1])], |data|)
  {
    var n := |rs| - 1;
    var front, last := EncodeRegions(rs, n), EncodeRegion(rs[n]);
    CutSplit(data, pos, ToLe(|rs|, LONG), EncodeRegions(rs, |rs|));
    NumberAt(data, pos, |rs|, LONG);
    CutSplit(data, pos + LONG, front, last);
    RegionsInvert(rs);
    ManyAt(Region, EncodeRegion, data, pos + LONG, rs, n);
    RegionCut(data, pos + LONG + |front|, rs[n]);
    ManyNext(Region, data, pos + LONG, |rs|, rs[..n], pos + LONG + |front|, Shortened(rs[n]), |data|);
  }

  // The stages of a tail that is read through.
  lemma TailIs(data: seq<byte>, pos: nat, s: Snapshot, flags: nat, codec: Codec, p: nat, q: nat, end: nat)
    requires Bytes(data, pos) == Got(s.cpu, p) && codec.cpuFine(s.cpu) && Emu(data, p, flags, codec) == Got(s.emu, q)
    requires RegionList(data, q) == Got(s.regions, end) && s.regions != []
    ensures Tail(data, pos, s.mode, flags, codec) == Got(s, end)
  {
  }

  // Where the stages of a tail end.
  function CpuEnd(s: Snapshot, pos: nat): nat { pos + |EncodeBytes(s.cpu)| }

  function EmuEnd(s: Snapshot, pos: nat): nat { CpuEnd(s, pos) + |EncodeEmu(s)| }

  function ListEnd(s: Snapshot, pos: nat): nat { EmuEnd(s, pos) + |EncodeList(s.regions)| }

  lemma TailEnd(s: Snapshot, pos: nat)
    ensures EncodeTail(s) == EncodeBytes(s.cpu) + (EncodeEmu(s) + EncodeList(s.regions))
    ensures pos + |EncodeTail(s)| == ListEnd(s, pos)
  {
  }

  lemma CpuStage(data: seq<byte>, pos: nat, s: Snapshot, codec: Codec)
    requires Savable(s, codec) && At(data, pos, EncodeBytes(s.cpu))
    ensures Bytes(data, pos) == Got(s.cpu, CpuEnd(s, pos))
  {
    BytesAt(data, pos, s.cpu);
  }

  lemma EmuStage(data: seq<byte>, pos: nat, s: Snapshot, codec: Codec)
    requires Savable(s, codec) && At(data, CpuEnd(s, pos), EncodeEmu(s))
    ensures Emu(data, CpuEnd(s, pos), Flags(s), codec) == Got(s.emu, EmuEnd(s, pos))
  {
    EmuAt(data, CpuEnd(s, pos), s, codec);
  }

  lemma ListStage(data: seq<byte>, pos: nat, s: Snapshot, codec: Codec)
    requires Savable(s, codec) && At(data, EmuEnd(s, pos), EncodeList(s.regions))
    ensures RegionList(data, EmuEnd(s, pos)) == Got(s.regions, ListEnd(s, pos))
  {
    ListAt(data, EmuEnd(s, pos), s.regions);
  }

  lemma TailAt(data: seq<byte>, pos: nat, s: Snapshot, codec: Codec)
    requires Savable(s, codec) && At(data, pos, EncodeTail(s))
    ensures Tail(data, pos, s.mode, Flags(s), codec) == Got(s, pos + |EncodeTail(s)|)
  {
    TailEnd(s, pos);
    TailParts(data, pos, EncodeBytes(s.cpu), EncodeEmu(s), EncodeList(s.regions));
    CpuStage(data, pos, s, codec);
    EmuStage(data, pos, s, codec);
    ListStage(data, pos, s, codec);
    TailIs(data, pos, s, Flags(s), codec, CpuEnd(s, pos), EmuEnd(s, pos), ListEnd(s, pos));
  }

  lemma TailParts(data: seq<byte>, pos: nat, cpu: seq<byte>, emu: seq<byte>, list: seq<byte>)
    requires At(data, pos, cpu + (emu + list))
    ensures At(data, pos, cpu) && At(data, pos + |cpu|, emu) && At(data, pos + |cpu| + |emu|, list)
  {
    AtSplit(data, pos, cpu, emu + list);
    AtSplit(data, pos + |cpu|, emu, list);
  }

  // The stage at which a tail breaks off.
  lemma TailBreaks(data: seq<byte>, pos: nat, mode: nat, flags: nat, codec: Codec, cpu: seq<byte>, p: nat,
                   emu: Option<seq<byte>>, q: nat)
    requires || Bytes(data, pos) == Fail
             || (Bytes(data, pos) == Got(cpu, p) && Emu(data, p, flags, codec) == Fail)
             || (Bytes(data, pos) == Got(cpu, p) && Emu(data, p, flags, codec) == Got(emu, q) && RegionList(data, q) == Fail)
    ensures Tail(data, pos, mode, flags, codec) == Fail
  {
  }

  // Where the bytes of a tail break off.
  lemma TailCuts(data: seq<byte>, pos: nat, cpu: seq<byte>, emu: seq<byte>, list: seq<byte>)
    requires CutAt(data, pos, cpu + (emu + list))
    ensures || CutAt(data, pos, cpu)
            || (At(data, pos, cpu) && CutAt(data, pos + |cpu|, emu))
            || (At(data, pos, cpu) && At(data, pos + |cpu|, emu) && CutAt(data, pos + |cpu| + |emu|, list))
  {
    CutSplit(data, pos, cpu, emu + list);
    if !CutAt(data, pos, cpu) {
      CutSplit(data, pos + |cpu|, emu, list);
    }
  }

  // The bytes break off in the last part.
  lemma LastCuts(data: seq<byte>, pos: nat, cpu: seq<byte>, emu: seq<byte>, list: seq<byte>)
    requires CutAt(data, pos, cpu + (emu + list)) && |data| >= pos + |cpu| + |emu|
    ensures At(data, pos, cpu) && At(data, pos + |cpu|, emu) && CutAt(data, pos + |cpu| + |emu|, list)
  {
    CutSplit(data, pos, cpu, emu + list);
    CutSplit(data, pos + |cpu|, emu, list);
  }

  lemma FollowedParts(head: seq<byte>, tail: seq<byte>, extra: seq<byte>)
    ensures At(head + tail + extra, 0, head) && At(head + tail + extra, |head|, tail)
  {
    assert At(head + tail + extra, 0, head + tail);
    AtSplit(head + tail + extra, 0, head, tail);
  }

  // A prefix that reaches into the second part.
  lemma PrefixParts(head: seq<byte>, tail: seq<byte>, n: nat)
    requires |head| <= n < |head + tail|
    ensures At((head + tail)[..n], 0, head) && CutAt((head + tail)[..n], |head|, tail)
  {
    var data := (head + tail)[..n];
    assert CutAt(data, 0, head + tail);
    CutSplit(data, 0, head, tail);
  }

  lemma TailCut(data: seq<byte>, pos: nat, s: Snapshot, codec: Codec)
    requires Savable(s, codec) && LastSize(s) >= WORD && CutAt(data, pos, EncodeTail(s))
    ensures Tail(data, pos, s.mode, Flags(s), codec) == Fail
  {
    TailEnd(s, pos);
    TailCuts(data, pos, EncodeBytes(s.cpu), EncodeEmu(s), EncodeList(s.regions));
    if CutAt(data, pos, EncodeBytes(s.cpu)) {
      BytesCut(data, pos, s.cpu);
    } else if CutAt(data, CpuEnd(s, pos), EncodeEmu(s)) {
      EmuCutTail(data, pos, s, codec);
    } else {
      ListCutTail(data, pos, s, codec);
    }
  }

  lemma EmuCutTail(data: seq<byte>, pos: nat, s: Snapshot, codec: Codec)
    requires Savable(s, codec) && At(data, pos, EncodeBytes(s.cpu)) && CutAt(data, CpuEnd(s, pos), EncodeEmu(s))
    ensures Tail(data, pos, s.mode, Flags(s), codec) == Fail
  {
    CpuStage(data, pos, s, codec);
    EmuCut(data, CpuEnd(s, pos), s, codec);
    TailBreaks(data, pos, s.mode, Flags(s), codec, s.cpu, CpuEnd(s, pos), s.emu, EmuEnd(s, pos));
  }

  lemma ListCutTail(data: seq<byte>, pos: nat, s: Snapshot, codec: Codec)
    requires Savable(s, codec) && LastSize(s) >= WORD && At(data, pos, EncodeBytes(s.cpu))
    requires At(data, CpuEnd(s, pos), EncodeEmu(s)) && CutAt(data, EmuEnd(s, pos), EncodeList(s.regions))
    ensures Tail(data, pos, s.mode, Flags(s), codec) == Fail
  {
    CpuStage(data, pos, s, codec);
    EmuStage(data, pos, s, codec);
    ListCut(data, EmuEnd(s, pos), s.regions);
    TailBreaks(data, pos, s.mode, Flags(s), codec, s.cpu, CpuEnd(s, pos), s.emu, EmuEnd(s, pos));
  }

  function LastSize(s: Snapshot): nat
    requires s.regions != []
  {
    s.regions[|s.regions| - 1].spec.size
  }

  // The context with its last region shortened.
  function Clipped(s: Snapshot): Snapshot
    requires s.regions != [] && LastSize(s) < WORD
  {
    s.(regions := s.regions[..|s.regions| - 1] + [Shortened(s.regions[|s.regions| - 1])])
  }

  lemma {:induction false} EncodedLength(rs: seq<MemMap.Region>, k: nat)
    requires 0 < k <= |rs|
    ensures |EncodeRegions(rs, k)| >= 2 * WORD
  {
  }

  lemma TailShort(data: seq<byte>, pos: nat, s: Snapshot, codec: Codec)
    requires Savable(s, codec) && LastSize(s) < WORD && CutAt(data, pos, EncodeTail(s))
    requires |data| == pos + |EncodeTail(s)| - 2 * WORD
    ensures Tail(data, pos, s.mode, Flags(s), codec) == Got(Clipped(s), |data|)
  {
    TailEnd(s, pos);
    EncodedLength(s.regions, |s.regions|);
    LastCuts(data, pos, EncodeBytes(s.cpu), EncodeEmu(s), EncodeList(s.regions));
    TailShortFrom(data, pos, s, codec);
  }

  lemma TailShortFrom(data: seq<byte>, pos: nat, s: Snapshot, codec: Codec)
    requires Savable(s, codec) && LastSize(s) < WORD && |data| == ListEnd(s, pos) - 2 * WORD
    requires At(data, pos, EncodeBytes(s.cpu)) && At(data, CpuEnd(s, pos), EncodeEmu(s))
    requires CutAt(data, EmuEnd(s, pos), EncodeList(s.regions))
    ensures Tail(data, pos, s.mode, Flags(s), codec) == Got(Clipped(s), |data|)
  {
    var c := Clipped(s);
    CpuStage(data, pos, s, codec);
    EmuStage(data, pos, s, codec);
    ListShort(data, EmuEnd(s, pos), s.regions);
    TailIs(data, pos, c, Flags(s), codec, CpuEnd(s, pos), EmuEnd(s, pos), |data|);
  }

  // ---- The theorems ------------------------------------------------------------------------

  /** Whatever follows a saved context is ignored: it is read back all the same, from its own bytes, and those
      are all there are exactly when nothing follows. */
  lemma Trailing(s: Snapshot, codec: Codec, extra: seq<byte>)
    requires Savable(s, codec)
    ensures Decode(Encode(s, codec.arch) + extra, codec) == Ok(s, |Encode(s, codec.arch)|)
    ensures Decode(Encode(s, codec.arch) + extra, codec).pos == |Encode(s, codec.arch) + extra| <==> extra == []
  {
    var data := Encode(s, codec.arch) + extra;
    FollowedParts(EncodeHead(s, codec.arch), EncodeTail(s), extra);
    HeadAt(data, s, codec);
    TailAt(data, 5 * WORD, s, codec);
    DecodeFrom(data, codec, s.mode, Flags(s), s, 5 * WORD, |Encode(s, codec.arch)|);
  }

  /** Reading back a saved context gives it again and uses all of it. */
  lemma RoundTrip(s: Snapshot, codec: Codec)
    requires Savable(s, codec)
    ensures Decode(Encode(s, codec.arch), codec) == Ok(s, |Encode(s, codec.arch)|)
  {
    Trailing(s, codec, []);
    assert Encode(s, codec.arch) + [] == Encode(s, codec.arch);
  }

  /** No shorter prefix of a saved context is read as a context, if its last region holds at least four bytes. */
  lemma Truncated(s: Snapshot, codec: Codec, n: nat)
    requires Savable(s, codec) && LastSize(s) >= WORD && n < |Encode(s, codec.arch)|
    ensures Decode(Encode(s, codec.arch)[..n], codec).Err?
  {
    var data := Encode(s, codec.arch)[..n];
    if n < 5 * WORD {
      HeadShort(data, codec.arch);
    } else {
      PrefixParts(EncodeHead(s, codec.arch), EncodeTail(s), n);
      HeadAt(data, s, codec);
      TailCut(data, 5 * WORD, s, codec);
    }
  }

  lemma DecodeFrom(data: seq<byte>, codec: Codec, mode: nat, flags: nat, c: Snapshot, pos: nat, end: nat)
    requires Head(data, codec.arch) == Ok((mode, flags), pos) && Tail(data, pos, mode, flags, codec) == Got(c, end)
    ensures Decode(data, codec) == Ok(c, end)
  {
  }

  /** If it holds fewer, the context without its last eight bytes is read too, with that region's permissions
      gone and its contents taken from where they were. */
  lemma ShortRead(s: Snapshot, codec: Codec)
    requires Savable(s, codec) && LastSize(s) < WORD
    ensures var n := |Encode(s, codec.arch)| - 2 * WORD;
      0 <= n && Decode(Encode(s, codec.arch)[..n], codec) == Ok(Clipped(s), n)
  {
    var n := |Encode(s, codec.arch)| - 2 * WORD;
    TailLength(s);
    PrefixParts(EncodeHead(s, codec.arch), EncodeTail(s), n);
    var data := Encode(s, codec.arch)[..n];
    HeadAt(data, s, codec);
    TailShort(data, 5 * WORD, s, codec);
    DecodeFrom(data, codec, s.mode, Flags(s), Clipped(s), 5 * WORD, n);
  }

  lemma TailLength(s: Snapshot)
    requires s.regions != []
    ensures |EncodeTail(s)| >= 2 * WORD
  {
    EncodedLength(s.regions, |s.regions|);
  }

  /** So every strict prefix of a saved context is rejected if and only if its last region holds at least four
      bytes, however small the others are. */
  lemma TruncatedExactly(s: Snapshot, codec: Codec)
    requires Savable(s, codec)
    ensures (forall n: nat | n < |Encode(s, codec.arch)| :: Decode(Encode(s, codec.arch)[..n], codec).Err?)
        <==> LastSize(s) >= WORD
  {
    if LastSize(s) >= WORD {
      forall n: nat | n < |Encode(s, codec.arch)|
        ensures Decode(Encode(s, codec.arch)[..n], codec).Err?
      {
        Truncated(s, codec, n);
      }
    } else {
      ShortRead(s, codec);
    }
  }

  // ---- What decoding promises of any bytes -------------------------------------------------

  ghost predicate Filled(r: MemMap.Region) { |r.data| == r.spec.size }

  lemma RegionFilled(data: seq<byte>, pos: nat)
    ensures Region(data, pos).Got? ==> Filled(Region(data, pos).value)
  {
  }

  lemma {:induction false} ManyAll<T>(p: (seq<byte>, nat) -> Parsed<T>, good: T -> bool, data: seq<byte>, pos: nat, k: nat)
    requires forall at :: p(data, at).Got? ==> good(p(data, at).value)
    ensures Many(p, data, pos, k).Got? ==> forall x :: x in Many(p, data, pos, k).value ==> good(x)
  {
    if k > 0 {
      ManyAll(p, good, data, pos, k - 1);
    }
  }

  /** Every region that decodes holds as many bytes as its size says, and there is at least one. */
  lemma DecodedFilled(data: seq<byte>, codec: Codec)
    ensures Decode(data, codec).Ok? ==>
      Decode(data, codec).value.regions != [] && forall r :: r in Decode(data, codec).value.regions ==> Filled(r)
  {
    forall pos: nat, k: nat
      ensures Regions(data, pos, k).Got? ==> forall r :: r in Regions(data, pos, k).value ==> Filled(r)
    {
      forall at
        ensures Region(data, at).Got? ==> Filled(Region(data, at).value)
      {
        RegionFilled(data, at);
      }
      ManyAll(Region, Filled, data, pos, k);
    }
  }
}
