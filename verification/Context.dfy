/**
 Saving and restoring an engine: the writer and reader that move byte by byte, and a restore that
 changes the engine only once everything has been read and rebuilt.
 */
module Context {
  import opened Common
  import opened Dma
  import MemMap
  import opened ContextCodec

  // ---- Writer and reader -------------------------------------------------------------------

  class Writer {
    var buf: seq<byte>

    constructor ()
      ensures buf == []
    {
      buf := [];
    }

    // A little-endian number of n bytes.
    method Number(v: nat, n: nat)
      modifies this
      ensures buf == old(buf) + ToLe(v, n)
    {
      buf := buf + ToLe(v, n);
    }

    method Bytes(b: seq<byte>)
      modifies this
      ensures buf == old(buf) + b
    {
      buf := buf + b;
    }
  }

  class Reader {
    const buf: seq<byte>
    var pos: nat

    constructor (data: seq<byte>)
      ensures buf == data && pos == 0
    {
      buf, pos := data, 0;
    }

    // The next n bytes; a failure does not move.
    method Take(n: nat) returns (r: Option<seq<byte>>)
      modifies this
      ensures match ContextCodec.Take(buf, old(pos), n)
              case Fail => r == None && pos == old(pos)
              case Got(b, p) => r == Some(b) && pos == p
    {
      if pos + n > |buf| {
        return None;
      }
      r := Some(buf[pos..pos + n]);
      pos := pos + n;
    }

    method Number(n: nat) returns (r: Option<nat>)
      modifies this
      ensures match ContextCodec.Number(buf, old(pos), n)
              case Fail => r == None && pos == old(pos)
              case Got(v, p) => r == Some(v) && pos == p
    {
      var b := Take(n);
      r := if b.Some? then Some(Le(b.value)) else None;
    }

    method NumberOr0(n: nat) returns (v: nat)
      modifies this
      ensures (v, pos) == ContextCodec.NumberOr0(buf, old(pos), n)
    {
      var r := Number(n);
      v := if r.Some? then r.value else 0;
    }

    method Region() returns (r: Option<MemMap.Region>)
      modifies this
      ensures match ContextCodec.Region(buf, old(pos)) case Fail => r == None case Got(x, p) => r == Some(x) && pos == p
    {
      var base := Number(LONG);
      if base == None {
        return None;
      }
      var size := Number(LONG);
      if size == None {
        return None;
      }
      var perms := NumberOr0(WORD);
      var pad := NumberOr0(WORD);
      var b := Take(size.value);
      if b == None {
        return None;
      }
      r := Some(MemMap.Region(MemMap.Spec(base.value, size.value, perms % 0x1_0000_0000), b.value));
    }

    method Regions(n: nat) returns (r: Option<seq<MemMap.Region>>)
      modifies this
      ensures match ContextCodec.Regions(buf, old(pos), n) case Fail => r == None case Got(x, p) => r == Some(x) && pos == p
    {
      var rs, start := [], pos;
      for i := 0 to n
        invariant ContextCodec.Regions(buf, start, i) == Got(rs, pos)
      {
        var one := Region();
        if one == None {
          RegionsStuck(buf, start, i + 1, n);
          return None;
        }
        rs := rs + [one.value];
      }
      r := Some(rs);
    }
  }

  lemma {:induction false} RegionsStuck(data: seq<byte>, pos: nat, i: nat, n: nat)
    requires i <= n && ContextCodec.Regions(data, pos, i) == Fail
    ensures ContextCodec.Regions(data, pos, n) == Fail
  {
    if i < n {
      RegionsStuck(data, pos, i, n - 1);
    }
  }

  // ---- Rebuilding the regions --------------------------------------------------------------

  function RegionBase(r: MemMap.Region): int { r.spec.base }

  // Sorted by base, stably.
  function SortRegions(rs: seq<MemMap.Region>): seq<MemMap.Region> { SortBy(RegionBase, rs) }

  ghost predicate Apart(rs: seq<MemMap.Region>) {
    forall i, j :: 0 <= i < j < |rs| ==> rs[i].spec.End() <= rs[j].spec.base
  }

  lemma SortRegionsSame(rs: seq<MemMap.Region>)
    requires Apart(rs)
    ensures SortRegions(rs) == rs
  {
    SortSame(RegionBase, rs);
  }

  // Whether sorted regions can be one memory: each ends before the next begins.
  method Assembles(rs: seq<MemMap.Region>) returns (ok: bool)
    ensures ok <==> Apart(rs)
  {
    if rs == [] {
      return true;
    }
    for i := 1 to |rs|
      invariant Apart(rs[..i])
    {
      if rs[i - 1].spec.End() > rs[i].spec.base {
        return false;
      }
      ApartNext(rs, i);
    }
    assert rs[..|rs|] == rs;
    return true;
  }

  lemma ApartNext(rs: seq<MemMap.Region>, i: nat)
    requires 0 < i < |rs| && Apart(rs[..i]) && rs[i - 1].spec.End() <= rs[i].spec.base
    ensures Apart(rs[..i + 1])
  {
    forall a, b | 0 <= a < b < i + 1
      ensures rs[a].spec.End() <= rs[b].spec.base
    {
      if b < i {
        assert rs[..i][a].spec.End() <= rs[..i][b].spec.base;
      } else if a < i - 1 {
        assert rs[..i][a].spec.End() <= rs[..i][i - 1].spec.base;
      }
    }
  }

  // ---- The engine --------------------------------------------------------------------------

  datatype Status = Fine | Format | Arch | NoMem | Map | Fault

  // What the host answers: allocations, and a vCPU that takes the saved state.
  datatype Host = Host(alloc: bool, vcpu: bool)

  class Machine {
    const arch: nat
    var mode: nat
    var cpu: seq<byte>
    var emu: Option<seq<byte>>
    var regions: seq<MemMap.Region>

    function View(): Snapshot
      reads this
    {
      Snapshot(mode, cpu, emu, regions)
    }

    method WriteHead(w: Writer)
      modifies w
      ensures w.buf == old(w.buf) + EncodeHead(View(), arch)
    {
      w.Number(MAGIC, WORD);
      w.Number(VERSION, WORD);
      w.Number(arch, WORD);
      w.Number(mode, WORD);
      w.Number(if emu.Some? then 1 else 0, WORD);
      Five(old(w.buf), ToLe(MAGIC, WORD), ToLe(VERSION, WORD), ToLe(arch, WORD), ToLe(mode, WORD), ToLe(Flags(View()), WORD));
    }

    method WriteState(w: Writer)
      modifies w
      ensures w.buf == old(w.buf) + (EncodeBytes(cpu) + EncodeEmu(View()))
    {
      WriteBytes(w, cpu);
      if emu.Some? {
        WriteBytes(w, emu.value);
      } else {
        w.Number(0, LONG);
      }
      Two(old(w.buf), EncodeBytes(cpu), EncodeEmu(View()));
    }

    method WriteBytes(w: Writer, b: seq<byte>)
      modifies w
      ensures w.buf == old(w.buf) + EncodeBytes(b)
    {
      w.Number(|b|, LONG);
      w.Bytes(b);
      Two(old(w.buf), ToLe(|b|, LONG), b);
    }

    method WriteRegion(w: Writer, r: MemMap.Region)
      modifies w
      ensures w.buf == old(w.buf) + EncodeRegion(r)
    {
      w.Number(r.spec.base, LONG);
      w.Number(r.spec.size, LONG);
      w.Number(r.spec.perms, WORD);
      w.Number(0, WORD);
      w.Bytes(r.data);
      Five(old(w.buf), ToLe(r.spec.base, LONG), ToLe(r.spec.size, LONG), ToLe(r.spec.perms, WORD), ToLe(0, WORD), r.data);
    }

    method WriteRegions(w: Writer)
      modifies w
      ensures w.buf == old(w.buf) + EncodeList(regions)
    {
      w.Number(|regions|, LONG);
      ghost var before := w.buf;
      for i := 0 to |regions|
        invariant w.buf == before + EncodeRegions(regions, i)
      {
        WriteRegion(w, regions[i]);
        Two(before, EncodeRegions(regions, i), EncodeRegion(regions[i]));
      }
      Two(old(w.buf), ToLe(|regions|, LONG), EncodeRegions(regions, |regions|));
    }

    // The context as bytes.
    method Serialize() returns (blob: seq<byte>)
      ensures blob == Encode(View(), arch)
    {
      var w := new Writer();
      WriteHead(w);
      WriteState(w);
      WriteRegions(w);
      blob := w.buf;
      Joined(EncodeHead(View(), arch), EncodeBytes(cpu), EncodeEmu(View()), EncodeList(regions));
    }

    method ReadHead(r: Reader) returns (st: Status, mode_: nat, flags: nat)
      requires r.pos == 0
      modifies r
      ensures match Head(r.buf, arch)
              case Err(BadFormat) => st == Format
              case Err(BadArch) => st == Arch
              case Ok(h, p) => st == Fine && (mode_, flags) == h && r.pos == p
    {
      mode_, flags := 0, 0;
      var magic := r.Number(WORD);
      if magic == None || magic.value != MAGIC {
        return Format, mode_, flags;
      }
      var version := r.NumberOr0(WORD);
      if version != VERSION {
        return Format, mode_, flags;
      }
      var a := r.Number(WORD);
      mode_ := r.NumberOr0(WORD);
      if a != Some(arch) {
        return Arch, mode_, flags;
      }
      var f := r.Number(WORD);
      if f == None {
        return Format, mode_, flags;
      }
      st, flags := Fine, f.value;
    }

    method ReadBytes(r: Reader) returns (b: Option<seq<byte>>)
      modifies r
      ensures match Bytes(r.buf, old(r.pos)) case Fail => b == None case Got(x, p) => b == Some(x) && r.pos == p
    {
      var n := r.Number(LONG);
      if n == None {
        return None;
      }
      b := r.Take(n.value);
    }

    // The extended state: its length is read even when the flag says there is none.
    method ReadEmu(r: Reader, flags: nat, codec: Codec) returns (ok: bool, e: Option<seq<byte>>)
      modifies r
      ensures match Emu(r.buf, old(r.pos), flags, codec) case Fail => !ok case Got(x, p) => ok && e == x && r.pos == p
    {
      e := None;
      if flags % 2 == 1 {
        var b := ReadBytes(r);
        if b == None || !codec.emuFine(b.value) {
          return false, e;
        }
        return true, Some(b.value);
      }
      var n := r.Number(LONG);
      ok := n.Some?;
    }

    method ReadTail(r: Reader, mode_: nat, flags: nat, codec: Codec) returns (s: Option<Snapshot>)
      modifies r
      ensures match Tail(r.buf, old(r.pos), mode_, flags, codec) case Fail => s == None case Got(x, p) => s == Some(x)
    {
      var c := ReadBytes(r);
      if c == None || !codec.cpuFine(c.value) {
        return None;
      }
      var ok, e := ReadEmu(r, flags, codec);
      if !ok {
        return None;
      }
      var n := r.Number(LONG);
      if n == None {
        return None;
      }
      var rs := r.Regions(n.value);
      if rs == None || rs.value == [] {
        return None;
      }
      s := Some(Snapshot(mode_, c.value, e, rs.value));
    }

    /** Restore: the engine takes the decoded context, its regions sorted, exactly when the bytes decode, every
        region is non-empty and ends inside the address space, the host allocates, the regions do not overlap
        and the vCPU takes the state; in every other case nothing of the engine changes.  The map installed
        is in order and filled; it is aligned, or plain in its permissions, only if every region decoded is. */
    method Deserialize(data: seq<byte>, codec: Codec, host: Host) returns (st: Status)
      requires codec.arch == arch
      modifies this
      ensures st != Fine ==> View() == old(View())
      ensures st == Fine <==> Decode(data, codec).Ok? && Rebuilds(Decode(data, codec).value.regions, host)
      ensures st == Fine ==>
        View() == Decode(data, codec).value.(regions := SortRegions(Decode(data, codec).value.regions))
      ensures Decode(data, codec).Err? ==> st == (if Decode(data, codec).why == BadArch then Arch else Format)
      ensures st == Fine ==> MemMap.Solid(regions) && regions != []
      ensures st == Fine ==> (MemMap.ValidMap(regions) <==> AllPaged(Decode(data, codec).value.regions))
      ensures st == Fine ==> (AllPlain(regions) <==> AllPlain(Decode(data, codec).value.regions))
    {
      var r := new Reader(data);
      var mode_, flags;
      st, mode_, flags := ReadHead(r);
      if st != Fine {
        return;
      }
      var s := ReadTail(r, mode_, flags, codec);
      if s == None {
        return Format;
      }
      var sized := AllAllocate(s.value.regions);
      if !host.alloc || !sized {
        return NoMem;
      }
      var sorted := SortRegions(s.value.regions);
      var fits := Assembles(sorted);
      if !fits {
        return Map;
      }
      if !host.vcpu {
        return Fault;
      }
      DecodedFilled(data, codec);
      Restored(s.value.regions, host);
      mode, cpu, emu, regions := s.value.mode, s.value.cpu, s.value.emu, sorted;
      st := Fine;
    }
  }

  // No backing is made for an empty region or one whose end leaves the address space.
  method AllAllocate(rs: seq<MemMap.Region>) returns (ok: bool)
    ensures ok <==> Allocatable(rs)
  {
    for i := 0 to |rs|
      invariant Allocatable(rs[..i])
    {
      if rs[i].spec.size == 0 || rs[i].spec.End() >= TWO64 {
        return false;
      }
    }
    assert rs[..|rs|] == rs;
    return true;
  }

  ghost predicate Allocatable(rs: seq<MemMap.Region>) {
    forall i :: 0 <= i < |rs| ==> rs[i].spec.size > 0 && rs[i].spec.End() < TWO64
  }

  ghost predicate Rebuilds(rs: seq<MemMap.Region>, host: Host) {
    host.alloc && Allocatable(rs) && Apart(SortRegions(rs)) && host.vcpu
  }

  ghost predicate AllPaged(rs: seq<MemMap.Region>) {
    forall r :: r in rs ==> r.spec.base % MemMap.PAGE == 0 && r.spec.size % MemMap.PAGE == 0
  }

  ghost predicate AllPlain(rs: seq<MemMap.Region>) {
    forall r :: r in rs ==> MemMap.Masked(r.spec.perms) == r.spec.perms
  }

  lemma RestoredSolid(rs: seq<MemMap.Region>, sorted: seq<MemMap.Region>)
    requires sorted == SortRegions(rs) && Allocatable(rs) && Apart(sorted) && forall r :: r in rs ==> Filled(r)
    ensures MemMap.Solid(sorted)
  {
    forall i | 0 <= i < |sorted|
      ensures |sorted[i].data| == sorted[i].spec.size > 0 && sorted[i].spec.End() < TWO64
    {
      SortMembers(RegionBase, rs, sorted[i]);
    }
    assert forall i :: 0 <= i < |sorted| ==> MemMap.Specs(sorted)[i] == sorted[i].spec;
  }

  lemma PagedIs(sorted: seq<MemMap.Region>)
    ensures MemMap.Paged(MemMap.Specs(sorted)) <==> AllPaged(sorted)
  {
    assert forall i :: 0 <= i < |sorted| ==> MemMap.Specs(sorted)[i] == sorted[i].spec;
    if MemMap.Paged(MemMap.Specs(sorted)) {
      forall r | r in sorted
        ensures r.spec.base % MemMap.PAGE == 0 && r.spec.size % MemMap.PAGE == 0
      {
        var i :| 0 <= i < |sorted| && sorted[i] == r;
        assert MemMap.Specs(sorted)[i] == r.spec;
      }
    }
  }

  /** The map a restore installs: in order and filled, and aligned or plain exactly when every region was. */
  lemma Restored(rs: seq<MemMap.Region>, host: Host)
    requires Rebuilds(rs, host) && rs != [] && forall r :: r in rs ==> Filled(r)
    ensures MemMap.Solid(SortRegions(rs)) && SortRegions(rs) != []
    ensures MemMap.ValidMap(SortRegions(rs)) <==> AllPaged(rs)
    ensures AllPlain(SortRegions(rs)) <==> AllPlain(rs)
  {
    var sorted := SortRegions(rs);
    forall r
      ensures r in sorted <==> r in rs
    {
      SortMembers(RegionBase, rs, r);
    }
    assert rs[0] in sorted;
    RestoredSolid(rs, sorted);
    MemMap.ValidIsSolid(sorted);
    PagedIs(sorted);
  }

  // One region of eight bytes at address 8, with permissions 15.
  function Stray(): Snapshot {
    Snapshot(0, [], None, [MemMap.Region(MemMap.Spec(8, 8, 15), seq(8, _ => 0))])
  }

  /** A blob that restores to a map neither aligned nor plain. */
  method RestoresStray(m: Machine, codec: Codec) returns (st: Status)
    requires codec.arch == m.arch < Pow256(WORD) && codec.cpuFine([])
    modifies m
    ensures st == Fine && !MemMap.ValidMap(m.regions) && !AllPlain(m.regions)
  {
    var s := Stray();
    WidthBounds();
    assert Savable(s, codec);
    RoundTrip(s, codec);
    SortRegionsSame(s.regions);
    assert s.regions[0] in s.regions;
    st := m.Deserialize(Encode(s, codec.arch), codec, Host(true, true));
  }

  // One region of three bytes at address 0, with permissions 7.
  function Tiny(): Snapshot {
    Snapshot(0, [], None, [MemMap.Region(MemMap.Spec(0, 3, 7), [11, 22, 33])])
  }

  /** A blob of 71 bytes of which the first 63 restore as well: the three bytes come out as 7, 0, 0, which were
      permissions, and there are no permissions left. */
  method RestoresTruncated(m: Machine, codec: Codec) returns (st: Status)
    requires codec.arch == m.arch < Pow256(WORD) && codec.cpuFine([])
    modifies m
    ensures |Encode(Tiny(), codec.arch)| == 71
    ensures st == Fine && m.regions == [MemMap.Region(MemMap.Spec(0, 3, 0), [7, 0, 0])]
  {
    var s := Tiny();
    WidthBounds();
    assert Savable(s, codec);
    ShortRead(s, codec);
    TinyClipped(codec.arch);
    SortRegionsSame(Clipped(s).regions);
    st := m.Deserialize(Encode(s, codec.arch)[..63], codec, Host(true, true));
  }

  lemma TinyClipped(arch: nat)
    ensures |Encode(Tiny(), arch)| == 71
    ensures Clipped(Tiny()).regions == [MemMap.Region(MemMap.Spec(0, 3, 0), [7, 0, 0])]
  {
    var s, r := Tiny(), Tiny().regions[0];
    assert |EncodeRegion(r)| == 27;
    assert EncodeRegions(s.regions, 0) == [] && |EncodeRegions(s.regions, 1)| == 27;
    assert |EncodeTail(s)| == 51 && |EncodeHead(s, arch)| == 20;
    WordOf(7);
    assert ToLe(7, WORD)[..3] == [7, 0, 0];
    assert Clipped(s).regions == [] + [Shortened(r)];
  }

  /** What an engine saves it restores, unchanged in mode, state, regions, permissions and contents, on any
      host that lets it. */
  lemma SavedIsRestored(s: Snapshot, codec: Codec, host: Host)
    requires Savable(s, codec) && MemMap.Solid(s.regions) && host.alloc && host.vcpu
    ensures Decode(Encode(s, codec.arch), codec) == Ok(s, |Encode(s, codec.arch)|)
    ensures Rebuilds(s.regions, host) && SortRegions(s.regions) == s.regions
  {
    RoundTrip(s, codec);
    forall i, j | 0 <= i < j < |s.regions|
      ensures s.regions[i].spec.End() <= s.regions[j].spec.base
    {
      assert MemMap.Specs(s.regions)[i].End() <= MemMap.Specs(s.regions)[j].base;
    }
    forall i | 0 <= i < |s.regions|
      ensures s.regions[i].spec.size > 0 && s.regions[i].spec.End() < TWO64
    {
      assert MemMap.Specs(s.regions)[i] == s.regions[i].spec;
    }
    SortRegionsSame(s.regions);
  }

  /** The regions of any map can be saved, and those of an aligned one are long enough for every strict prefix of
      the blob to be rejected. */
  lemma MapIsEncodable(rs: seq<MemMap.Region>)
    requires MemMap.Solid(rs)
    ensures AllEncodable(rs)
    ensures MemMap.ValidMap(rs) ==> forall i :: 0 <= i < |rs| ==> rs[i].spec.size >= WORD
  {
    WidthBounds();
    forall i | 0 <= i < |rs|
      ensures Encodable(rs[i]) && (MemMap.ValidMap(rs) ==> rs[i].spec.size >= WORD)
    {
      assert MemMap.Specs(rs)[i] == rs[i].spec;
      if MemMap.ValidMap(rs) {
        assert MemMap.Specs(rs)[i].Aligned();
      }
    }
  }

  lemma Two(x: seq<byte>, a: seq<byte>, b: seq<byte>)
    ensures (x + a) + b == x + (a + b)
  {
  }

  lemma Five(x: seq<byte>, a: seq<byte>, b: seq<byte>, c: seq<byte>, d: seq<byte>, e: seq<byte>)
    ensures ((((x + a) + b) + c) + d) + e == x + (a + (b + (c + (d + e))))
  {
    Two(x + a + b + c, d, e);
    Two(x + a + b, c, d + e);
    Two(x + a, b, c + (d + e));
    Two(x, a, b + (c + (d + e)));
  }

  lemma Joined(a: seq<byte>, b: seq<byte>, c: seq<byte>, d: seq<byte>)
    ensures (([] + a) + (b + c)) + d == a + (b + (c + d))
  {
  }
}
