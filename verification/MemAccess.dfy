/**
 Host access to guest memory: physical reads and writes over the region list, and virtual access
 that translates page by page.  A read is proved equal to translating and accessing one byte at a time;
 a write, which may reach the page tables it goes through, exactly when it moves no byte of its own.
 */
module MemAccess {
  import opened Common
  import Dma
  import opened MemMap

  // ---- Physical access ---------------------------------------------------------------------

  // A flat memory after a contiguous store; permissions stay.
  ghost function Stored(v: Flat, addr: int, buf: seq<Dma.byte>): Flat {
    map a | a in v :: if In(a, addr, |buf|) then Cell(buf[a - addr], v[a].perms) else v[a]
  }

  ghost function PatchedRegion(r: Region, addr: nat, buf: seq<Dma.byte>): Region {
    Region(r.spec, seq(|r.data|, k requires 0 <= k < |r.data| =>
      if In(r.spec.base + k, addr, |buf|) then buf[r.spec.base + k - addr] else r.data[k]))
  }

  ghost function Patched(rs: seq<Region>, addr: nat, buf: seq<Dma.byte>): seq<Region> {
    seq(|rs|, i requires 0 <= i < |rs| => PatchedRegion(rs[i], addr, buf))
  }

  lemma {:induction false} LookupPatched(rs: seq<Region>, addr: nat, buf: seq<Dma.byte>, a: int)
    requires Backed(rs)
    ensures Backed(Patched(rs, addr, buf))
    ensures Lookup(Patched(rs, addr, buf), a)
         == match Lookup(rs, a)
            case None => None
            case Some(c) => Some(if In(a, addr, |buf|) then Cell(buf[a - addr], c.perms) else c)
  {
    if rs != [] {
      var n := |rs| - 1;
      assert Patched(rs, addr, buf)[..n] == Patched(rs[..n], addr, buf);
      LookupPatched(rs[..n], addr, buf, a);
    }
  }

  lemma PatchedView(rs: seq<Region>, addr: nat, buf: seq<Dma.byte>)
    requires Solid(rs)
    ensures Specs(Patched(rs, addr, buf)) == Specs(rs)
    ensures Solid(Patched(rs, addr, buf)) && View(Patched(rs, addr, buf)) == Stored(View(rs), addr, buf)
  {
    assert Specs(Patched(rs, addr, buf)) == Specs(rs);
    forall a
      ensures Lookup(Patched(rs, addr, buf), a)
           == match Lookup(rs, a)
              case None => None
              case Some(c) => Some(if In(a, addr, |buf|) then Cell(buf[a - addr], c.perms) else c)
    {
      LookupPatched(rs, addr, buf, a);
    }
  }

  ghost function ByteIn(v: Flat, a: int): Dma.byte { if a in v then v[a].byte else 0 }

  ghost function Loaded(v: Flat, addr: int, len: nat): seq<Dma.byte> {
    seq<Dma.byte>(len, k => ByteIn(v, addr + k))
  }

  lemma OverlaidBytes(rs: seq<Region>, s: Spec)
    requires Solid(rs)
    ensures BuiltRegion(s, rs).data == Loaded(View(rs), s.base, s.size)
  {
    var data, want := BuiltRegion(s, rs).data, Loaded(View(rs), s.base, s.size);
    forall k | 0 <= k < s.size
      ensures data[k] == want[k]
    {
      ViewAt(rs, s.base + k);
      assert data[k] == ByteOrZero(rs, s.base + k);
      assert want[k] == ByteIn(View(rs), s.base + k);
    }
  }

  /** Read a mapped range, byte for byte, whatever its permissions and however many regions it spans. */
  method PhysRead(e: Engine, addr: u64, len: u64) returns (st: Status, buf: seq<Dma.byte>)
    requires e.Usable()
    ensures st == if AllIn(View(e.regions), addr, len) then Ok else Map
    ensures st == Ok ==> buf == Loaded(View(e.regions), addr, len)
  {
    if len == 0 {
      return Ok, [];
    }
    CoveredIsAllIn(e.regions, addr, len);
    SolidIsOrdered(e.regions);
    var mapped := e.RangeMapped(addr, len);
    if !mapped {
      return Map, [];
    }
    var s := Spec(addr, len, 0);
    buf := e.Overlay(s);
    OverlaidBytes(e.regions, s);
    st := Ok;
  }

  // The stretch of one region that the buffer covers is overwritten in place.
  method PatchRegion(r: Region, addr: u64, buf: seq<Dma.byte>) returns (out: Region)
    requires |r.data| == r.spec.size
    ensures out == PatchedRegion(r, addr, buf)
  {
    out := r;
    var base, lo := r.spec.base, Max(r.spec.base, addr);
    var hi := Min(r.spec.End(), addr + |buf|);
    ghost var want := PatchedRegion(r, addr, buf).data;
    if lo < hi {
      out := Region(r.spec, r.data[..lo - base] + buf[lo - addr..hi - addr] + r.data[hi - base..]);
    }
    forall k | 0 <= k < |r.data|
      ensures out.data[k] == want[k]
    {
      assert want[k] == if In(base + k, addr, |buf|) then buf[base + k - addr] else r.data[k];
    }
  }

  /** Write a mapped range: exactly its bytes change; an unmapped range is refused with no change. */
  method PhysWrite(e: Engine, addr: u64, buf: seq<Dma.byte>) returns (st: Status)
    requires e.Usable() && |buf| < TWO64
    modifies e
    ensures e.Usable() && Specs(e.regions) == old(Specs(e.regions))
    ensures st == if AllIn(old(View(e.regions)), addr, |buf|) then Ok else Map
    ensures View(e.regions) == if st == Ok then Stored(old(View(e.regions)), addr, buf) else old(View(e.regions))
  {
    if buf == [] {
      assert View(e.regions) == Stored(View(e.regions), addr, buf);
      return Ok;
    }
    CoveredIsAllIn(e.regions, addr, |buf|);
    SolidIsOrdered(e.regions);
    var mapped := e.RangeMapped(addr, |buf|);
    if !mapped {
      return Map;
    }
    PatchedView(e.regions, addr, buf);
    ghost var want := Patched(e.regions, addr, buf);
    var rs := e.regions;
    for i := 0 to |rs|
      invariant |rs| == |want| == |e.regions| && rs[i..] == e.regions[i..] && rs[..i] == want[..i]
      invariant e.regions == old(e.regions)
    {
      assert rs[i] == rs[i..][0] == e.regions[i];
      var r := PatchRegion(rs[i], addr, buf);
      rs := rs[i := r];
    }
    assert rs == want;
    e.regions := rs;
    st := Ok;
  }

  // ---- Virtual access ----------------------------------------------------------------------

  // Where a virtual address lies, if anywhere.
  type Translation = int -> Option<u64>

  predicate Shifted(tr: Translation, x: int, y: int) {
    match tr(x) case None => tr(y).None? case Some(p) => tr(y).Some? && tr(y).value == p + (y - x)
  }

  // A page translates as a whole, keeping offsets.
  ghost predicate PagePreserving(tr: Translation) {
    forall x, y :: x / PAGE == y / PAGE ==> Shifted(tr, x, y)
  }

  // A stretch of addresses that translates to the stretch at pa.
  ghost predicate Straight(tr: Translation, va: int, c: int, pa: int) {
    forall x :: va <= x < va + c ==> tr(x).Some? && tr(x).value == pa + (x - va)
  }

  lemma PageIsStraight(tr: Translation, va: int, c: int)
    requires PagePreserving(tr) && va % PAGE + c <= PAGE && tr(va).Some?
    ensures Straight(tr, va, c, tr(va).value)
  {
    forall x | va <= x < va + c
      ensures tr(x).Some? && tr(x).value == tr(va).value + (x - va)
    {
      assert x / PAGE == va / PAGE;
      assert Shifted(tr, va, x);
    }
  }

  // A translation that itself lies in memory: what the page tables make of an address.
  type Walk = Flat -> Translation

  ghost predicate PagesPreserved(tr: Walk) { forall w :: PagePreserving(tr(w)) }

  datatype Outcome<+T> = Done(value: T) | Failed(status: Status)

  // The physical place of one virtual byte, or how its access fails.
  ghost function Place(v: Flat, tr: Translation, va: int): Outcome<int> {
    if va >= TWO64 then Failed(Bounds)
    else match tr(va)
      case None => Failed(Fault)
      case Some(pa) => if pa in v then Done(pa) else Failed(Map)
  }

  ghost function PutByte(v: Flat, pa: int, b: Dma.byte): Flat
    requires pa in v
  {
    v[pa := Cell(b, v[pa].perms)]
  }

  // n steps in order, up to the first that fails.
  ghost function Fold<S>(step: (S, int) -> Outcome<S>, s: S, n: nat): Outcome<S> {
    if n == 0 then Done(s)
    else match Fold(step, s, n - 1)
      case Failed(st) => Failed(st)
      case Done(t) => step(t, n - 1)
  }

  lemma {:induction false} FoldRun<S>(step: (S, int) -> Outcome<S>, s: S, n: nat, c: nat, x: int -> S)
    requires Fold(step, s, n) == Done(x(0))
    requires forall k :: 0 <= k < c ==> step(x(k), n + k) == Done(x(k + 1))
    ensures Fold(step, s, n + c) == Done(x(c))
    decreases c
  {
    if c > 0 {
      FoldRun(step, s, n, c - 1, x);
      assert step(x(c - 1), n + (c - 1)) == Done(x(c - 1 + 1));
    }
  }

  lemma {:induction false} FoldStuck<S>(step: (S, int) -> Outcome<S>, s: S, n: nat, t: S, m: nat, st: Status)
    requires n < m && Fold(step, s, n) == Done(t) && step(t, n) == Failed(st)
    ensures Fold(step, s, m) == Failed(st)
  {
    if n + 1 < m {
      FoldStuck(step, s, n, t, m - 1, st);
    }
  }

  // Byte k of the buffer, translated in the memory that the bytes before it have left and written by itself.
  ghost function PutStep(tr: Walk, va: int, buf: seq<Dma.byte>, w: Flat, k: int): Outcome<Flat> {
    match Place(w, tr(w), va + k)
    case Failed(st) => Failed(st)
    case Done(pa) => Done(PutByte(w, pa, if 0 <= k < |buf| then buf[k] else 0))
  }

  ghost function Putter(tr: Walk, va: int, buf: seq<Dma.byte>): (Flat, int) -> Outcome<Flat> {
    (w, k) => PutStep(tr, va, buf, w, k)
  }

  // The whole buffer, one byte at a time, in order.
  ghost function WriteBytes(v: Flat, tr: Walk, va: int, buf: seq<Dma.byte>, n: nat): Outcome<Flat> {
    Fold(Putter(tr, va, buf), v, n)
  }

  ghost function GetStep(v: Flat, tr: Translation, va: int, buf: seq<Dma.byte>, k: int): Outcome<seq<Dma.byte>> {
    match Place(v, tr, va + k)
    case Failed(st) => Failed(st)
    case Done(pa) => Done(buf + [ByteIn(v, pa)])
  }

  ghost function Getter(v: Flat, tr: Translation, va: int): (seq<Dma.byte>, int) -> Outcome<seq<Dma.byte>> {
    (buf, k) => GetStep(v, tr, va, buf, k)
  }

  ghost function ReadBytes(v: Flat, tr: Translation, va: int, n: nat): Outcome<seq<Dma.byte>> {
    Fold(Getter(v, tr, va), [], n)
  }

  lemma StoredNext(w: Flat, pa: int, buf: seq<Dma.byte>, n: nat, c: nat)
    requires n + c < |buf| && pa + c in w
    ensures PutByte(Stored(w, pa, buf[n..n + c]), pa + c, buf[n + c]) == Stored(w, pa, buf[n..n + c + 1])
  {
  }

  lemma StoredNone(w: Flat, pa: int)
    ensures Stored(w, pa, []) == w
  {
  }

  // ---- Where the bytes of a write go -------------------------------------------------------

  // Where a chunk begins.
  predicate Boundary(va: nat, n: nat) { n > 0 ==> (va + n) % PAGE == 0 }

  // The first byte of the chunk that byte k is written with.
  function ChunkStart(va: nat, k: nat): (n: nat)
    ensures n <= k && (va + n) % PAGE + (k - n) == (va + k) % PAGE && Boundary(va, n)
  {
    if k < (va + k) % PAGE then 0 else k - (va + k) % PAGE
  }

  // Byte k, if the byte-wise write reaches it, has the place it had when its chunk began.
  ghost predicate InPlace(v: Flat, tr: Walk, va: nat, buf: seq<Dma.byte>, k: nat) {
    match (WriteBytes(v, tr, va, buf, ChunkStart(va, k)), WriteBytes(v, tr, va, buf, k))
    case (Done(w), Done(t)) => Place(t, tr(t), va + k) == Place(w, tr(w), va + k)
    case _ => true
  }

  ghost predicate AllInPlace(v: Flat, tr: Walk, va: nat, buf: seq<Dma.byte>, n: nat) {
    forall k: nat :: k < n ==> InPlace(v, tr, va, buf, k)
  }

  // A chunk from byte n on, of which c bytes have their places at pa.
  ghost predicate InChunk(tr: Walk, w: Flat, va: nat, n: nat, c: nat, pa: int) {
    && tr(w)(va + n) == Some(pa) && (va + n) % PAGE + c <= PAGE && Boundary(va, n)
    && va + n + c <= TWO64 && AllIn(w, pa, c)
  }

  lemma SameChunk(va: nat, n: nat, k: nat)
    requires (va + n) % PAGE + k < PAGE && Boundary(va, n)
    ensures ChunkStart(va, n + k) == n
  {
  }

  // Where a byte of a chunk lies by the translation at its start.
  lemma PlaceInChunk(tr: Walk, w: Flat, va: nat, n: nat, k: nat, pa: int)
    requires PagesPreserved(tr) && tr(w)(va + n) == Some(pa) && (va + n) % PAGE + k < PAGE && va + n + k < TWO64
    ensures Place(w, tr(w), va + (n + k)) == if pa + k in w then Done(pa + k) else Failed(Map)
  {
    PageIsStraight(tr(w), va + n, k + 1);
    assert va + n + k == va + (n + k);
  }

  lemma PutInPlace(tr: Walk, w: Flat, va: nat, buf: seq<Dma.byte>, n: nat, k: nat, pa: int)
    requires n + k < |buf| && pa + k in w
    requires Place(Stored(w, pa, buf[n..n + k]), tr(Stored(w, pa, buf[n..n + k])), va + (n + k)) == Done(pa + k)
    ensures PutStep(tr, va, buf, Stored(w, pa, buf[n..n + k]), n + k) == Done(Stored(w, pa, buf[n..n + k + 1]))
  {
    StoredNext(w, pa, buf, n, k);
  }

  /** Within one chunk whose bytes stay in place, storing c bytes at once is storing them byte by byte. */
  lemma {:induction false} StoreInPage(v: Flat, w: Flat, tr: Walk, va: nat, buf: seq<Dma.byte>, n: nat, c: nat, pa: int)
    requires n + c <= |buf| && WriteBytes(v, tr, va, buf, n) == Done(w) && PagesPreserved(tr)
    requires InChunk(tr, w, va, n, c, pa) && AllInPlace(v, tr, va, buf, n + c)
    ensures WriteBytes(v, tr, va, buf, n + c) == Done(Stored(w, pa, buf[n..n + c]))
    decreases c
  {
    if c == 0 {
      StoredNone(w, pa);
      assert buf[n..n + 0] == [];
    } else {
      var k := c - 1;
      StoreInPage(v, w, tr, va, buf, n, k, pa);
      StoreByte(v, w, tr, va, buf, n, k, pa);
    }
  }

  lemma StoreByte(v: Flat, w: Flat, tr: Walk, va: nat, buf: seq<Dma.byte>, n: nat, k: nat, pa: int)
    requires n + k < |buf| && WriteBytes(v, tr, va, buf, n) == Done(w) && PagesPreserved(tr)
    requires WriteBytes(v, tr, va, buf, n + k) == Done(Stored(w, pa, buf[n..n + k]))
    requires InChunk(tr, w, va, n, k + 1, pa) && InPlace(v, tr, va, buf, n + k)
    ensures WriteBytes(v, tr, va, buf, n + (k + 1)) == Done(Stored(w, pa, buf[n..n + (k + 1)]))
  {
    SameChunk(va, n, k);
    PlaceInChunk(tr, w, va, n, k, pa);
    assert In(pa + k, pa, k + 1);
    PutInPlace(tr, w, va, buf, n, k, pa);
    NextByte(v, tr, va, buf, n + k, Stored(w, pa, buf[n..n + k]));
    assert n + k + 1 == n + (k + 1);
  }

  // One more byte of the byte-wise write.
  lemma NextByte(v: Flat, tr: Walk, va: int, buf: seq<Dma.byte>, k: nat, t: Flat)
    requires WriteBytes(v, tr, va, buf, k) == Done(t)
    ensures WriteBytes(v, tr, va, buf, k + 1) == PutStep(tr, va, buf, t, k)
  {
  }

  ghost function Longer(v: Flat, pa: int, buf: seq<Dma.byte>): int -> seq<Dma.byte> {
    k => if 0 <= k then buf + Loaded(v, pa, k) else buf
  }

  lemma LoadInPage(v: Flat, tr: Translation, va: int, buf: seq<Dma.byte>, c: nat, pa: int)
    requires va + |buf| + c <= TWO64
    requires ReadBytes(v, tr, va, |buf|) == Done(buf)
    requires Straight(tr, va + |buf|, c, pa) && AllIn(v, pa, c)
    ensures ReadBytes(v, tr, va, |buf| + c) == Done(buf + Loaded(v, pa, c))
  {
    var step, x := Getter(v, tr, va), Longer(v, pa, buf);
    assert buf + Loaded(v, pa, 0) == buf;
    forall k | 0 <= k < c
      ensures step(x(k), |buf| + k) == Done(x(k + 1))
    {
      assert In(pa + k, pa, c);
      assert buf + Loaded(v, pa, k + 1) == (buf + Loaded(v, pa, k)) + [ByteIn(v, pa + k)];
      assert tr(va + (|buf| + k)) == Some(pa + k);
    }
    FoldRun(step, [], |buf|, c, x);
  }

  // The first unmapped byte of a range.
  lemma FirstHole(v: Flat, pa: int, c: nat) returns (k: nat)
    requires !AllIn(v, pa, c)
    ensures k < c && AllIn(v, pa, k) && pa + k !in v
  {
    k := 0;
    while pa + k in v
      invariant k <= c && AllIn(v, pa, k)
      decreases c - k
    {
      assert k < c;
      k := k + 1;
    }
  }

  // How the byte-wise access fails where the chunk does.
  ghost predicate ChunkFails(w: Flat, tr: Translation, va: int, c: nat, st: Status) {
    if va >= TWO64 then st == Bounds
    else match tr(va)
      case None => st == Fault
      case Some(pa) => st == Map && !AllIn(w, pa, c)
  }

  lemma WriteFails(v: Flat, w: Flat, tr: Walk, va: nat, buf: seq<Dma.byte>, n: nat, c: nat, st: Status)
    requires 0 < c && n + c <= |buf| && (va + n < TWO64 ==> va + n + c <= TWO64) && PagesPreserved(tr)
    requires (va + n) % PAGE + c <= PAGE && Boundary(va, n) && AllInPlace(v, tr, va, buf, n + c)
    requires WriteBytes(v, tr, va, buf, n) == Done(w) && ChunkFails(w, tr(w), va + n, c, st)
    ensures WriteBytes(v, tr, va, buf, |buf|) == Failed(st)
  {
    if va + n < TWO64 && tr(w)(va + n).Some? {
      var pa := tr(w)(va + n).value;
      var k := FirstHole(w, pa, c);
      StoreInPage(v, w, tr, va, buf, n, k, pa);
      WriteHole(v, w, tr, va, buf, n, k, pa);
    } else {
      FoldStuck(Putter(tr, va, buf), v, n, w, |buf|, st);
    }
  }

  // Byte k of a chunk has no place.
  lemma WriteHole(v: Flat, w: Flat, tr: Walk, va: nat, buf: seq<Dma.byte>, n: nat, k: nat, pa: int)
    requires n + k < |buf| && va + n + k < TWO64 && pa + k !in w && PagesPreserved(tr)
    requires tr(w)(va + n) == Some(pa) && (va + n) % PAGE + k < PAGE && Boundary(va, n)
    requires WriteBytes(v, tr, va, buf, n) == Done(w) && InPlace(v, tr, va, buf, n + k)
    requires WriteBytes(v, tr, va, buf, n + k) == Done(Stored(w, pa, buf[n..n + k]))
    ensures WriteBytes(v, tr, va, buf, |buf|) == Failed(Map)
  {
    SameChunk(va, n, k);
    PlaceInChunk(tr, w, va, n, k, pa);
    FoldStuck(Putter(tr, va, buf), v, n + k, Stored(w, pa, buf[n..n + k]), |buf|, Map);
  }

  lemma ReadFails(v: Flat, tr: Translation, va: int, buf: seq<Dma.byte>, c: nat, len: nat, st: Status)
    requires 0 < c && |buf| + c <= len
    requires va + |buf| < TWO64 ==> va + |buf| + c <= TWO64
    requires tr(va + |buf|).Some? ==> Straight(tr, va + |buf|, c, tr(va + |buf|).value)
    requires ReadBytes(v, tr, va, |buf|) == Done(buf) && ChunkFails(v, tr, va + |buf|, c, st)
    ensures ReadBytes(v, tr, va, len) == Failed(st)
  {
    var step, n := Getter(v, tr, va), |buf|;
    if va + n < TWO64 && tr(va + n).Some? {
      var pa := tr(va + n).value;
      var k := FirstHole(v, pa, c);
      LoadInPage(v, tr, va, buf, k, pa);
      assert tr(va + (n + k)) == Some(pa + k);
      FoldStuck(step, [], n + k, buf + Loaded(v, pa, k), len, st);
    } else {
      FoldStuck(step, [], n, buf, len, st);
    }
  }

  // How much of the rest this page holds.
  function ChunkSize(va: nat, left: nat): (c: nat)
    requires left > 0
    ensures 0 < c <= left && va % PAGE + c <= PAGE && (va < TWO64 ==> va + c <= TWO64)
  {
    Min(PAGE - va % PAGE, left)
  }

  // What one turn of the loop does to the flat memory.
  ghost predicate ChunkWrote(w: Flat, tr: Translation, va: int, piece: seq<Dma.byte>, st: Status, x: Flat) {
    if st == Ok
    then va < TWO64 && tr(va).Some? && AllIn(w, tr(va).value, |piece|) && x == Stored(w, tr(va).value, piece)
    else x == w && ChunkFails(w, tr, va, |piece|, st)
  }

  ghost predicate Wrote(v: Flat, tr: Walk, va: int, buf: seq<Dma.byte>, n: nat, w: Flat) {
    WriteBytes(v, tr, va, buf, n) == Done(w)
  }

  // What a page-wise write from byte `done` on leaves, each chunk translated once, and how it ends.
  ghost function PageFrom(tr: Walk, va: nat, buf: seq<Dma.byte>, done: nat, w: Flat): (Status, Flat)
    requires done <= |buf|
    decreases |buf| - done
  {
    if done == |buf| then (Ok, w)
    else
      var c := ChunkSize(va + done, |buf| - done);
      if va + done >= TWO64 then (Bounds, w)
      else match tr(w)(va + done)
        case None => (Fault, w)
        case Some(pa) =>
          if !AllIn(w, pa, c) then (Map, w)
          else PageFrom(tr, va, buf, done + c, Stored(w, pa, buf[done..done + c]))
  }

  // The page-wise write ends as the byte-wise one does: with its memory, or with its failure and the memory of a
  // shorter prefix.
  ghost predicate Agrees(v: Flat, tr: Walk, va: nat, buf: seq<Dma.byte>) {
    Ends(v, tr, va, buf, PageFrom(tr, va, buf, 0, v))
  }

  ghost predicate Ends(v: Flat, tr: Walk, va: nat, buf: seq<Dma.byte>, r: (Status, Flat)) {
    if r.0 == Ok then Wrote(v, tr, va, buf, |buf|, r.1) else FailedWrite(v, tr, va, buf, r.0, r.1)
  }

  lemma ChunkEnds(va: nat, n: nat, left: nat)
    requires left > 0
    ensures ChunkSize(va + n, left) == left || Boundary(va, n + ChunkSize(va + n, left))
  {
  }

  /** One turn of the page-wise loop: a chunk whose bytes stay in place extends the byte-wise write, or fails as
      that does. */
  lemma WriteTurn(v: Flat, w: Flat, tr: Walk, va: nat, buf: seq<Dma.byte>, n: nat, c: nat)
    requires n < |buf| && c == ChunkSize(va + n, |buf| - n) && Boundary(va, n) && PagesPreserved(tr)
    requires Wrote(v, tr, va, buf, n, w) && AllInPlace(v, tr, va, buf, n + c)
    ensures va + n < TWO64 && tr(w)(va + n).Some? && AllIn(w, tr(w)(va + n).value, c) ==>
      Wrote(v, tr, va, buf, n + c, Stored(w, tr(w)(va + n).value, buf[n..n + c]))
    ensures forall st :: ChunkFails(w, tr(w), va + n, c, st) ==> FailedWrite(v, tr, va, buf, st, w)
  {
    if va + n < TWO64 && tr(w)(va + n).Some? && AllIn(w, tr(w)(va + n).value, c) {
      StoreInPage(v, w, tr, va, buf, n, c, tr(w)(va + n).value);
    }
    forall st | ChunkFails(w, tr(w), va + n, c, st)
      ensures FailedWrite(v, tr, va, buf, st, w)
    {
      WriteFails(v, w, tr, va, buf, n, c, st);
    }
  }

  lemma TurnGoesOn(tr: Walk, va: nat, buf: seq<Dma.byte>, n: nat, w: Flat, pa: int, c: nat)
    requires n < |buf| && c == ChunkSize(va + n, |buf| - n)
    requires va + n < TWO64 && tr(w)(va + n) == Some(pa) && AllIn(w, pa, c)
    ensures PageFrom(tr, va, buf, n, w) == PageFrom(tr, va, buf, n + c, Stored(w, pa, buf[n..n + c]))
  {
  }

  lemma TurnEnds(tr: Walk, va: nat, buf: seq<Dma.byte>, n: nat, w: Flat, c: nat) returns (st: Status)
    requires n < |buf| && c == ChunkSize(va + n, |buf| - n)
    requires !(va + n < TWO64 && tr(w)(va + n).Some? && AllIn(w, tr(w)(va + n).value, c))
    ensures ChunkFails(w, tr(w), va + n, c, st) && PageFrom(tr, va, buf, n, w) == (st, w)
  {
    st := if va + n >= TWO64 then Bounds else if tr(w)(va + n).None? then Fault else Map;
  }

  lemma {:induction false} AgreesFrom(v: Flat, w: Flat, tr: Walk, va: nat, buf: seq<Dma.byte>, n: nat)
    requires n <= |buf| && PagesPreserved(tr) && Wrote(v, tr, va, buf, n, w) && AllInPlace(v, tr, va, buf, |buf|)
    requires n < |buf| ==> Boundary(va, n)
    ensures Ends(v, tr, va, buf, PageFrom(tr, va, buf, n, w))
    decreases |buf| - n
  {
    if n < |buf| {
      var c := ChunkSize(va + n, |buf| - n);
      WriteTurn(v, w, tr, va, buf, n, c);
      if va + n < TWO64 && tr(w)(va + n).Some? && AllIn(w, tr(w)(va + n).value, c) {
        var pa := tr(w)(va + n).value;
        TurnGoesOn(tr, va, buf, n, w, pa, c);
        ChunkEnds(va, n, |buf| - n);
        AgreesFrom(v, Stored(w, pa, buf[n..n + c]), tr, va, buf, n + c);
      } else {
        var st := TurnEnds(tr, va, buf, n, w, c);
      }
    }
  }

  /** A write every byte of which stays in place agrees with the byte-wise one. */
  lemma InPlaceAgrees(v: Flat, tr: Walk, va: nat, buf: seq<Dma.byte>)
    requires PagesPreserved(tr) && AllInPlace(v, tr, va, buf, |buf|)
    ensures Agrees(v, tr, va, buf)
  {
    AgreesFrom(v, v, tr, va, buf, 0);
  }

  // ---- And only then -----------------------------------------------------------------------

  // The first k bytes of a write depend on the first k bytes of the buffer.
  lemma {:induction false} FirstBytes(v: Flat, tr: Walk, va: int, a: seq<Dma.byte>, b: seq<Dma.byte>, k: nat)
    requires k <= |a| && k <= |b| && a[..k] == b[..k]
    ensures WriteBytes(v, tr, va, a, k) == WriteBytes(v, tr, va, b, k)
  {
    if k > 0 {
      assert a[..k - 1] == a[..k][..k - 1] == b[..k][..k - 1] == b[..k - 1];
      assert a[k - 1] == a[..k][k - 1] == b[..k][k - 1];
      FirstBytes(v, tr, va, a, b, k - 1);
    }
  }

  lemma {:induction false} EarlierDone(v: Flat, tr: Walk, va: int, buf: seq<Dma.byte>, n: nat, k: nat)
    requires n <= k && WriteBytes(v, tr, va, buf, k).Done?
    ensures WriteBytes(v, tr, va, buf, n).Done?
    decreases k - n
  {
    if n < k {
      EarlierDone(v, tr, va, buf, n, k - 1);
    }
  }

  // The page-wise write comes to the boundary n with the memory of the byte-wise one.
  lemma {:induction false} PageReaches(v: Flat, w: Flat, tr: Walk, va: nat, buf: seq<Dma.byte>, n: nat)
    requires n < |buf| && Boundary(va, n) && PagesPreserved(tr)
    requires AllInPlace(v, tr, va, buf, n) && Wrote(v, tr, va, buf, n, w)
    ensures PageFrom(tr, va, buf, 0, v) == PageFrom(tr, va, buf, n, w)
    decreases n
  {
    if n > 0 {
      var m := ChunkStart(va, n - 1);
      EarlierDone(v, tr, va, buf, m, n);
      var u := WriteBytes(v, tr, va, buf, m).value;
      PageReaches(v, u, tr, va, buf, m);
      PreviousChunk(va, n);
      ChunkReaches(v, u, w, tr, va, buf, m, n - m);
    }
  }

  lemma PreviousChunk(va: nat, n: nat)
    requires n > 0 && Boundary(va, n)
    ensures var m := ChunkStart(va, n - 1);
      m < n && Boundary(va, m) && (va + m) % PAGE + (n - m) == PAGE
  {
  }

  // One whole chunk that the byte-wise write got through.
  lemma ChunkReaches(v: Flat, u: Flat, w: Flat, tr: Walk, va: nat, buf: seq<Dma.byte>, m: nat, c: nat)
    requires 0 < c && m + c < |buf| && Boundary(va, m) && (va + m) % PAGE + c == PAGE && PagesPreserved(tr)
    requires AllInPlace(v, tr, va, buf, m + c) && Wrote(v, tr, va, buf, m, u) && Wrote(v, tr, va, buf, m + c, w)
    ensures PageFrom(tr, va, buf, m, u) == PageFrom(tr, va, buf, m + c, w)
  {
    WriteTurnWhole(v, u, tr, va, buf, m, c);
    StoreInPage(v, u, tr, va, buf, m, c, tr(u)(va + m).value);
    assert ChunkSize(va + m, |buf| - m) == c;
  }

  lemma FirstPlace(v: Flat, u: Flat, tr: Walk, va: nat, buf: seq<Dma.byte>, m: nat, c: nat)
    requires 0 < c && Wrote(v, tr, va, buf, m, u) && WriteBytes(v, tr, va, buf, m + c).Done? && (va + m) % PAGE + c <= PAGE
    ensures va + m < TWO64 && va + m + c <= TWO64 && tr(u)(va + m).Some?
  {
    EarlierDone(v, tr, va, buf, m + 1, m + c);
    NextByte(v, tr, va, buf, m, u);
  }

  lemma WriteTurnWhole(v: Flat, u: Flat, tr: Walk, va: nat, buf: seq<Dma.byte>, m: nat, c: nat)
    requires 0 < c && m + c <= |buf| && Boundary(va, m) && (va + m) % PAGE + c <= PAGE && PagesPreserved(tr)
    requires AllInPlace(v, tr, va, buf, m + c) && Wrote(v, tr, va, buf, m, u) && WriteBytes(v, tr, va, buf, m + c).Done?
    ensures va + m < TWO64 && va + m + c <= TWO64 && tr(u)(va + m).Some? && AllIn(u, tr(u)(va + m).value, c)
  {
    FirstPlace(v, u, tr, va, buf, m, c);
    var pa := tr(u)(va + m).value;
    if !AllIn(u, pa, c) {
      var k := FirstHole(u, pa, c);
      StoreInPage(v, u, tr, va, buf, m, k, pa);
      HoleStops(v, u, tr, va, buf, m, k, pa);
      EarlierDone(v, tr, va, buf, m + k + 1, m + c);
    }
  }

  lemma HoleStops(v: Flat, w: Flat, tr: Walk, va: nat, buf: seq<Dma.byte>, n: nat, k: nat, pa: int)
    requires n + k < |buf| && va + n + k < TWO64 && pa + k !in w && PagesPreserved(tr)
    requires tr(w)(va + n) == Some(pa) && (va + n) % PAGE + k < PAGE && Boundary(va, n)
    requires WriteBytes(v, tr, va, buf, n) == Done(w) && InPlace(v, tr, va, buf, n + k)
    requires WriteBytes(v, tr, va, buf, n + k) == Done(Stored(w, pa, buf[n..n + k]))
    ensures WriteBytes(v, tr, va, buf, n + k + 1) == Failed(Map)
  {
    SameChunk(va, n, k);
    PlaceInChunk(tr, w, va, n, k, pa);
    NextByte(v, tr, va, buf, n + k, Stored(w, pa, buf[n..n + k]));
  }

  // Byte k of a buffer that ends with it has two places: the two writes end differently.
  lemma TwoPlaces(v: Flat, w: Flat, t: Flat, tr: Walk, va: nat, buf: seq<Dma.byte>, n: nat, k: nat, pa: int)
    requires n <= k && |buf| == k + 1 && (va + n) % PAGE + (k - n) < PAGE && va + k < TWO64 && tr(w)(va + n) == Some(pa)
    requires PageFrom(tr, va, buf, 0, v) == PageFrom(tr, va, buf, n, w) && AllIn(w, pa, k - n)
    requires t == Stored(w, pa, buf[n..k]) && Wrote(v, tr, va, buf, k, t) && buf[k] != ByteIn(t, pa + (k - n))
    requires Place(t, tr(t), va + k) != if pa + (k - n) in w then Done(pa + (k - n)) else Failed(Map)
    ensures !Agrees(v, tr, va, buf)
  {
    var p, c := pa + (k - n), k + 1 - n;
    assert ChunkSize(va + n, |buf| - n) == c;
    NextByte(v, tr, va, buf, k, t);
    assert In(p, pa, c);
    if p in w {
      assert AllIn(w, pa, c);
      assert PageFrom(tr, va, buf, n, w) == (Ok, Stored(w, pa, buf[n..n + c]));
      assert ByteIn(Stored(w, pa, buf[n..n + c]), p) == buf[k];
    } else {
      assert PageFrom(tr, va, buf, n, w) == (Map, w);
    }
  }

  lemma SamePrefix(v: Flat, tr: Walk, va: nat, a: seq<Dma.byte>, b: seq<Dma.byte>, n: nat)
    requires n <= |a| && n <= |b| && a[..n] == b[..n] && AllInPlace(v, tr, va, a, n)
    ensures AllInPlace(v, tr, va, b, n)
  {
    forall k: nat | k < n
      ensures InPlace(v, tr, va, b, k)
    {
      assert InPlace(v, tr, va, a, k);
      assert a[..k] == a[..n][..k] == b[..k];
      FirstBytes(v, tr, va, a, b, k);
      var m := ChunkStart(va, k);
      assert a[..m] == a[..n][..m] == b[..m];
      FirstBytes(v, tr, va, a, b, m);
    }
  }

  lemma SameChunks(v: Flat, w: Flat, t: Flat, tr: Walk, va: nat, a: seq<Dma.byte>, b: seq<Dma.byte>, n: nat, k: nat)
    requires n <= k <= |a| && k <= |b| && a[..k] == b[..k] && AllInPlace(v, tr, va, a, k)
    requires Wrote(v, tr, va, a, n, w) && Wrote(v, tr, va, a, k, t)
    ensures AllInPlace(v, tr, va, b, n) && Wrote(v, tr, va, b, n, w) && Wrote(v, tr, va, b, k, t) && a[n..k] == b[n..k]
  {
    assert a[..n] == a[..k][..n] == b[..n];
    assert a[n..k] == a[..k][n..] == b[n..k];
    SamePrefix(v, tr, va, a, b, n);
    FirstBytes(v, tr, va, a, b, n);
    FirstBytes(v, tr, va, a, b, k);
  }

  lemma NotAtTheTop(va: nat, k: nat)
    requires ChunkStart(va, k) < k
    ensures va + k != TWO64
  {
  }

  // The chunk of the first byte that moves, up to that byte.
  lemma MovedChunk(v: Flat, tr: Walk, va: nat, buf: seq<Dma.byte>, k: nat) returns (w: Flat, t: Flat, pa: int)
    requires k < |buf| && PagesPreserved(tr) && AllInPlace(v, tr, va, buf, k) && !InPlace(v, tr, va, buf, k)
    ensures var n := ChunkStart(va, k);
      && n < k && Wrote(v, tr, va, buf, n, w) && Wrote(v, tr, va, buf, k, t) && t == Stored(w, pa, buf[n..k])
      && va + k < TWO64 && tr(w)(va + n) == Some(pa) && AllIn(w, pa, k - n)
      && Place(t, tr(t), va + k) != if pa + (k - n) in w then Done(pa + (k - n)) else Failed(Map)
  {
    var n := ChunkStart(va, k);
    w, t := WriteBytes(v, tr, va, buf, n).value, WriteBytes(v, tr, va, buf, k).value;
    WriteTurnWhole(v, w, tr, va, buf, n, k - n);
    NotAtTheTop(va, k);
    pa := tr(w)(va + n).value;
    StoreInPage(v, w, tr, va, buf, n, k - n, pa);
    PlaceInChunk(tr, w, va, n, k - n, pa);
    assert va + (n + (k - n)) == va + k;
  }

  lemma CutDisagrees(v: Flat, w: Flat, t: Flat, tr: Walk, va: nat, buf: seq<Dma.byte>, cut: seq<Dma.byte>, n: nat, k: nat,
    pa: int)
    requires n <= k < |buf| && |cut| == k + 1 && cut[..k] == buf[..k] && cut[k] != ByteIn(t, pa + (k - n))
    requires Boundary(va, n) && (va + n) % PAGE + (k - n) < PAGE && va + k < TWO64 && PagesPreserved(tr)
    requires AllInPlace(v, tr, va, buf, k) && Wrote(v, tr, va, buf, n, w) && Wrote(v, tr, va, buf, k, t)
    requires t == Stored(w, pa, buf[n..k]) && tr(w)(va + n) == Some(pa) && AllIn(w, pa, k - n)
    requires Place(t, tr(t), va + k) != if pa + (k - n) in w then Done(pa + (k - n)) else Failed(Map)
    ensures !Agrees(v, tr, va, cut)
  {
    SameChunks(v, w, t, tr, va, buf, cut, n, k);
    PageReaches(v, w, tr, va, cut, n);
    TwoPlaces(v, w, t, tr, va, cut, n, k, pa);
  }

  /** Cut just after the first byte that moves, and with that byte unlike the one at its page-wise place, the
      write does not agree with the byte-wise one. */
  lemma MovedDisagrees(v: Flat, tr: Walk, va: nat, buf: seq<Dma.byte>, k: nat) returns (cut: seq<Dma.byte>)
    requires k < |buf| && PagesPreserved(tr) && AllInPlace(v, tr, va, buf, k) && !InPlace(v, tr, va, buf, k)
    ensures |cut| == k + 1 && cut[..k] == buf[..k] && !Agrees(v, tr, va, cut)
  {
    var n := ChunkStart(va, k);
    var w, t, pa := MovedChunk(v, tr, va, buf, k);
    var last: Dma.byte := if ByteIn(t, pa + (k - n)) == 0 then 1 else 0;
    cut := buf[..k] + [last];
    assert cut[..k] == buf[..k];
    CutDisagrees(v, w, t, tr, va, buf, cut, n, k, pa);
  }

  lemma FirstMoved(v: Flat, tr: Walk, va: nat, buf: seq<Dma.byte>) returns (k: nat)
    requires !AllInPlace(v, tr, va, buf, |buf|)
    ensures k < |buf| && AllInPlace(v, tr, va, buf, k) && !InPlace(v, tr, va, buf, k)
  {
    k := 0;
    while InPlace(v, tr, va, buf, k)
      invariant k < |buf| && AllInPlace(v, tr, va, buf, k)
      decreases |buf| - k
    {
      assert AllInPlace(v, tr, va, buf, k + 1);
      k := k + 1;
    }
  }

  ghost predicate AlwaysAgrees(v: Flat, tr: Walk, va: nat, most: nat) {
    forall buf: seq<Dma.byte> :: |buf| <= most ==> Agrees(v, tr, va, buf)
  }

  ghost predicate NeverMoves(v: Flat, tr: Walk, va: nat, most: nat) {
    forall buf: seq<Dma.byte> :: |buf| <= most ==> AllInPlace(v, tr, va, buf, |buf|)
  }

  /** Writing page by page agrees with writing byte by byte, for every buffer of up to `most` bytes, exactly when
      no such buffer moves a byte of its own: each byte reached has the place it had as its chunk began. */
  lemma AgreesExactly(v: Flat, tr: Walk, va: nat, most: nat)
    requires PagesPreserved(tr)
    ensures AlwaysAgrees(v, tr, va, most) <==> NeverMoves(v, tr, va, most)
  {
    forall buf: seq<Dma.byte> | |buf| <= most && AllInPlace(v, tr, va, buf, |buf|)
      ensures Agrees(v, tr, va, buf)
    {
      InPlaceAgrees(v, tr, va, buf);
    }
    if AlwaysAgrees(v, tr, va, most) && !NeverMoves(v, tr, va, most) {
      var buf: seq<Dma.byte> :| |buf| <= most && !AllInPlace(v, tr, va, buf, |buf|);
      var k := FirstMoved(v, tr, va, buf);
      var cut := MovedDisagrees(v, tr, va, buf, k);
      assert false;
    }
  }

  // ---- Tables that the write does not reach ------------------------------------------------

  ghost predicate SameAt(a: Flat, b: Flat, tables: iset<int>) {
    a.Keys == b.Keys && forall x :: x in a && x in tables ==> a[x] == b[x]
  }

  // The translation is made of the cells in `tables`.
  ghost predicate LiesIn(tr: Walk, tables: iset<int>) {
    forall a, b :: SameAt(a, b, tables) ==> tr(a) == tr(b)
  }

  lemma PutKeeps(v: Flat, u: Flat, tr: Walk, va: nat, buf: seq<Dma.byte>, k: nat, tables: iset<int>)
    requires SameAt(v, u, tables) && (tr(u)(va + k).Some? ==> tr(u)(va + k).value !in tables)
    ensures match PutStep(tr, va, buf, u, k) case Done(t) => SameAt(v, t, tables) case _ => true
  {
  }

  lemma {:induction false} TablesKept(v: Flat, tr: Walk, va: nat, buf: seq<Dma.byte>, n: nat, tables: iset<int>)
    requires LiesIn(tr, tables) && forall x :: va <= x < va + n && tr(v)(x).Some? ==> tr(v)(x).value !in tables
    ensures match WriteBytes(v, tr, va, buf, n) case Done(t) => SameAt(v, t, tables) case _ => true
  {
    if n > 0 && WriteBytes(v, tr, va, buf, n).Done? {
      EarlierDone(v, tr, va, buf, n - 1, n);
      var u := WriteBytes(v, tr, va, buf, n - 1).value;
      TablesKept(v, tr, va, buf, n - 1, tables);
      NextByte(v, tr, va, buf, n - 1, u);
      assert tr(u) == tr(v);
      PutKeeps(v, u, tr, va, buf, n - 1, tables);
    }
  }

  /** No write moves its own bytes when the tables lie apart from everything the addresses translate to. */
  lemma TablesApart(v: Flat, tr: Walk, va: nat, most: nat, tables: iset<int>)
    requires LiesIn(tr, tables) && forall x :: va <= x < va + most && tr(v)(x).Some? ==> tr(v)(x).value !in tables
    ensures NeverMoves(v, tr, va, most)
  {
    forall buf: seq<Dma.byte>, k: nat | k < |buf| <= most
      ensures InPlace(v, tr, va, buf, k)
    {
      TablesKept(v, tr, va, buf, k, tables);
      TablesKept(v, tr, va, buf, ChunkStart(va, k), tables);
    }
  }

  // ---- The write itself --------------------------------------------------------------------

  // The translation as the machine computes it from its regions, of which only the flat memory matters.
  type Walker = (seq<Region>, int) -> Option<u64>

  ghost predicate Walks(walk: Walker, tr: Walk) {
    forall rs, x | Solid(rs) :: walk(rs, x) == tr(View(rs))(x)
  }

  method WriteChunk(e: Engine, walk: Walker, ghost tr: Walk, va: nat, piece: seq<Dma.byte>) returns (st: Status)
    requires e.Usable() && |piece| < TWO64 && Walks(walk, tr)
    modifies e
    ensures e.Usable() && Specs(e.regions) == old(Specs(e.regions))
    ensures ChunkWrote(old(View(e.regions)), tr(old(View(e.regions))), va, piece, st, View(e.regions))
  {
    if va >= TWO64 {
      return Bounds;
    }
    var pa := walk(e.regions, va);
    if pa == None {
      return Fault;
    }
    st := PhysWrite(e, pa.value, piece);
  }

  lemma PageTurn(tr: Walk, va: nat, buf: seq<Dma.byte>, n: nat, c: nat, w: Flat, st: Status, x: Flat)
    requires n < |buf| && c == ChunkSize(va + n, |buf| - n) && ChunkWrote(w, tr(w), va + n, buf[n..n + c], st, x)
    ensures PageFrom(tr, va, buf, n, w) == if st == Ok then PageFrom(tr, va, buf, n + c, x) else (st, x)
  {
  }

  // The byte-wise write fails with st, and what was written is a shorter prefix.
  ghost predicate FailedWrite(v: Flat, tr: Walk, va: int, buf: seq<Dma.byte>, st: Status, after: Flat) {
    WriteBytes(v, tr, va, buf, |buf|) == Failed(st) && WrotePrefix(v, tr, va, buf, after)
  }

  // One turn of the loop: as much of the rest as this page holds.
  method WriteRound(e: Engine, walk: Walker, ghost tr: Walk, vaddr: u64, buf: seq<Dma.byte>, done: nat)
    returns (st: Status, next: nat)
    requires e.Usable() && done < |buf| < TWO64 && Walks(walk, tr)
    modifies e
    ensures e.Usable() && Specs(e.regions) == old(Specs(e.regions)) && done < next <= |buf|
    ensures PageFrom(tr, vaddr, buf, done, old(View(e.regions)))
         == if st == Ok then PageFrom(tr, vaddr, buf, next, View(e.regions)) else (st, View(e.regions))
  {
    ghost var w := View(e.regions);
    var chunk := ChunkSize(vaddr + done, |buf| - done);
    next := done + chunk;
    st := WriteChunk(e, walk, tr, vaddr + done, buf[done..next]);
    PageTurn(tr, vaddr, buf, done, chunk, w, st, View(e.regions));
  }

  lemma InPlaceEnds(v: Flat, tr: Walk, va: nat, buf: seq<Dma.byte>)
    ensures PagesPreserved(tr) && AllInPlace(v, tr, va, buf, |buf|) ==> Ends(v, tr, va, buf, PageFrom(tr, va, buf, 0, v))
  {
    if PagesPreserved(tr) && AllInPlace(v, tr, va, buf, |buf|) {
      InPlaceAgrees(v, tr, va, buf);
    }
  }

  /** Writing through page tables that lie in the very memory written leaves what the page-wise write leaves and
      answers as it does.  Where no byte moves that is translating and writing one byte at a time, each byte through
      the tables as the bytes before it left them, also where pages are aliased; a failure leaves some shorter
      prefix written. */
  method VirtWrite(e: Engine, walk: Walker, ghost tr: Walk, vaddr: u64, buf: seq<Dma.byte>) returns (st: Status)
    requires e.Usable() && |buf| < TWO64 && Walks(walk, tr)
    modifies e
    ensures e.Usable() && Specs(e.regions) == old(Specs(e.regions))
    ensures (st, View(e.regions)) == PageFrom(tr, vaddr, buf, 0, old(View(e.regions)))
    ensures PagesPreserved(tr) && AllInPlace(old(View(e.regions)), tr, vaddr, buf, |buf|) ==>
      Ends(old(View(e.regions)), tr, vaddr, buf, (st, View(e.regions)))
  {
    ghost var v := View(e.regions);
    InPlaceEnds(v, tr, vaddr, buf);
    var done := 0;
    while done < |buf|
      invariant 0 <= done <= |buf| && e.Usable() && Specs(e.regions) == old(Specs(e.regions))
      invariant PageFrom(tr, vaddr, buf, done, View(e.regions)) == PageFrom(tr, vaddr, buf, 0, v)
    {
      var next;
      st, next := WriteRound(e, walk, tr, vaddr, buf, done);
      if st != Ok {
        return;
      }
      done := next;
    }
    st := Ok;
  }

  ghost predicate WrotePrefix(v: Flat, tr: Walk, va: int, buf: seq<Dma.byte>, after: Flat) {
    exists n :: 0 <= n < |buf| && WriteBytes(v, tr, va, buf, n) == Done(after)
  }

  // ---- A page that moves itself ------------------------------------------------------------

  // Tables in a byte of memory: page 0 lies at page 0 while byte 0 is zero, and at page 1 once it is not.
  function MovedTo(first: Dma.byte, x: int): Option<u64> {
    if x < 0 || x >= PAGE then None else if first == 0 then Some(x) else Some(x + PAGE)
  }

  ghost function Moving(w: Flat): Translation { x => MovedTo(ByteIn(w, 0), x) }

  // The byte at address 0 of a region list.
  function FirstByte(rs: seq<Region>): Dma.byte {
    if rs == [] then 0
    else var r := rs[|rs| - 1];
      if r.spec.Covers(0) && |r.data| > 0 then r.data[0] else FirstByte(rs[..|rs| - 1])
  }

  function MovingWalk(rs: seq<Region>, x: int): Option<u64> { MovedTo(FirstByte(rs), x) }

  lemma {:induction false} FirstByteIs(rs: seq<Region>)
    requires Backed(rs)
    ensures FirstByte(rs) == ByteOrZero(rs, 0)
  {
    if rs != [] {
      FirstByteIs(rs[..|rs| - 1]);
    }
  }

  lemma MovingWalks()
    ensures Walks(MovingWalk, Moving) && PagesPreserved(Moving)
  {
    forall rs, x | Solid(rs)
      ensures MovingWalk(rs, x) == Moving(View(rs))(x)
    {
      FirstByteIs(rs);
      ViewAt(rs, 0);
    }
    forall w: Flat, x, y | x / PAGE == y / PAGE
      ensures Shifted(Moving(w), x, y)
    {
    }
  }

  lemma MovingPage(w: Flat)
    requires 0 in w && 1 in w && PAGE + 1 in w && w[0].byte == 0 && w[1].byte == 0
    ensures WriteBytes(w, Moving, 0, [1, 2], 2) == Done(PutByte(PutByte(w, 0, 1), PAGE + 1, 2))
    ensures PageFrom(Moving, 0, [1, 2], 0, w) == (Ok, Stored(w, 0, [1, 2]))
  {
    var step, one := Putter(Moving, 0, [1, 2]), PutByte(w, 0, 1);
    assert Moving(w)(0) == Some(0) && Moving(one)(1) == Some(PAGE + 1);
    assert step(w, 0) == Done(one);
    assert step(one, 1) == Done(PutByte(one, PAGE + 1, 2));
    assert Fold(step, w, 0) == Done(w);
    assert Fold(step, w, 1) == Done(one);
    assert ChunkSize(0, 2) == 2 && [1, 2][0..2] == [1, 2];
    assert AllIn(w, 0, 2);
  }

  /** Writing 1, 2 at address 0 through a page whose own first byte moves it: byte by byte the 2 lands on the next
      page; the write puts it beside the 1. */
  method WriteMovingPage(e: Engine) returns (st: Status)
    requires e.Usable() && AllIn(View(e.regions), 0, 2 * PAGE)
    requires View(e.regions)[0].byte == 0 && View(e.regions)[1].byte == 0
    modifies e
    ensures e.Usable() && st == Ok && ByteIn(View(e.regions), 1) == 2
    ensures WriteBytes(old(View(e.regions)), Moving, 0, [1, 2], 2).Done?
    ensures var bytewise := WriteBytes(old(View(e.regions)), Moving, 0, [1, 2], 2).value;
      ByteIn(bytewise, 1) == 0 && ByteIn(bytewise, PAGE + 1) == 2
    ensures !Agrees(old(View(e.regions)), Moving, 0, [1, 2])
  {
    ghost var w := View(e.regions);
    MovingWalks();
    assert In(0, 0, 2 * PAGE) && In(1, 0, 2 * PAGE) && In(PAGE + 1, 0, 2 * PAGE);
    MovingPage(w);
    st := VirtWrite(e, MovingWalk, Moving, 0, [1, 2]);
    assert ByteIn(Stored(w, 0, [1, 2]), 1) == 2;
  }

  ghost predicate ChunkRead(v: Flat, tr: Translation, va: int, c: nat, st: Status, piece: seq<Dma.byte>) {
    if st == Ok
    then va < TWO64 && tr(va).Some? && AllIn(v, tr(va).value, c) && piece == Loaded(v, tr(va).value, c)
    else ChunkFails(v, tr, va, c, st)
  }

  lemma ReadTurn(v: Flat, tr: Translation, va: nat, buf: seq<Dma.byte>, len: nat, c: nat, st: Status, piece: seq<Dma.byte>)
    requires |buf| < len && c == ChunkSize(va + |buf|, len - |buf|) && PagePreserving(tr)
    requires ReadBytes(v, tr, va, |buf|) == Done(buf) && ChunkRead(v, tr, va + |buf|, c, st, piece)
    ensures st == Ok ==> |piece| == c && ReadBytes(v, tr, va, |buf + piece|) == Done(buf + piece)
    ensures st != Ok ==> ReadBytes(v, tr, va, len) == Failed(st)
  {
    if tr(va + |buf|).Some? {
      PageIsStraight(tr, va + |buf|, c);
    }
    if st == Ok {
      LoadInPage(v, tr, va, buf, c, tr(va + |buf|).value);
    } else {
      ReadFails(v, tr, va, buf, c, len, st);
    }
  }

  method ReadChunk(e: Engine, tr: Translation, va: nat, c: u64) returns (st: Status, piece: seq<Dma.byte>)
    requires e.Usable()
    ensures ChunkRead(View(e.regions), tr, va, c, st, piece)
  {
    if va >= TWO64 {
      return Bounds, [];
    }
    var pa := tr(va);
    if pa == None {
      return Fault, [];
    }
    st, piece := PhysRead(e, pa.value, c);
  }

  /** Reading through the page tables, of which `tr` is what the memory read holds, equals translating and
      reading one byte at a time, and fails as that does. */
  method VirtRead(e: Engine, tr: Translation, vaddr: u64, len: u64) returns (st: Status, buf: seq<Dma.byte>)
    requires e.Usable() && PagePreserving(tr)
    ensures ReadBytes(View(e.regions), tr, vaddr, len) == if st == Ok then Done(buf) else Failed(st)
  {
    ghost var v := View(e.regions);
    buf := [];
    while |buf| < len
      invariant |buf| <= len
      invariant ReadBytes(v, tr, vaddr, |buf|) == Done(buf)
    {
      var chunk := ChunkSize(vaddr + |buf|, len - |buf|);
      var piece;
      st, piece := ReadChunk(e, tr, vaddr + |buf|, chunk);
      ReadTurn(v, tr, vaddr, buf, len, chunk, st, piece);
      if st != Ok {
        return;
      }
      buf := buf + piece;
    }
    st := Ok;
  }
}
