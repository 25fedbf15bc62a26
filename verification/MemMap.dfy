/**
 The sparse guest memory map of the C API: page-aligned regions kept sorted and disjoint, rebuilt
 from a list of specs whenever the mapping changes.  What the guest sees is a flat partial function
 from address to byte and permissions; each operation is proved against that.
 */
module MemMap {
  import opened Common
  import Dma

  const PAGE: int := 4096

  type Perms = x: int | 0 <= x < 0x1_0000_0000

  datatype Status = Ok | Arg | Bounds | Map | NoMem | Fault

  // What the host answers during one call: whether allocations succeed, and whether the vCPU can
  // be rebuilt over the new memory.
  datatype Host = Host(alloc: bool, rebuild: bool)

  // RAX_PROT_ALL keeps the read, write and execute bits.
  function Masked(p: Perms): Perms { p % 8 }

  lemma MaskedTwice(p: Perms)
    ensures Masked(Masked(p)) == Masked(p)
  {
  }

  // ---- Specs -------------------------------------------------------------------------------

  datatype Spec = Spec(base: nat, size: nat, perms: Perms) {
    function End(): nat { base + size }
    predicate Covers(a: int) { base <= a < base + size }
    predicate Aligned() { size > 0 && base % PAGE == 0 && size % PAGE == 0 }
  }

  ghost predicate Disjoint(specs: seq<Spec>) {
    forall i, j :: 0 <= i < j < |specs| ==> specs[i].End() <= specs[j].base
  }

  ghost predicate WellFormed(specs: seq<Spec>) {
    && Disjoint(specs)
    && forall i :: 0 <= i < |specs| ==> specs[i].Aligned() && specs[i].End() < TWO64
  }

  // In order, apart, non-empty and inside the address space, aligned or not.
  ghost predicate Sound(specs: seq<Spec>) {
    Disjoint(specs) && forall i :: 0 <= i < |specs| ==> specs[i].size > 0 && specs[i].End() < TWO64
  }

  ghost predicate Paged(specs: seq<Spec>) {
    forall i :: 0 <= i < |specs| ==> specs[i].base % PAGE == 0 && specs[i].size % PAGE == 0
  }

  lemma SoundAndPaged(specs: seq<Spec>)
    ensures WellFormed(specs) <==> Sound(specs) && Paged(specs)
  {
  }

  ghost predicate AllAligned(specs: seq<Spec>) {
    forall i :: 0 <= i < |specs| ==> specs[i].Aligned() && specs[i].End() < TWO64
  }

  // The permissions the specs give an address.
  function PermAt(specs: seq<Spec>, a: int): Option<Perms> {
    if specs == [] then None
    else
      var s := specs[|specs| - 1];
      if s.Covers(a) then Some(s.perms) else PermAt(specs[..|specs| - 1], a)
  }

  lemma {:induction false} PermAtCovering(specs: seq<Spec>, i: nat, a: int)
    requires Disjoint(specs) && i < |specs| && specs[i].Covers(a)
    ensures PermAt(specs, a) == Some(specs[i].perms)
  {
    var n := |specs| - 1;
    if i < n {
      assert specs[i].End() <= specs[n].base;
      PermAtCovering(specs[..n], i, a);
    }
  }

  lemma {:induction false} PermAtFound(specs: seq<Spec>, a: int) returns (i: nat)
    requires PermAt(specs, a).Some?
    ensures i < |specs| && specs[i].Covers(a) && PermAt(specs, a) == Some(specs[i].perms)
  {
    i := |specs| - 1;
    if !specs[i].Covers(a) {
      i := PermAtFound(specs[..i], a);
    }
  }

  lemma {:induction false} PermAtConcat(xs: seq<Spec>, ys: seq<Spec>, a: int)
    ensures PermAt(xs + ys, a) == if PermAt(ys, a).Some? then PermAt(ys, a) else PermAt(xs, a)
    decreases |ys|
  {
    if ys == [] {
      assert xs + ys == xs;
    } else {
      var n := |ys| - 1;
      assert (xs + ys)[..|xs + ys| - 1] == xs + ys[..n];
      PermAtConcat(xs, ys[..n], a);
    }
  }

  // ---- Regions and the flat view -----------------------------------------------------------

  datatype Region = Region(spec: Spec, data: seq<Dma.byte>)
  datatype Cell = Cell(byte: Dma.byte, perms: Perms)

  function Specs(rs: seq<Region>): seq<Spec> {
    seq(|rs|, i requires 0 <= i < |rs| => rs[i].spec)
  }

  ghost predicate Backed(rs: seq<Region>) {
    forall i :: 0 <= i < |rs| ==> |rs[i].data| == rs[i].spec.size
  }

  // The invariant of the map: sorted, disjoint, page-aligned, non-empty, each with its bytes.
  ghost predicate ValidMap(rs: seq<Region>) {
    WellFormed(Specs(rs)) && Backed(rs)
  }

  // Sorted and disjoint, each with its bytes, and no more.
  ghost predicate Ordered(rs: seq<Region>) {
    Disjoint(Specs(rs)) && Backed(rs) && forall i :: 0 <= i < |rs| ==> rs[i].spec.End() < TWO64
  }

  // And non-empty: what a restored context installs, aligned or not.
  ghost predicate Solid(rs: seq<Region>) {
    Sound(Specs(rs)) && Backed(rs)
  }

  lemma SolidIsOrdered(rs: seq<Region>)
    requires Solid(rs)
    ensures Ordered(rs)
  {
    assert forall i :: 0 <= i < |rs| ==> Specs(rs)[i] == rs[i].spec;
  }

  lemma ValidIsSolid(rs: seq<Region>)
    ensures ValidMap(rs) <==> Solid(rs) && Paged(Specs(rs))
  {
    SoundAndPaged(Specs(rs));
  }

  ghost function Lookup(rs: seq<Region>, a: int): Option<Cell>
    requires Backed(rs)
  {
    if rs == [] then None
    else
      var r := rs[|rs| - 1];
      if r.spec.Covers(a) then Some(Cell(r.data[a - r.spec.base], r.spec.perms))
      else Lookup(rs[..|rs| - 1], a)
  }

  ghost function ByteOrZero(rs: seq<Region>, a: int): Dma.byte
    requires Backed(rs)
  {
    match Lookup(rs, a) case Some(cell) => cell.byte case None => 0
  }

  type Flat = map<int, Cell>

  // The flat memory the regions stand for.
  ghost function View(rs: seq<Region>): Flat
    requires Backed(rs)
  {
    map a | 0 <= a < TWO64 && Lookup(rs, a).Some? :: Lookup(rs, a).value
  }

  lemma {:induction false} LookupPerms(rs: seq<Region>, a: int)
    requires Backed(rs)
    ensures match Lookup(rs, a) case None => PermAt(Specs(rs), a) == None
                                case Some(cell) => PermAt(Specs(rs), a) == Some(cell.perms)
  {
    if rs != [] {
      assert Specs(rs)[..|rs| - 1] == Specs(rs[..|rs| - 1]);
      LookupPerms(rs[..|rs| - 1], a);
    }
  }

  lemma {:induction false} LookupCovering(rs: seq<Region>, i: nat, a: int)
    requires Ordered(rs) && i < |rs| && rs[i].spec.Covers(a)
    ensures Lookup(rs, a) == Some(Cell(rs[i].data[a - rs[i].spec.base], rs[i].spec.perms))
  {
    var n := |rs| - 1;
    if i < n {
      assert Specs(rs)[i].End() <= Specs(rs)[n].base;
      assert Specs(rs[..n]) == Specs(rs)[..n];
      LookupCovering(rs[..n], i, a);
    }
  }

  // ---- Rebuilding from specs ---------------------------------------------------------------

  ghost function BuiltRegion(s: Spec, old_: seq<Region>): Region
    requires Backed(old_)
  {
    Region(Spec(s.base, s.size, Masked(s.perms)), seq<Dma.byte>(s.size, k => ByteOrZero(old_, s.base + k)))
  }

  ghost function Built(specs: seq<Spec>, old_: seq<Region>): (rs: seq<Region>)
    requires Backed(old_)
    ensures Backed(rs)
  {
    seq(|specs|, i requires 0 <= i < |specs| => BuiltRegion(specs[i], old_))
  }

  /** A rebuilt map covers what the specs cover, with their masked permissions; every byte that was
      mapped survives and every other byte is zero. */
  lemma {:induction false} LookupBuilt(specs: seq<Spec>, old_: seq<Region>, a: int)
    requires Backed(old_)
    ensures Lookup(Built(specs, old_), a)
         == match PermAt(specs, a) case None => None
                                   case Some(p) => Some(Cell(ByteOrZero(old_, a), Masked(p)))
  {
    if specs != [] {
      var n := |specs| - 1;
      assert Built(specs, old_)[..n] == Built(specs[..n], old_);
      LookupBuilt(specs[..n], old_, a);
    }
  }

  lemma BuiltIsValid(specs: seq<Spec>, old_: seq<Region>)
    requires Backed(old_) && WellFormed(specs)
    ensures ValidMap(Built(specs, old_))
  {
    var rs := Built(specs, old_);
    assert forall i :: 0 <= i < |specs| ==> Specs(rs)[i].base == specs[i].base && Specs(rs)[i].size == specs[i].size;
    forall i, j | 0 <= i < j < |specs|
      ensures Specs(rs)[i].End() <= Specs(rs)[j].base
    {
      assert specs[i].End() <= specs[j].base;
    }
    forall i | 0 <= i < |specs|
      ensures Specs(rs)[i].Aligned() && Specs(rs)[i].End() < TWO64
    {
      assert specs[i].Aligned() && specs[i].End() < TWO64;
    }
  }

  // ---- Carving a range out of the specs ----------------------------------------------------

  // The stretch [lo, hi) as a spec, when it is not empty.
  function Piece(lo: nat, hi: nat, perms: Perms): seq<Spec> {
    if lo < hi then [Spec(lo, hi - lo, perms)] else []
  }

  function Max(a: nat, b: nat): nat { if a > b then a else b }

  function Min(a: nat, b: nat): nat { if a < b then a else b }

  // What is left of a spec when [ra, rb) is removed, or given new permissions.
  function CarveOne(s: Spec, ra: nat, rb: nat, np: Option<Perms>): seq<Spec> {
    if s.End() <= ra || s.base >= rb then [s]
    else Piece(s.base, ra, s.perms) + Middle(s, ra, rb, np) + Piece(rb, s.End(), s.perms)
  }

  function Middle(s: Spec, ra: nat, rb: nat, np: Option<Perms>): seq<Spec> {
    if np.Some? then Piece(Max(s.base, ra), Min(s.End(), rb), np.value) else []
  }

  function Carve(specs: seq<Spec>, ra: nat, rb: nat, np: Option<Perms>): seq<Spec> {
    if specs == [] then []
    else Carve(specs[..|specs| - 1], ra, rb, np) + CarveOne(specs[|specs| - 1], ra, rb, np)
  }

  lemma CarveOnePerm(s: Spec, ra: nat, rb: nat, np: Option<Perms>, a: int)
    requires ra < rb && s.size > 0
    ensures PermAt(CarveOne(s, ra, rb, np), a)
         == if !s.Covers(a) then None else if ra <= a < rb then np else Some(s.perms)
  {
    if ra < s.End() && s.base < rb {
      var left, mid, right := Piece(s.base, ra, s.perms), Middle(s, ra, rb, np), Piece(rb, s.End(), s.perms);
      PermAtConcat(left + mid, right, a);
      PermAtConcat(left, mid, a);
      PiecePerm(s.base, ra, s.perms, a);
      PiecePerm(rb, s.End(), s.perms, a);
      if np.Some? {
        PiecePerm(Max(s.base, ra), Min(s.End(), rb), np.value, a);
      }
    }
  }

  lemma PiecePerm(lo: nat, hi: nat, perms: Perms, a: int)
    ensures PermAt(Piece(lo, hi, perms), a) == if lo <= a < hi then Some(perms) else None
  {
    if lo < hi {
      assert Piece(lo, hi, perms)[..0] == [];
    }
  }

  // The permissions of an address after carving, from those before.
  function CarvedTo(p: Option<Perms>, a: int, addr: int, size: int, np: Option<Perms>): Option<Perms> {
    if p.None? then None else if In(a, addr, size) then np else p
  }

  /** Carving changes permissions exactly on the range, and nowhere else. */
  lemma {:induction false} CarvePerm(specs: seq<Spec>, ra: nat, rb: nat, np: Option<Perms>, a: int)
    requires ra < rb && Sound(specs)
    ensures PermAt(Carve(specs, ra, rb, np), a) == CarvedTo(PermAt(specs, a), a, ra, rb - ra, np)
  {
    if specs != [] {
      var n := |specs| - 1;
      CarvePerm(specs[..n], ra, rb, np, a);
      CarveOnePerm(specs[n], ra, rb, np, a);
      PermAtConcat(Carve(specs[..n], ra, rb, np), CarveOne(specs[n], ra, rb, np), a);
      if specs[n].Covers(a) && PermAt(specs[..n], a).Some? {
        var i := PermAtFound(specs[..n], a);
      }
    }
  }

  // Sound, and inside [lo, hi).
  ghost predicate Fits(xs: seq<Spec>, lo: int, hi: int) {
    Sound(xs) && forall i :: 0 <= i < |xs| ==> lo <= xs[i].base && xs[i].End() <= hi
  }

  lemma FitsConcat(xs: seq<Spec>, ys: seq<Spec>, lo: int, mid: int, hi: int)
    requires lo <= mid <= hi && Fits(xs, lo, mid) && Fits(ys, mid, hi)
    ensures Fits(xs + ys, lo, hi)
  {
  }

  lemma PieceFits(lo: nat, hi: nat, perms: Perms, from: int, to: int)
    requires lo < hi ==> hi < TWO64 && from <= lo && hi <= to
    ensures Fits(Piece(lo, hi, perms), from, to)
  {
  }

  lemma FitsThree(xs: seq<Spec>, ys: seq<Spec>, zs: seq<Spec>, lo: int, a: int, b: int, hi: int)
    requires lo <= a <= b <= hi && Fits(xs, lo, a) && Fits(ys, a, b) && Fits(zs, b, hi)
    ensures Fits(xs + ys + zs, lo, hi)
  {
    FitsConcat(xs, ys, lo, a, b);
    FitsConcat(xs + ys, zs, lo, b, hi);
  }

  lemma MiddleFits(s: Spec, ra: nat, rb: nat, np: Option<Perms>)
    requires s.End() < TWO64
    ensures Fits(Middle(s, ra, rb, np), Max(s.base, ra), Min(s.End(), rb))
  {
    if np.Some? {
      PieceFits(Max(s.base, ra), Min(s.End(), rb), np.value, Max(s.base, ra), Min(s.End(), rb));
    }
  }

  // Pieces of a spec lie within it, in order.
  lemma CarveOneFits(s: Spec, ra: nat, rb: nat, np: Option<Perms>)
    requires s.size > 0 && s.End() < TWO64 && ra < rb
    ensures Fits(CarveOne(s, ra, rb, np), s.base, s.End())
  {
    if ra < s.End() && s.base < rb {
      var lo, hi := Max(s.base, ra), Min(s.End(), rb);
      PieceFits(s.base, ra, s.perms, s.base, lo);
      PieceFits(rb, s.End(), s.perms, hi, s.End());
      MiddleFits(s, ra, rb, np);
      FitsThree(Piece(s.base, ra, s.perms), Middle(s, ra, rb, np), Piece(rb, s.End(), s.perms), s.base, lo, hi, s.End());
    }
  }

  lemma {:induction false} CarveSound(specs: seq<Spec>, ra: nat, rb: nat, np: Option<Perms>)
    requires Sound(specs) && ra < rb
    ensures Sound(Carve(specs, ra, rb, np))
    ensures forall x :: x in Carve(specs, ra, rb, np) ==> exists s :: s in specs && x.End() <= s.End()
  {
    if specs != [] {
      var n := |specs| - 1;
      var xs, ys := Carve(specs[..n], ra, rb, np), CarveOne(specs[n], ra, rb, np);
      CarveSound(specs[..n], ra, rb, np);
      CarveOneFits(specs[n], ra, rb, np);
      forall x | x in xs
        ensures x.End() <= specs[n].base
      {
        var s :| s in specs[..n] && x.End() <= s.End();
        var i :| 0 <= i < n && specs[i] == s;
        assert specs[i].End() <= specs[n].base;
      }
      SoundConcat(xs, ys, specs[n].base);
      assert specs[n] in specs;
    }
  }

  lemma SoundConcat(xs: seq<Spec>, ys: seq<Spec>, mid: nat)
    requires Sound(xs) && Sound(ys)
    requires forall x :: x in xs ==> x.End() <= mid
    requires forall y :: y in ys ==> mid <= y.base
    ensures Sound(xs + ys)
  {
  }

  lemma AlignedDifference(lo: nat, hi: nat)
    requires lo % PAGE == 0 && hi % PAGE == 0
    ensures (hi - lo) % PAGE == 0 && (hi + lo) % PAGE == 0
  {
  }

  lemma PiecePaged(lo: nat, hi: nat, perms: Perms)
    requires lo % PAGE == 0 && hi % PAGE == 0
    ensures Paged(Piece(lo, hi, perms))
  {
    AlignedDifference(lo, hi);
  }

  lemma CarveOnePaged(s: Spec, ra: nat, rb: nat, np: Option<Perms>)
    requires s.base % PAGE == 0 && s.size % PAGE == 0 && ra % PAGE == 0 && rb % PAGE == 0
    ensures Paged(CarveOne(s, ra, rb, np))
  {
    AlignedDifference(s.base, s.size);
    PiecePaged(s.base, ra, s.perms);
    PiecePaged(rb, s.End(), s.perms);
    if np.Some? {
      PiecePaged(Max(s.base, ra), Min(s.End(), rb), np.value);
    }
  }

  lemma {:induction false} CarvePaged(specs: seq<Spec>, ra: nat, rb: nat, np: Option<Perms>)
    requires Paged(specs) && ra % PAGE == 0 && rb % PAGE == 0
    ensures Paged(Carve(specs, ra, rb, np))
  {
    if specs != [] {
      var n := |specs| - 1;
      CarvePaged(specs[..n], ra, rb, np);
      CarveOnePaged(specs[n], ra, rb, np);
    }
  }

  /** Carving keeps the specs in order, apart and non-empty, and page-aligned if they were. */
  lemma CarveWellFormed(specs: seq<Spec>, ra: nat, rb: nat, np: Option<Perms>)
    requires WellFormed(specs) && ra < rb && ra % PAGE == 0 && rb % PAGE == 0
    ensures WellFormed(Carve(specs, ra, rb, np))
  {
    SoundAndPaged(specs);
    CarveSound(specs, ra, rb, np);
    CarvePaged(specs, ra, rb, np);
    SoundAndPaged(Carve(specs, ra, rb, np));
  }

  lemma WellFormedConcat(xs: seq<Spec>, ys: seq<Spec>, mid: nat)
    requires WellFormed(xs) && WellFormed(ys)
    requires forall x :: x in xs ==> x.End() <= mid
    requires forall y :: y in ys ==> mid <= y.base
    ensures WellFormed(xs + ys)
  {
  }

  // ---- Sorting in a new spec ---------------------------------------------------------------

  function SpecBase(s: Spec): int { s.base }

  // Stable insertion by base, as sort_by_key leaves an already sorted list with one more entry.
  function Insert(xs: seq<Spec>, s: Spec): seq<Spec> { InsertBy(SpecBase, xs, s) }

  function Sort(xs: seq<Spec>): seq<Spec> { SortBy(SpecBase, xs) }

  lemma SortSorted(xs: seq<Spec>)
    requires Disjoint(xs) && forall i :: 0 <= i < |xs| ==> xs[i].size > 0
    ensures Sort(xs) == xs
  {
    SortSame(SpecBase, xs);
  }

  ghost predicate Free(specs: seq<Spec>, s: Spec) {
    forall a :: s.Covers(a) ==> PermAt(specs, a).None?
  }

  lemma {:induction false} InsertPosition(xs: seq<Spec>, s: Spec) returns (k: nat)
    requires Sound(xs)
    ensures k <= |xs| && Insert(xs, s) == xs[..k] + [s] + xs[k..]
    ensures forall i :: 0 <= i < k ==> xs[i].base <= s.base
    ensures forall i :: k <= i < |xs| ==> s.base < xs[i].base
  {
    if xs == [] || xs[|xs| - 1].base <= s.base {
      k := |xs|;
    } else {
      var n := |xs| - 1;
      k := InsertPosition(xs[..n], s);
      SpliceLast(xs, k, s);
    }
  }

  lemma SpliceLast(xs: seq<Spec>, k: nat, s: Spec)
    requires xs != [] && k <= |xs| - 1
    ensures var n := |xs| - 1;
      (xs[..n][..k] + [s] + xs[..n][k..]) + [xs[n]] == xs[..k] + [s] + xs[k..]
  {
  }

  // Where the new region goes, its neighbours stop short of it exactly when it is free.
  lemma FreeBetween(xs: seq<Spec>, s: Spec, k: nat)
    requires WellFormed(xs) && s.Aligned() && k <= |xs|
    requires forall i :: 0 <= i < k ==> xs[i].base <= s.base
    requires forall i :: k <= i < |xs| ==> s.base < xs[i].base
    requires Free(xs, s)
    ensures forall i :: 0 <= i < k ==> xs[i].End() <= s.base
    ensures forall i :: k <= i < |xs| ==> s.End() <= xs[i].base
  {
    forall i | 0 <= i < k
      ensures xs[i].End() <= s.base
    {
      if s.base < xs[i].End() {
        assert s.Covers(s.base);
        PermAtCovering(xs, i, s.base);
      }
    }
    forall i | k <= i < |xs|
      ensures s.End() <= xs[i].base
    {
      if xs[i].base < s.End() {
        assert s.Covers(xs[i].base) && xs[i].Aligned();
        PermAtCovering(xs, i, xs[i].base);
      }
    }
  }

  /** A new region fits between the old ones exactly when every address of it is free. */
  lemma InsertFits(xs: seq<Spec>, s: Spec)
    requires WellFormed(xs) && s.Aligned() && s.End() < TWO64
    ensures WellFormed(Insert(xs, s)) <==> Free(xs, s)
  {
    var k := InsertPosition(xs, s);
    var out := Insert(xs, s);
    if Free(xs, s) {
      FreeBetween(xs, s, k);
      WellFormedBetween(xs, s, k);
    } else {
      var a :| s.Covers(a) && PermAt(xs, a).Some?;
      var i := PermAtFound(xs, a);
      assert out[k] == s && out[if i < k then i else i + 1] == xs[i];
    }
  }

  lemma WellFormedBetween(xs: seq<Spec>, s: Spec, k: nat)
    requires WellFormed(xs) && s.Aligned() && s.End() < TWO64 && k <= |xs|
    requires forall i :: 0 <= i < k ==> xs[i].End() <= s.base
    requires forall i :: k <= i < |xs| ==> s.End() <= xs[i].base
    ensures WellFormed(xs[..k] + [s] + xs[k..])
  {
    WellFormedConcat(xs[..k], [s], s.base);
    WellFormedConcat(xs[..k] + [s], xs[k..], s.End());
  }

  lemma InsertPerm(xs: seq<Spec>, s: Spec, a: int)
    requires WellFormed(xs) && Free(xs, s)
    ensures PermAt(Insert(xs, s), a) == if s.Covers(a) then Some(s.perms) else PermAt(xs, a)
  {
    var k := InsertPosition(xs, s);
    assert xs == xs[..k] + xs[k..];
    PermAtConcat(xs[..k], xs[k..], a);
    PermAtConcat(xs[..k] + [s], xs[k..], a);
    PermAtConcat(xs[..k], [s], a);
  }

  // ---- The engine --------------------------------------------------------------------------

  ghost predicate RangeCovered(rs: seq<Region>, addr: int, len: int)
    requires Backed(rs)
  {
    forall a :: addr <= a < addr + len ==> Lookup(rs, a).Some?
  }

  ghost predicate AllIn(v: Flat, addr: int, len: int) {
    forall a :: In(a, addr, len) ==> a in v
  }

  lemma CoveredIsAllIn(rs: seq<Region>, addr: int, len: int)
    requires Solid(rs)
    ensures RangeCovered(rs, addr, len) <==> AllIn(View(rs), addr, len)
  {
    forall a
      ensures a in View(rs) <==> Lookup(rs, a).Some?
    {
      ViewAt(rs, a);
    }
    if AllIn(View(rs), addr, len) {
      forall a | addr <= a < addr + len
        ensures Lookup(rs, a).Some?
      {
        assert In(a, addr, len);
      }
    }
  }

  // An address that ends before every region after i begins, and after every region before i ends.
  lemma GapUncovered(rs: seq<Region>, i: nat, a: int)
    requires Ordered(rs) && i <= |rs|
    requires forall j :: 0 <= j < i ==> rs[j].spec.End() <= a
    requires i < |rs| ==> a < rs[i].spec.base
    ensures Lookup(rs, a).None?
  {
    LookupPerms(rs, a);
    var specs := Specs(rs);
    assert i < |rs| ==> forall j :: i < j < |rs| ==> specs[i].End() <= specs[j].base;
    assert forall j :: 0 <= j < i ==> specs[j].End() <= a;
    if PermAt(specs, a).Some? {
      var j := PermAtFound(specs, a);
    }
  }

  lemma AboveAllUncovered(rs: seq<Region>, a: int)
    requires Ordered(rs) && a >= TWO64 - 1
    ensures Lookup(rs, a).None?
  {
    LookupPerms(rs, a);
    if PermAt(Specs(rs), a).Some? {
      var j := PermAtFound(Specs(rs), a);
    }
  }

  // Some spec has no old region with its base and size, so its backing must be allocated.
  ghost predicate NeedsBacking(specs: seq<Spec>, rs: seq<Region>) {
    exists i :: 0 <= i < |specs| && Unbacked(specs[i], rs)
  }

  ghost predicate Unbacked(s: Spec, rs: seq<Region>) {
    forall j :: 0 <= j < |rs| ==> rs[j].spec.base != s.base || rs[j].spec.size != s.size
  }

  // How rebuilding from well-formed specs ends.
  ghost function RebuildStatus(specs: seq<Spec>, rs: seq<Region>, host: Host): Status {
    if NeedsBacking(specs, rs) && !host.alloc then NoMem
    else if (NeedsBacking(specs, rs) || |specs| != |rs|) && !host.rebuild then Fault
    else Ok
  }

  lemma ReusedBytes(rs: seq<Region>, i: nat, s: Spec)
    requires Solid(rs) && i < |rs| && rs[i].spec.base == s.base && rs[i].spec.size == s.size
    ensures rs[i].data == BuiltRegion(s, rs).data
  {
    SolidIsOrdered(rs);
    forall k | 0 <= k < s.size
      ensures rs[i].data[k] == ByteOrZero(rs, s.base + k)
    {
      LookupCovering(rs, i, s.base + k);
    }
  }

  // ---- What each operation does to the flat view -------------------------------------------

  function MaskedCell(c: Cell): Cell { Cell(c.byte, Masked(c.perms)) }

  predicate In(a: int, addr: int, size: int) { addr <= a < addr + size }

  ghost function MapFlat(v: map<int, Cell>, addr: u64, size: u64, perms: Perms): map<int, Cell> {
    map a | 0 <= a < TWO64 && (a in v || In(a, addr, size)) ::
      if In(a, addr, size) then Cell(0, Masked(perms)) else MaskedCell(v[a])
  }

  ghost function UnmapFlat(v: map<int, Cell>, addr: u64, size: u64): map<int, Cell> {
    map a | a in v && !In(a, addr, size) :: MaskedCell(v[a])
  }

  ghost function ProtectFlat(v: map<int, Cell>, addr: u64, size: u64, perms: Perms): map<int, Cell> {
    map a | a in v :: Cell(v[a].byte, Masked(if In(a, addr, size) then perms else v[a].perms))
  }

  lemma ViewAt(rs: seq<Region>, a: int)
    requires Solid(rs)
    ensures a in View(rs) <==> Lookup(rs, a).Some?
    ensures a in View(rs) ==> View(rs)[a] == Lookup(rs, a).value
  {
    LookupPerms(rs, a);
    if PermAt(Specs(rs), a).Some? {
      var i := PermAtFound(Specs(rs), a);
      assert Specs(rs)[i].End() < TWO64;
    }
  }

  // A flat memory with the given permissions: bytes that were mapped survive, the rest are zero.
  ghost function Reshape(v: map<int, Cell>, perm: int -> Option<Perms>): map<int, Cell> {
    map a | 0 <= a < TWO64 && perm(a).Some? ::
      Cell(if a in v then v[a].byte else 0, Masked(perm(a).value))
  }

  lemma BuiltViewAt(specs: seq<Spec>, rs: seq<Region>, perm: int -> Option<Perms>, a: int)
    requires Solid(rs) && WellFormed(specs)
    requires forall x :: perm(x) == PermAt(specs, x)
    ensures a in View(Built(specs, rs)) <==> a in Reshape(View(rs), perm)
    ensures a in View(Built(specs, rs)) ==> View(Built(specs, rs))[a] == Reshape(View(rs), perm)[a]
  {
    BuiltIsValid(specs, rs);
    ValidIsSolid(Built(specs, rs));
    ViewAt(Built(specs, rs), a);
    ViewAt(rs, a);
    LookupBuilt(specs, rs, a);
  }

  lemma BuiltView(specs: seq<Spec>, rs: seq<Region>, perm: int -> Option<Perms>)
    requires Solid(rs) && WellFormed(specs)
    requires forall x :: perm(x) == PermAt(specs, x)
    ensures View(Built(specs, rs)) == Reshape(View(rs), perm)
  {
    var got, want := View(Built(specs, rs)), Reshape(View(rs), perm);
    forall a
      ensures (a in got <==> a in want) && (a in got ==> got[a] == want[a])
    {
      BuiltViewAt(specs, rs, perm, a);
    }
  }

  // The permissions a flat memory gives an address.
  ghost function FlatPerm(v: map<int, Cell>, a: int): Option<Perms> {
    if a in v then Some(v[a].perms) else None
  }

  lemma PermOfView(rs: seq<Region>, a: int)
    requires Solid(rs)
    ensures PermAt(Specs(rs), a) == FlatPerm(View(rs), a)
  {
    ViewAt(rs, a);
    LookupPerms(rs, a);
  }

  lemma FreeIsUnmapped(rs: seq<Region>, s: Spec)
    requires Backed(rs)
    ensures Free(Specs(rs), s) <==> forall a :: s.Covers(a) ==> Lookup(rs, a).None?
  {
    forall a
      ensures Lookup(rs, a).Some? <==> PermAt(Specs(rs), a).Some?
    {
      LookupPerms(rs, a);
    }
  }

  lemma MapReshape(v: map<int, Cell>, base: int -> Option<Perms>, perm: int -> Option<Perms>,
                   addr: u64, size: u64, perms: Perms)
    requires addr + size < TWO64
    requires forall a :: a in v ==> 0 <= a < TWO64
    requires forall a :: base(a) == FlatPerm(v, a)
    requires forall a :: In(a, addr, size) ==> base(a).None?
    requires forall a :: perm(a) == if In(a, addr, size) then Some(Masked(perms)) else base(a)
    ensures Reshape(v, perm) == MapFlat(v, addr, size, perms)
  {
    MaskedTwice(perms);
  }

  lemma CarveReshape(v: map<int, Cell>, base: int -> Option<Perms>, perm: int -> Option<Perms>,
                     addr: u64, size: u64, np: Option<Perms>)
    requires forall a :: a in v ==> 0 <= a < TWO64
    requires forall a :: base(a) == FlatPerm(v, a)
    requires forall a :: perm(a) == CarvedTo(base(a), a, addr, size, np)
    ensures np.None? ==> Reshape(v, perm) == UnmapFlat(v, addr, size)
    ensures np.Some? ==> Reshape(v, perm) == ProtectFlat(v, addr, size, np.value)
  {
  }

  lemma MapView(rs: seq<Region>, addr: u64, size: u64, perms: Perms)
    requires ValidMap(rs) && addr + size < TWO64
    requires Spec(addr, size, Masked(perms)).Aligned() && Free(Specs(rs), Spec(addr, size, Masked(perms)))
    ensures View(Built(Insert(Specs(rs), Spec(addr, size, Masked(perms))), rs)) == MapFlat(View(rs), addr, size, perms)
  {
    var s := Spec(addr, size, Masked(perms));
    var specs := Insert(Specs(rs), s);
    InsertFits(Specs(rs), s);
    var base, perm := a => PermAt(Specs(rs), a), a => PermAt(specs, a);
    forall a
      ensures perm(a) == if In(a, addr, size) then Some(Masked(perms)) else base(a)
      ensures In(a, addr, size) ==> base(a).None?
    {
      InsertPerm(Specs(rs), s, a);
      assert s.Covers(a) <==> In(a, addr, size);
    }
    forall a
      ensures base(a) == FlatPerm(View(rs), a)
    {
      PermOfView(rs, a);
    }
    BuiltView(specs, rs, perm);
    MapReshape(View(rs), base, perm, addr, size, perms);
  }

  lemma CarvedWellFormed(rs: seq<Region>, addr: u64, size: u64, np: Option<Perms>)
    requires ValidMap(rs) && size > 0 && addr % PAGE == 0 && size % PAGE == 0
    ensures WellFormed(Carve(Specs(rs), addr, addr + size, np))
  {
    AlignedDifference(addr, size);
    CarveWellFormed(Specs(rs), addr, addr + size, np);
  }

  lemma CarveView(rs: seq<Region>, specs: seq<Spec>, addr: u64, size: u64, np: Option<Perms>)
    requires Solid(rs) && WellFormed(specs)
    requires forall a {:trigger PermAt(specs, a)} :: PermAt(specs, a) == CarvedTo(PermAt(Specs(rs), a), a, addr, size, np)
    ensures np.None? ==> View(Built(specs, rs)) == UnmapFlat(View(rs), addr, size)
    ensures np.Some? ==> View(Built(specs, rs)) == ProtectFlat(View(rs), addr, size, np.value)
  {
    var base, perm := a => PermAt(Specs(rs), a), a => PermAt(specs, a);
    forall a
      ensures base(a) == FlatPerm(View(rs), a)
    {
      PermOfView(rs, a);
    }
    BuiltView(specs, rs, perm);
    CarveReshape(View(rs), base, perm, addr, size, np);
  }

  predicate BadRange(addr: u64, size: u64) { size == 0 || addr % PAGE != 0 || size % PAGE != 0 }

  lemma InsertAligned(xs: seq<Spec>, s: Spec)
    requires WellFormed(xs) && s.Aligned() && s.End() < TWO64
    ensures AllAligned(Insert(xs, s))
  {
    var k := InsertPosition(xs, s);
    forall i | 0 <= i < |Insert(xs, s)|
      ensures Insert(xs, s)[i].Aligned() && Insert(xs, s)[i].End() < TWO64
    {
      if i != k {
        assert Insert(xs, s)[i] == xs[if i < k then i else i - 1];
      }
    }
  }

  // A region on free addresses needs a backing of its own.
  lemma NewNeedsBacking(rs: seq<Region>, s: Spec)
    requires ValidMap(rs) && s.Aligned() && s.End() < TWO64 && Free(Specs(rs), s)
    ensures NeedsBacking(Insert(Specs(rs), s), rs)
  {
    var k := InsertPosition(Specs(rs), s);
    assert Insert(Specs(rs), s)[k] == s;
    forall j | 0 <= j < |rs|
      ensures rs[j].spec.base != s.base || rs[j].spec.size != s.size
    {
      if rs[j].spec.base == s.base && rs[j].spec.size == s.size {
        PermAtCovering(Specs(rs), j, s.base);
        assert s.Covers(s.base);
      }
    }
    assert Unbacked(Insert(Specs(rs), s)[k], rs);
  }

  ghost predicate NothingLeft(rs: seq<Region>, addr: u64, size: u64)
    requires Backed(rs)
  {
    forall a :: Lookup(rs, a).Some? ==> In(a, addr, size)
  }

  /** Adding a spec to a map: the sorted list is well formed exactly when its addresses were free, and
      then it stands for the map with zeroed bytes added. */
  lemma MapApplied(rs: seq<Region>, addr: u64, size: u64, perms: Perms)
    requires ValidMap(rs) && !BadRange(addr, size) && addr + size < TWO64
    ensures var specs := Sort(Specs(rs) + [Spec(addr, size, Masked(perms))]);
      AllAligned(specs) && (WellFormed(specs) <==> !exists a :: In(a, addr, size) && Lookup(rs, a).Some?)
    ensures var specs := Sort(Specs(rs) + [Spec(addr, size, Masked(perms))]);
      WellFormed(specs) ==> NeedsBacking(specs, rs) && MappedAs(specs, rs, MapFlat(View(rs), addr, size, perms))
  {
    var s := Spec(addr, size, Masked(perms));
    SortedInsert(rs, s);
    InsertFits(Specs(rs), s);
    InsertAligned(Specs(rs), s);
    FreeIsUnmapped(rs, s);
    assert forall a :: s.Covers(a) <==> In(a, addr, size);
    if Free(Specs(rs), s) {
      NewNeedsBacking(rs, s);
      MapView(rs, addr, size, perms);
      BuiltIsValid(Insert(Specs(rs), s), rs);
      InsertLength(SpecBase, Specs(rs), s);
    }
  }

  ghost predicate MappedAs(specs: seq<Spec>, rs: seq<Region>, flat: map<int, Cell>)
    requires Backed(rs)
  {
    ValidMap(Built(specs, rs)) && Built(specs, rs) != [] && View(Built(specs, rs)) == flat
  }

  lemma SortedInsert(rs: seq<Region>, s: Spec)
    requires Solid(rs)
    ensures Sort(Specs(rs) + [s]) == Insert(Specs(rs), s)
  {
    var specs := Specs(rs) + [s];
    SortSorted(Specs(rs));
    assert specs[..|specs| - 1] == Specs(rs);
  }

  // The first fault of a sorted list from spec i on, when the one before ends at `prevEnd`.
  function FaultFrom(specs: seq<Spec>, i: nat, prevEnd: nat): Status
    requires i <= |specs|
    decreases |specs| - i
  {
    if i == |specs| then (if specs == [] then Map else Ok)
    else if !specs[i].Aligned() then Arg
    else if specs[i].End() >= TWO64 then Bounds
    else if specs[i].base < prevEnd then Map
    else FaultFrom(specs, i + 1, specs[i].End())
  }

  /** A well-formed list has no fault. */
  lemma {:induction false} Faultless(specs: seq<Spec>, i: nat, prevEnd: nat)
    requires WellFormed(specs) && specs != [] && i <= |specs|
    requires prevEnd == if i == 0 then 0 else specs[i - 1].End()
    ensures FaultFrom(specs, i, prevEnd) == Ok
    decreases |specs| - i
  {
    if i < |specs| {
      Faultless(specs, i + 1, specs[i].End());
    }
  }

  // How applying a list of specs ends.
  ghost function AppliedStatus(specs: seq<Spec>, rs: seq<Region>, host: Host): Status {
    if FaultFrom(specs, 0, 0) != Ok then FaultFrom(specs, 0, 0) else RebuildStatus(specs, rs, host)
  }

  // How each operation ends on an aligned map, in terms of the addresses mapped.
  ghost function MapStatus(rs: seq<Region>, addr: u64, size: u64, host: Host): Status
    requires Backed(rs)
  {
    if BadRange(addr, size) then Arg
    else if addr + size >= TWO64 then Bounds
    else if exists a :: In(a, addr, size) && Lookup(rs, a).Some? then Map
    else if !host.alloc then NoMem else if !host.rebuild then Fault else Ok
  }

  ghost function UnmapStatus(rs: seq<Region>, addr: u64, size: u64, host: Host): Status
    requires Backed(rs)
  {
    if BadRange(addr, size) then Arg
    else if !RangeCovered(rs, addr, size) || NothingLeft(rs, addr, size) then Map
    else AppliedStatus(Carve(Specs(rs), addr, addr + size, None), rs, host)
  }

  ghost function ProtectStatus(rs: seq<Region>, addr: u64, size: u64, perms: Perms, host: Host): Status
    requires Backed(rs)
  {
    if BadRange(addr, size) then Arg
    else if !RangeCovered(rs, addr, size) then Map
    else AppliedStatus(Carve(Specs(rs), addr, addr + size, Some(Masked(perms))), rs, host)
  }

  // With an unaligned spec in it, a list is not well formed wherever a new one is sorted in.
  lemma InsertKeepsFault(xs: seq<Spec>, s: Spec)
    requires Sound(xs) && !Paged(xs)
    ensures !WellFormed(Insert(xs, s))
  {
    var k := InsertPosition(xs, s);
    var i :| 0 <= i < |xs| && !(xs[i].base % PAGE == 0 && xs[i].size % PAGE == 0);
    assert Insert(xs, s)[if i < k then i else i + 1] == xs[i];
  }

  // The specs are carved to nothing exactly when nothing stays mapped.
  lemma CarvedToNothing(specs: seq<Spec>, ra: nat, rb: nat, carved: seq<Spec>)
    requires Sound(specs) && ra < rb && carved == Carve(specs, ra, rb, None)
    ensures carved == [] <==> forall a :: PermAt(specs, a).Some? ==> ra <= a < rb
  {
    CarveSound(specs, ra, rb, None);
    if carved != [] {
      var a := carved[0].base;
      assert carved[0].Covers(a);
      PermAtCovering(carved, 0, a);
      CarvePerm(specs, ra, rb, None, a);
    } else {
      forall a | PermAt(specs, a).Some?
        ensures ra <= a < rb
      {
        CarvePerm(specs, ra, rb, None, a);
      }
    }
  }

  lemma NothingLeftIs(rs: seq<Region>, addr: u64, size: u64)
    requires Backed(rs)
    ensures NothingLeft(rs, addr, size) <==> forall a :: PermAt(Specs(rs), a).Some? ==> addr <= a < addr + size
  {
    if NothingLeft(rs, addr, size) {
      forall a | PermAt(Specs(rs), a).Some?
        ensures addr <= a < addr + size
      {
        LookupPerms(rs, a);
        assert In(a, addr, size);
      }
    } else {
      var a :| Lookup(rs, a).Some? && !In(a, addr, size);
      LookupPerms(rs, a);
    }
  }

  lemma UnmapsEverything(rs: seq<Region>, addr: u64, size: u64, out: seq<Spec>)
    requires Solid(rs) && size > 0 && out == Carve(Specs(rs), addr, addr + size, None)
    ensures out == [] <==> NothingLeft(rs, addr, size)
  {
    CarvedToNothing(Specs(rs), addr, addr + size, out);
    NothingLeftIs(rs, addr, size);
  }

  lemma CarveSorted(rs: seq<Region>, addr: u64, size: u64, np: Option<Perms>, specs: seq<Spec>)
    requires Solid(rs) && !BadRange(addr, size)
    requires specs == Carve(Specs(rs), addr, addr + size, np)
    ensures Sort(specs) == specs && Sound(specs)
    ensures ValidMap(rs) ==> WellFormed(specs)
  {
    CarveSound(Specs(rs), addr, addr + size, np);
    SortSorted(specs);
    if ValidMap(rs) {
      CarvedWellFormed(rs, addr, size, np);
    }
  }

  // What a carved, rebuilt map looks like.
  ghost function CarveFlat(v: map<int, Cell>, addr: u64, size: u64, np: Option<Perms>): map<int, Cell> {
    if np.None? then UnmapFlat(v, addr, size) else ProtectFlat(v, addr, size, np.value)
  }

  lemma CarvePerms(specs: seq<Spec>, addr: u64, size: u64, np: Option<Perms>, carved: seq<Spec>)
    requires Sound(specs) && size > 0 && carved == Carve(specs, addr, addr + size, np)
    ensures forall a {:trigger PermAt(carved, a)} :: PermAt(carved, a) == CarvedTo(PermAt(specs, a), a, addr, size, np)
  {
    forall a
      ensures PermAt(carved, a) == CarvedTo(PermAt(specs, a), a, addr, size, np)
    {
      CarvePerm(specs, addr, addr + size, np, a);
    }
  }

  /** A carved list is in order; when it is well formed, as it always is for an aligned map, it stands for the
      flat memory with the range carved out. */
  lemma CarveApplied(rs: seq<Region>, addr: u64, size: u64, np: Option<Perms>, specs: seq<Spec>)
    requires Solid(rs) && !BadRange(addr, size)
    requires specs == Carve(Specs(rs), addr, addr + size, np)
    ensures Sort(specs) == specs && (ValidMap(rs) ==> WellFormed(specs))
    ensures WellFormed(specs) ==>
      ValidMap(Built(specs, rs)) && View(Built(specs, rs)) == CarveFlat(View(rs), addr, size, np)
  {
    CarveSorted(rs, addr, size, np, specs);
    CarvePerms(Specs(rs), addr, size, np, specs);
    if WellFormed(specs) {
      CarveView(rs, specs, addr, size, np);
      BuiltIsValid(specs, rs);
    }
  }

  // Giving a covered range permissions leaves something mapped.
  lemma ProtectedNonEmpty(specs: seq<Spec>, ra: nat, rb: nat, p: Perms)
    requires specs != [] && Sound(specs) && ra < rb
    ensures Carve(specs, ra, rb, Some(p)) != []
  {
    var n := |specs| - 1;
    var a := specs[n].base;
    assert specs[n].Covers(a);
    CarvePerm(specs, ra, rb, Some(p), a);
  }

  class Engine {
    var regions: seq<Region>

    /** Exact: true just when every address of the range lies in some region, however many adjacent
        regions it spans and even when its end overflows. */
    method RangeMapped(addr: u64, len: u64) returns (r: bool)
      requires Ordered(regions)
      ensures r <==> RangeCovered(regions, addr, len)
    {
      if len == 0 {
        return true;
      }
      if addr + len >= TWO64 {
        AboveAllUncovered(regions, TWO64 - 1);
        return false;
      }
      var end := addr + len;
      var cur: nat := addr;
      for i := 0 to |regions|
        invariant addr <= cur < end
        invariant forall j :: 0 <= j < i ==> regions[j].spec.End() <= cur
        invariant forall a :: addr <= a < cur ==> Lookup(regions, a).Some?
      {
        var s := regions[i].spec;
        if s.End() <= cur {
          continue;
        }
        if s.base > cur {
          GapUncovered(regions, i, cur);
          return false;
        }
        forall a | cur <= a < s.End()
          ensures Lookup(regions, a).Some?
        {
          LookupCovering(regions, i, a);
        }
        if s.End() >= end {
          return true;
        }
        cur := s.End();
        assert forall j :: 0 <= j < i ==> Specs(regions)[j].End() <= Specs(regions)[i].base;
      }
      GapUncovered(regions, |regions|, cur);
      return cur >= end;
    }

    // Alignment, size and overlap of a sorted spec list.
    method Validate(specs: seq<Spec>) returns (st: Status)
      ensures st == Ok <==> WellFormed(specs) && specs != []
      ensures st == FaultFrom(specs, 0, 0)
      ensures AllAligned(specs) ==> st == Ok || st == Map
    {
      var prevEnd: nat := 0;
      for i := 0 to |specs|
        invariant i == 0 ==> prevEnd == 0
        invariant i > 0 ==> prevEnd == specs[i - 1].End()
        invariant FaultFrom(specs, 0, 0) == FaultFrom(specs, i, prevEnd)
        invariant WellFormed(specs[..i])
        invariant forall j :: 0 <= j < i ==> specs[j].End() <= prevEnd
      {
        var s := specs[i];
        assert specs[..i + 1] == specs[..i] + [s];
        if s.size == 0 || s.base % PAGE != 0 || s.size % PAGE != 0 {
          return Arg;
        }
        if s.base + s.size >= TWO64 {
          return Bounds;
        }
        if s.base < prevEnd {
          return Map;
        }
        WellFormedConcat(specs[..i], [s], s.base);
        prevEnd := s.base + s.size;
      }
      assert specs[..|specs|] == specs;
      if specs == [] {
        return Map;
      }
      return Ok;
    }

    // The bytes of a fresh backing: zeros, overlaid by every old region it meets.
    method Overlay(s: Spec) returns (data: seq<Dma.byte>)
      requires Solid(regions)
      ensures data == BuiltRegion(s, regions).data
    {
      data := seq(s.size, _ => 0);
      for k := 0 to |regions|
        invariant |data| == s.size
        invariant forall o :: 0 <= o < s.size ==> data[o] == ByteOrZero(regions[..k], s.base + o)
      {
        var o := regions[k];
        var lo := if s.base > o.spec.base then s.base else o.spec.base;
        var hi := if s.End() < o.spec.End() then s.End() else o.spec.End();
        assert regions[..k + 1][..k] == regions[..k];
        if lo < hi {
          var tmp := o.data[lo - o.spec.base..hi - o.spec.base];
          data := data[..lo - s.base] + tmp + data[hi - s.base..];
        }
      }
      assert regions[..|regions|] == regions;
    }

    // Reuse the backing of an unchanged region, by index, or none.
    method FindBacking(s: Spec) returns (i: nat)
      ensures i < |regions| ==> regions[i].spec.base == s.base && regions[i].spec.size == s.size
      ensures i >= |regions| <==> Unbacked(s, regions)
    {
      i := 0;
      while i < |regions|
        invariant i <= |regions|
        invariant forall j :: 0 <= j < i ==> regions[j].spec.base != s.base || regions[j].spec.size != s.size
      {
        if regions[i].spec.base == s.base && regions[i].spec.size == s.size {
          return;
        }
        i := i + 1;
      }
    }

    // New regions for the specs, with the old backings where base and size are unchanged and zeros
    // at the indices in `freshIdx`.
    method BuildRegions(specs: seq<Spec>, host: Host) returns (st: Status, rs: seq<Region>, freshIdx: seq<nat>)
      requires Solid(regions)
      ensures st == if NeedsBacking(specs, regions) && !host.alloc then NoMem else Ok
      ensures st == Ok ==> (freshIdx == [] <==> !NeedsBacking(specs, regions))
      ensures st == Ok ==> |rs| == |specs|
      ensures st == Ok ==> forall i :: 0 <= i < |specs| ==> rs[i].spec == BuiltRegion(specs[i], regions).spec
      ensures st == Ok ==> forall i :: 0 <= i < |specs| && i !in freshIdx ==> rs[i] == BuiltRegion(specs[i], regions)
      ensures st == Ok ==> forall i :: i in freshIdx ==> i < |specs|
    {
      st, rs, freshIdx := Ok, [], [];
      for i := 0 to |specs|
        invariant |rs| == i && st == Ok
        invariant freshIdx == [] <==> forall j :: 0 <= j < i ==> !Unbacked(specs[j], regions)
        invariant freshIdx != [] ==> host.alloc
        invariant forall j :: 0 <= j < i ==> rs[j].spec == BuiltRegion(specs[j], regions).spec
        invariant forall j :: 0 <= j < i && j !in freshIdx ==> rs[j] == BuiltRegion(specs[j], regions)
        invariant forall j :: j in freshIdx ==> j < i
      {
        var s := specs[i];
        var k := FindBacking(s);
        var named := Spec(s.base, s.size, Masked(s.perms));
        if k < |regions| {
          ReusedBytes(regions, k, s);
          rs := rs + [Region(named, regions[k].data)];
        } else {
          if !host.alloc {
            return NoMem, rs, freshIdx;
          }
          rs := rs + [Region(named, [])];
          freshIdx := freshIdx + [i];
        }
      }
    }

    method FillFresh(specs: seq<Spec>, built: seq<Region>, freshIdx: seq<nat>) returns (rs: seq<Region>)
      requires Solid(regions) && |built| == |specs|
      requires forall i :: 0 <= i < |specs| ==> built[i].spec == BuiltRegion(specs[i], regions).spec
      requires forall i :: 0 <= i < |specs| && i !in freshIdx ==> built[i] == BuiltRegion(specs[i], regions)
      requires forall i :: i in freshIdx ==> i < |specs|
      ensures rs == Built(specs, regions)
    {
      rs := built;
      for k := 0 to |freshIdx|
        invariant |rs| == |specs|
        invariant forall i :: 0 <= i < |specs| ==> rs[i].spec == BuiltRegion(specs[i], regions).spec
        invariant forall i :: 0 <= i < |specs| && i !in freshIdx[k..] ==> rs[i] == BuiltRegion(specs[i], regions)
      {
        var i := freshIdx[k];
        assert freshIdx[k..] == [i] + freshIdx[k + 1..] && i in freshIdx;
        var data := Overlay(specs[i]);
        rs := rs[i := Region(rs[i].spec, data)];
      }
    }

    /** Rebuild the map from specs.  It fails before anything is changed, and succeeds with the map
        the specs describe over the bytes that were there. */
    method ApplySpecs(unsorted: seq<Spec>, host: Host) returns (st: Status)
      requires Solid(regions)
      modifies this
      ensures st == Ok ==> regions == Built(Sort(unsorted), old(regions))
      ensures st != Ok ==> regions == old(regions)
      ensures st == Ok ==> WellFormed(Sort(unsorted)) && unsorted != []
      ensures st == AppliedStatus(Sort(unsorted), old(regions), host)
      ensures WellFormed(Sort(unsorted)) && unsorted != [] ==>
        st == RebuildStatus(Sort(unsorted), old(regions), host)
      ensures AllAligned(Sort(unsorted)) && !WellFormed(Sort(unsorted)) ==> st == Map
    {
      var specs := Sort(unsorted);
      SortLength(SpecBase, unsorted);
      st := Validate(specs);
      if st != Ok {
        return;
      }
      var built, freshIdx;
      st, built, freshIdx := BuildRegions(specs, host);
      if st != Ok {
        return;
      }
      if freshIdx == [] && |built| == |regions| {
        assert built == Built(specs, regions);
        regions := built;
        return;
      }
      var rs := FillFresh(specs, built, freshIdx);
      if !host.rebuild {
        return Fault;
      }
      regions := rs;
    }

    ghost predicate Valid()
      reads this
    {
      ValidMap(regions) && regions != []
    }

    // Aligned or not: the map of a restored context.
    ghost predicate Usable()
      reads this
    {
      Solid(regions) && regions != []
    }

    /** Map a new region: zeroed bytes with the given permissions on addresses that were all free;
        any failure leaves the map as it was.  On a map with an unaligned region every call fails. */
    method DoMap(addr: u64, size: u64, perms: Perms, host: Host) returns (st: Status)
      requires Usable()
      modifies this
      ensures Usable() && (old(Valid()) ==> Valid()) && (st == Ok ==> Valid())
      ensures old(Valid()) ==> st == MapStatus(old(regions), addr, size, host)
      ensures !old(Valid()) ==> st != Ok
      ensures st == if BadRange(addr, size) then Arg else if addr + size >= TWO64 then Bounds
                    else AppliedStatus(Sort(Specs(old(regions)) + [Spec(addr, size, Masked(perms))]), old(regions), host)
      ensures st != Ok ==> regions == old(regions)
      ensures st == Ok ==> View(regions) == MapFlat(old(View(regions)), addr, size, perms)
    {
      ValidIsSolid(regions);
      if size == 0 || addr % PAGE != 0 || size % PAGE != 0 {
        return Arg;
      }
      if addr + size >= TWO64 {
        return Bounds;
      }
      var specs := Specs(regions) + [Spec(addr, size, Masked(perms))];
      if ValidMap(regions) {
        MapApplied(regions, addr, size, perms);
      } else {
        SortedInsert(regions, Spec(addr, size, Masked(perms)));
        InsertKeepsFault(Specs(regions), Spec(addr, size, Masked(perms)));
      }
      st := ApplySpecs(specs, host);
      ValidIsSolid(regions);
    }

    // The loop bodies: the pieces one region leaves.
    method UnmapPieces(s: Spec, ra: nat, rb: nat) returns (out: seq<Spec>)
      ensures out == CarveOne(s, ra, rb, None)
    {
      out := [];
      if s.End() <= ra || s.base >= rb {
        return [s];
      }
      if s.base < ra {
        out := out + [Spec(s.base, ra - s.base, s.perms)];
      }
      if rb < s.End() {
        out := out + [Spec(rb, s.End() - rb, s.perms)];
      }
    }

    method ProtectPieces(s: Spec, ra: nat, rb: nat, np: Perms) returns (out: seq<Spec>)
      requires ra < rb && s.size > 0
      ensures out == CarveOne(s, ra, rb, Some(np))
    {
      out := [];
      if s.End() <= ra || s.base >= rb {
        return [s];
      }
      if s.base < ra {
        out := out + [Spec(s.base, ra - s.base, s.perms)];
      }
      var lo := Max(s.base, ra);
      var hi := Min(s.End(), rb);
      out := out + [Spec(lo, hi - lo, np)];
      if rb < s.End() {
        out := out + [Spec(rb, s.End() - rb, s.perms)];
      }
    }

    method UnmapSpecs(ra: nat, rb: nat) returns (out: seq<Spec>)
      ensures out == Carve(Specs(regions), ra, rb, None)
    {
      var specs := Specs(regions);
      out := [];
      for i := 0 to |specs|
        invariant out == Carve(specs[..i], ra, rb, None)
      {
        assert specs[..i + 1][..i] == specs[..i];
        var pieces := UnmapPieces(specs[i], ra, rb);
        out := out + pieces;
      }
      assert specs[..|specs|] == specs;
    }

    method ProtectSpecs(ra: nat, rb: nat, np: Perms) returns (out: seq<Spec>)
      requires ra < rb && Usable()
      ensures out == Carve(Specs(regions), ra, rb, Some(np)) && out != []
    {
      var specs := Specs(regions);
      out := [];
      for i := 0 to |specs|
        invariant out == Carve(specs[..i], ra, rb, Some(np))
      {
        assert specs[..i + 1][..i] == specs[..i];
        var pieces := ProtectPieces(specs[i], ra, rb, np);
        out := out + pieces;
      }
      assert specs[..|specs|] == specs;
      ProtectedNonEmpty(specs, ra, rb, np);
    }

    method ApplyCarved(addr: u64, size: u64, np: Option<Perms>, out: seq<Spec>, host: Host) returns (st: Status)
      requires Usable() && !BadRange(addr, size)
      requires out == Carve(Specs(regions), addr, addr + size, np) && out != []
      modifies this
      ensures Usable() && (old(Valid()) ==> Valid()) && (st == Ok ==> Valid())
      ensures st == AppliedStatus(out, old(regions), host)
      ensures st != Ok ==> regions == old(regions)
      ensures st == Ok ==> View(regions) == CarveFlat(old(View(regions)), addr, size, np)
    {
      ValidIsSolid(regions);
      CarveApplied(regions, addr, size, np, out);
      st := ApplySpecs(out, host);
      ValidIsSolid(regions);
    }

    // The checks before an unmap, and the specs it leaves.
    method PlanUnmap(addr: u64, size: u64) returns (st: Status, out: seq<Spec>)
      requires Usable()
      ensures st == if BadRange(addr, size) then Arg
                    else if !RangeCovered(regions, addr, size) || NothingLeft(regions, addr, size) then Map else Ok
      ensures st == Ok ==> out == Carve(Specs(regions), addr, addr + size, None) && out != []
    {
      out := [];
      if size == 0 || addr % PAGE != 0 || size % PAGE != 0 {
        return Arg, out;
      }
      SolidIsOrdered(regions);
      var mapped := RangeMapped(addr, size);
      if !mapped {
        return Map, out;
      }
      out := UnmapSpecs(addr, addr + size);
      UnmapsEverything(regions, addr, size, out);
      if out == [] {
        return Map, out;
      }
      st := Ok;
    }

    method PlanProtect(addr: u64, size: u64, np: Perms) returns (st: Status, out: seq<Spec>)
      requires Usable()
      ensures st == if BadRange(addr, size) then Arg else if !RangeCovered(regions, addr, size) then Map else Ok
      ensures st == Ok ==> out == Carve(Specs(regions), addr, addr + size, Some(np)) && out != []
    {
      if size == 0 || addr % PAGE != 0 || size % PAGE != 0 {
        return Arg, [];
      }
      SolidIsOrdered(regions);
      var mapped := RangeMapped(addr, size);
      if !mapped {
        return Map, [];
      }
      st := Ok;
      out := ProtectSpecs(addr, addr + size, np);
    }

    /** Unmap a fully mapped range, splitting regions: exactly the range goes, every other byte survives and
        something always stays mapped.  On a map with unaligned regions it succeeds only if the pieces left
        are aligned. */
    method DoUnmap(addr: u64, size: u64, host: Host) returns (st: Status)
      requires Usable()
      modifies this
      ensures Usable() && (old(Valid()) ==> Valid()) && (st == Ok ==> Valid())
      ensures st == UnmapStatus(old(regions), addr, size, host)
      ensures st != Ok ==> regions == old(regions)
      ensures st == Ok ==> View(regions) == UnmapFlat(old(View(regions)), addr, size)
    {
      var out;
      st, out := PlanUnmap(addr, size);
      if st == Ok {
        st := ApplyCarved(addr, size, None, out, host);
      }
    }

    /** Protect a fully mapped range, splitting regions: no byte changes, and permissions change on
        exactly the range. */
    method DoProtect(addr: u64, size: u64, perms: Perms, host: Host) returns (st: Status)
      requires Usable()
      modifies this
      ensures Usable() && (old(Valid()) ==> Valid()) && (st == Ok ==> Valid())
      ensures st == ProtectStatus(old(regions), addr, size, perms, host)
      ensures st != Ok ==> regions == old(regions)
      ensures st == Ok ==> View(regions) == ProtectFlat(old(View(regions)), addr, size, Masked(perms))
    {
      var out;
      st, out := PlanProtect(addr, size, Masked(perms));
      if st == Ok {
        st := ApplyCarved(addr, size, Some(Masked(perms)), out, host);
      }
    }
  }
}
