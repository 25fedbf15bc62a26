/**
 Whole runs of map, unmap and protect over the memory map, against a flat memory that knows nothing
 of regions: what each call answers and what it leaves are functions of the flat memory alone.  A call
 also strips, from every region, permission bits beyond read, write and execute; what that spoils is
 stated exactly.
 */
module MemRun {
  import opened Common
  import opened MemMap

  datatype Op =
    | MapOp(addr: u64, size: u64, perms: Perms)
    | UnmapOp(addr: u64, size: u64)
    | ProtectOp(addr: u64, size: u64, perms: Perms)

  // No permission bits beyond read, write and execute: what every call installs.
  ghost predicate Plain(v: Flat) {
    forall a :: a in v ==> Masked(v[a].perms) == v[a].perms
  }

  // The intended effects, on bytes and permissions.
  ghost function Effect(v: Flat, op: Op): Flat {
    match op
    case MapOp(addr, size, perms) => v + (map a | addr <= a < addr + size && In(a, addr, size) :: Cell(0, Masked(perms)))
    case UnmapOp(addr, size) => map a | a in v && !In(a, addr, size) :: v[a]
    case ProtectOp(addr, size, perms) =>
      map a | a in v :: if In(a, addr, size) then Cell(v[a].byte, Masked(perms)) else v[a]
  }

  // What a successful call leaves.
  ghost function Outcome(v: Flat, op: Op): Flat {
    match op
    case MapOp(addr, size, perms) => MapFlat(v, addr, size, perms)
    case UnmapOp(addr, size) => UnmapFlat(v, addr, size)
    case ProtectOp(addr, size, perms) => ProtectFlat(v, addr, size, Masked(perms))
  }

  ghost predicate PlainOutside(v: Flat, addr: int, size: int) {
    forall a :: a in v && !In(a, addr, size) ==> Masked(v[a].perms) == v[a].perms
  }

  // What a call answers when the host can allocate and rebuild.
  ghost function Answer(v: Flat, op: Op): Status {
    if BadRange(op.addr, op.size) then Arg
    else match op
      case MapOp(addr, size, _) =>
        if addr + size >= TWO64 then Bounds
        else if exists a :: In(a, addr, size) && a in v then Map else Ok
      case UnmapOp(addr, size) =>
        if !AllIn(v, addr, size) || (forall a :: a in v ==> In(a, addr, size)) then Map else Ok
      case ProtectOp(addr, size, _) =>
        if !AllIn(v, addr, size) then Map else Ok
  }

  /** When each call succeeds, in numbers. */
  lemma AnswersOk(v: Flat, addr: u64, size: u64, perms: Perms)
    ensures Answer(v, MapOp(addr, size, perms)) == Ok
        <==> Pages(addr, size) && addr + size < TWO64 && forall a :: addr <= a < addr + size ==> a !in v
    ensures Answer(v, UnmapOp(addr, size)) == Ok
        <==> Pages(addr, size) && (forall a :: addr <= a < addr + size ==> a in v)
             && exists a :: a in v && !(addr <= a < addr + size)
    ensures Answer(v, ProtectOp(addr, size, perms)) == Ok
        <==> Pages(addr, size) && forall a :: addr <= a < addr + size ==> a in v
  {
    assert forall a :: In(a, addr, size) <==> addr <= a < addr + size;
  }

  // Some whole pages of 4096 bytes.
  predicate Pages(addr: nat, size: nat) { size > 0 && addr % 4096 == 0 && size % 4096 == 0 }

  predicate Willing(h: Host) { h.alloc && h.rebuild }

  lemma ViewAll(rs: seq<Region>)
    requires Solid(rs)
    ensures forall a :: a in View(rs) <==> Lookup(rs, a).Some?
    ensures forall a :: a in View(rs) ==> 0 <= a < TWO64
  {
    forall a
      ensures a in View(rs) <==> Lookup(rs, a).Some?
    {
      ViewAt(rs, a);
    }
  }

  // ---- What a call spoils ------------------------------------------------------------------

  /** A map call has exactly the intended effect if and only if every permission outside its range was within
      read, write and execute. */
  lemma MapEffect(v: Flat, addr: u64, size: u64, perms: Perms)
    requires addr + size < TWO64 && forall a :: a in v ==> 0 <= a < TWO64
    ensures MapFlat(v, addr, size, perms) == Effect(v, MapOp(addr, size, perms)) <==> PlainOutside(v, addr, size)
  {
    var got, want := MapFlat(v, addr, size, perms), Effect(v, MapOp(addr, size, perms));
    if got == want {
      forall a | a in v && !In(a, addr, size)
        ensures Masked(v[a].perms) == v[a].perms
      {
        assert got[a] == MaskedCell(v[a]) && want[a] == v[a];
      }
    }
  }

  /** So has an unmap call. */
  lemma UnmapEffect(v: Flat, addr: u64, size: u64)
    ensures UnmapFlat(v, addr, size) == Effect(v, UnmapOp(addr, size)) <==> PlainOutside(v, addr, size)
  {
    var got, want := UnmapFlat(v, addr, size), Effect(v, UnmapOp(addr, size));
    if got == want {
      forall a | a in v && !In(a, addr, size)
        ensures Masked(v[a].perms) == v[a].perms
      {
        assert got[a] == MaskedCell(v[a]) && want[a] == v[a];
      }
    }
  }

  /** So has a protect call. */
  lemma ProtectEffect(v: Flat, addr: u64, size: u64, perms: Perms)
    ensures ProtectFlat(v, addr, size, Masked(perms)) == Effect(v, ProtectOp(addr, size, perms))
        <==> PlainOutside(v, addr, size)
  {
    MaskedTwice(perms);
    var got, want := ProtectFlat(v, addr, size, Masked(perms)), Effect(v, ProtectOp(addr, size, perms));
    if got == want {
      forall a | a in v && !In(a, addr, size)
        ensures Masked(v[a].perms) == v[a].perms
      {
        assert got[a].perms == Masked(v[a].perms) && want[a] == v[a];
      }
    }
  }

  // Whatever the permissions were, they are plain after a call.
  lemma OutcomePlain(v: Flat, op: Op)
    ensures Plain(Outcome(v, op))
  {
    forall a | a in Outcome(v, op)
      ensures Masked(Outcome(v, op)[a].perms) == Outcome(v, op)[a].perms
    {
      if a in v {
        MaskedTwice(v[a].perms);
      }
      if !op.UnmapOp? {
        MaskedTwice(op.perms);
        MaskedTwice(Masked(op.perms));
      }
    }
  }

  lemma IntendedExactly(v: Flat, op: Op)
    requires op.addr + op.size < TWO64 && forall a :: a in v ==> 0 <= a < TWO64
    ensures Outcome(v, op) == Effect(v, op) <==> PlainOutside(v, op.addr, op.size)
  {
    match op
    case MapOp(addr, size, perms) => MapEffect(v, addr, size, perms);
    case UnmapOp(addr, size) => UnmapEffect(v, addr, size);
    case ProtectOp(addr, size, perms) => ProtectEffect(v, addr, size, perms);
  }

  // ---- One call ----------------------------------------------------------------------------

  // One call on the flat memory of an aligned map: it answers as the flat memory does, unless the host itself
  // refuses; success has the outcome above and a failure changes nothing.
  ghost predicate Moves(v: Flat, op: Op, host: Host, st: Status, w: Flat) {
    && (st == Answer(v, op) || (!Willing(host) && Answer(v, op) == Ok && (st == NoMem || st == Fault)))
    && w == (if st == Ok then Outcome(v, op) else v)
  }

  // The same of any map: with an unaligned region in it a map call fails, and what fails changes nothing.
  ghost predicate MovesAny(v: Flat, op: Op, st: Status, w: Flat) {
    && (op.MapOp? ==> st != Ok)
    && w == (if st == Ok then Outcome(v, op) else v)
  }

  // On an aligned map a carved list has no fault, so only the host can refuse it.
  lemma CarvedStatus(rs: seq<Region>, addr: u64, size: u64, np: Option<Perms>, specs: seq<Spec>, host: Host)
    requires ValidMap(rs) && !BadRange(addr, size) && specs == Carve(Specs(rs), addr, addr + size, np) != []
    ensures AppliedStatus(specs, rs, host) == RebuildStatus(specs, rs, host)
    ensures RebuildStatus(specs, rs, host) == Ok || (!Willing(host) && RebuildStatus(specs, rs, host) in {NoMem, Fault})
  {
    CarvedWellFormed(rs, addr, size, np);
    Faultless(specs, 0, 0);
  }

  lemma CoveredIs(rs: seq<Region>, addr: u64, size: u64)
    requires Solid(rs)
    ensures RangeCovered(rs, addr, size) <==> AllIn(View(rs), addr, size)
    ensures NothingLeft(rs, addr, size) <==> forall a :: a in View(rs) ==> In(a, addr, size)
  {
    ViewAll(rs);
  }

  lemma UnmapAnswers(rs: seq<Region>, addr: u64, size: u64, host: Host)
    requires ValidMap(rs) && rs != []
    ensures var st, ans := UnmapStatus(rs, addr, size, host), Answer(View(rs), UnmapOp(addr, size));
      st == ans || (!Willing(host) && ans == Ok && (st == NoMem || st == Fault))
  {
    ValidIsSolid(rs);
    CoveredIs(rs, addr, size);
    if !BadRange(addr, size) && RangeCovered(rs, addr, size) && !NothingLeft(rs, addr, size) {
      var specs := Carve(Specs(rs), addr, addr + size, None);
      UnmapsEverything(rs, addr, size, specs);
      CarvedStatus(rs, addr, size, None, specs, host);
    }
  }

  lemma ProtectAnswers(rs: seq<Region>, addr: u64, size: u64, perms: Perms, host: Host)
    requires ValidMap(rs) && rs != []
    ensures var st, ans := ProtectStatus(rs, addr, size, perms, host), Answer(View(rs), ProtectOp(addr, size, perms));
      st == ans || (!Willing(host) && ans == Ok && (st == NoMem || st == Fault))
  {
    ValidIsSolid(rs);
    CoveredIs(rs, addr, size);
    if !BadRange(addr, size) && RangeCovered(rs, addr, size) {
      ProtectedNonEmpty(Specs(rs), addr, addr + size, Masked(perms));
      CarvedStatus(rs, addr, size, Some(Masked(perms)), Carve(Specs(rs), addr, addr + size, Some(Masked(perms))), host);
    }
  }

  /** One call, whatever the permissions: it does to the flat memory what was intended, if it succeeds, exactly
      when every permission outside its range was within read, write and execute; and it leaves no other. */
  method Step(e: Engine, op: Op, host: Host) returns (st: Status)
    requires e.Usable()
    modifies e
    ensures e.Usable() && (old(e.Valid()) ==> e.Valid()) && (st == Ok ==> e.Valid() && Plain(View(e.regions)))
    ensures old(e.Valid()) ==> Moves(old(View(e.regions)), op, host, st, View(e.regions))
    ensures !old(e.Valid()) ==> MovesAny(old(View(e.regions)), op, st, View(e.regions))
    ensures st == Ok ==> (View(e.regions) == Effect(old(View(e.regions)), op)
      <==> PlainOutside(old(View(e.regions)), op.addr, op.size))
  {
    ghost var rs := e.regions;
    ghost var v := View(rs);
    ViewAll(rs);
    st := Call(e, op, host);
    OutcomePlain(v, op);
    if st == Ok {
      IntendedExactly(v, op);
    }
  }

  // The call itself.  A range that was covered, or free and mapped, ends inside the address space.
  method Call(e: Engine, op: Op, host: Host) returns (st: Status)
    requires e.Usable()
    modifies e
    ensures e.Usable() && (old(e.Valid()) ==> e.Valid()) && (st == Ok ==> e.Valid())
    ensures old(e.Valid()) ==> Moves(old(View(e.regions)), op, host, st, View(e.regions))
    ensures !old(e.Valid()) ==> MovesAny(old(View(e.regions)), op, st, View(e.regions))
    ensures st == Ok ==> op.addr + op.size < TWO64
  {
    ghost var rs := e.regions;
    ViewAll(rs);
    match op
    case MapOp(addr, size, perms) =>
      st := e.DoMap(addr, size, perms, host);
    case UnmapOp(addr, size) =>
      st := e.DoUnmap(addr, size, host);
      if e.Valid() && ValidMap(rs) {
        UnmapAnswers(rs, addr, size, host);
      }
      CoveredInside(rs, addr, size);
    case ProtectOp(addr, size, perms) =>
      st := e.DoProtect(addr, size, perms, host);
      if e.Valid() && ValidMap(rs) {
        ProtectAnswers(rs, addr, size, perms, host);
      }
      CoveredInside(rs, addr, size);
  }

  lemma CoveredInside(rs: seq<Region>, addr: u64, size: u64)
    requires Solid(rs)
    ensures size > 0 && RangeCovered(rs, addr, size) ==> addr + size < TWO64
  {
    SolidIsOrdered(rs);
    if size > 0 && RangeCovered(rs, addr, size) && addr + size >= TWO64 {
      AboveAllUncovered(rs, TWO64 - 1);
    }
  }

  /** A page with permissions 15 beside one that is unmapped comes out with 7. */
  method PermissionBitLost(e: Engine) returns (st: Status)
    requires e.regions == [Region(Spec(0, PAGE, 15), seq(PAGE, _ => 0)), Region(Spec(PAGE, PAGE, 7), seq(PAGE, _ => 0))]
    modifies e
    ensures st == Ok && Solid(e.regions) && 0 in View(e.regions)
    ensures Solid(old(e.regions)) && 0 in old(View(e.regions)) && old(View(e.regions))[0].perms == 15
    ensures View(e.regions)[0].perms == 7
  {
    ghost var rs := e.regions;
    assert Specs(rs) == [Spec(0, PAGE, 15), Spec(PAGE, PAGE, 7)];
    ValidIsSolid(rs);
    SolidIsOrdered(rs);
    LookupCovering(rs, 0, 0);
    ViewAt(rs, 0);
    TwoPages(rs);
    st := Call(e, UnmapOp(PAGE, PAGE), Host(true, true));
  }

  lemma TwoPages(rs: seq<Region>)
    requires Solid(rs) && Specs(rs) == [Spec(0, PAGE, 15), Spec(PAGE, PAGE, 7)]
    ensures Answer(View(rs), UnmapOp(PAGE, PAGE)) == Ok
  {
    ViewAll(rs);
    SolidIsOrdered(rs);
    assert |rs| == |Specs(rs)| && Specs(rs)[0] == rs[0].spec;
    LookupCovering(rs, 0, 0);
    assert 0 in View(rs) && !In(0, PAGE, PAGE);
    forall a | In(a, PAGE, PAGE)
      ensures a in View(rs)
    {
      assert Specs(rs)[1] == rs[1].spec;
      LookupCovering(rs, 1, a);
    }
  }

  // ---- Runs --------------------------------------------------------------------------------

  // The flat memories a run passes through, and whether the map behind each was aligned.
  ghost predicate Trace(states: seq<Flat>, aligned: seq<bool>, ops: seq<Op>, hosts: seq<Host>, sts: seq<Status>) {
    && |states| == |sts| + 1 == |aligned| && |sts| <= |ops| && |sts| <= |hosts|
    && forall i {:trigger sts[i]} :: 0 <= i < |sts| ==>
      Turn(states[i], aligned[i], ops[i], hosts[i], sts[i], states[i + 1], aligned[i + 1])
  }

  ghost predicate Turn(v: Flat, before: bool, op: Op, host: Host, st: Status, w: Flat, after: bool) {
    && (if before then Moves(v, op, host, st, w) else MovesAny(v, op, st, w))
    && (before ==> after) && (st == Ok ==> after && Plain(w))
    && (st == Ok ==> (w == Effect(v, op) <==> PlainOutside(v, op.addr, op.size)))
  }

  /** Every run, from any map a restore can install, keeps the regions sorted, disjoint and non-empty, aligned
      from the first success on, and is a run of the flat memory, call by call. */
  method Run(e: Engine, ops: seq<Op>, hosts: seq<Host>)
    returns (sts: seq<Status>, ghost states: seq<Flat>, ghost aligned: seq<bool>)
    requires |hosts| == |ops| && e.Usable()
    modifies e
    ensures e.Usable() && |sts| == |ops| && Trace(states, aligned, ops, hosts, sts)
    ensures states[0] == old(View(e.regions)) && states[|ops|] == View(e.regions)
    ensures aligned[0] == old(e.Valid()) && aligned[|ops|] == e.Valid()
  {
    sts, states, aligned := [], [View(e.regions)], [e.Valid()];
    for i := 0 to |ops|
      invariant |sts| == i && e.Usable() && Trace(states, aligned, ops, hosts, sts)
      invariant states[0] == old(View(e.regions)) && states[i] == View(e.regions)
      invariant aligned[0] == old(e.Valid()) && aligned[i] == e.Valid()
    {
      var st := Step(e, ops[i], hosts[i]);
      TraceNext(states, aligned, ops, hosts, sts, st, View(e.regions), e.Valid());
      sts := sts + [st];
      states := states + [View(e.regions)];
      aligned := aligned + [e.Valid()];
    }
  }

  lemma TraceNext(states: seq<Flat>, aligned: seq<bool>, ops: seq<Op>, hosts: seq<Host>, sts: seq<Status>,
                  st: Status, w: Flat, after: bool)
    requires Trace(states, aligned, ops, hosts, sts) && |sts| < |ops| && |sts| < |hosts|
    requires Turn(states[|sts|], aligned[|sts|], ops[|sts|], hosts[|sts|], st, w, after)
    ensures Trace(states + [w], aligned + [after], ops, hosts, sts + [st])
  {
    var n := |sts|;
    var ss, bs := states + [w], aligned + [after];
    forall i | 0 <= i < n + 1
      ensures Turn(ss[i], bs[i], ops[i], hosts[i], (sts + [st])[i], ss[i + 1], bs[i + 1])
    {
      if i < n {
        assert Turn(states[i], aligned[i], ops[i], hosts[i], sts[i], states[i + 1], aligned[i + 1]);
        assert ss[i] == states[i] && ss[i + 1] == states[i + 1] && bs[i] == aligned[i] && bs[i + 1] == aligned[i + 1];
      }
    }
  }

  /** From plain permissions on, and so from the first success on, every call that succeeds has exactly the
      intended effect. */
  lemma {:induction false} PlainFromThere(states: seq<Flat>, aligned: seq<bool>, ops: seq<Op>, hosts: seq<Host>,
                                         sts: seq<Status>, i: nat, j: nat)
    requires Trace(states, aligned, ops, hosts, sts) && i <= j <= |sts| && Plain(states[i])
    ensures Plain(states[j])
    ensures j < |sts| ==> states[j + 1] == if sts[j] == Ok then Effect(states[j], ops[j]) else states[j]
  {
    if i < j {
      PlainFromThere(states, aligned, ops, hosts, sts, i, j - 1);
      assert Turn(states[j - 1], aligned[j - 1], ops[j - 1], hosts[j - 1], sts[j - 1], states[j], aligned[j]);
    }
    if j < |sts| {
      assert Turn(states[j], aligned[j], ops[j], hosts[j], sts[j], states[j + 1], aligned[j + 1]);
    }
  }
}
