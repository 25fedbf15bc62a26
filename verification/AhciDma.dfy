/** What AHCI commands promise: bytes delivered and counted, the disk outside their range untouched. */
module AhciDma {
  import opened Common
  import opened Dma
  import opened Scatter
  import opened Ahci

  // ---- The command structures --------------------------------------------------------------

  // The memories agree on everything a slot is decoded from.
  ghost predicate SameCommand(m: Mem, m': Mem, hdrGpa: nat) {
    && |m| == |m'| && Agree(m, m', hdrGpa, HEADER_SIZE)
    && (InBounds(m, hdrGpa, HEADER_SIZE) ==>
          var hdr := ParseHeader(m[hdrGpa..hdrGpa + HEADER_SIZE]).value;
          Agree(m, m', hdr.ctba, FIS_SIZE) && Agree(m, m', hdr.ctba + PRDT_OFFSET, hdr.prdtl * PRD_SIZE))
  }

  lemma {:induction false} SegmentsFrame(m: Mem, m': Mem, base: nat, n: nat)
    requires Agree(m, m', base, n * PRD_SIZE)
    ensures Segments(m, base, n) == Segments(m', base, n)
  {
    if n > 0 {
      var low := (n - 1) * PRD_SIZE;
      assert n * PRD_SIZE == low + PRD_SIZE;
      assert Agree(m, m', base, low) && Agree(m, m', base + low, PRD_SIZE);
      SegmentsFrame(m, m', base, n - 1);
      AgreeRead(m, m', base + (n - 1) * PRD_SIZE, PRD_SIZE);
    }
  }

  /** A slot decodes to the same command whatever happens elsewhere in memory. */
  lemma DecodeFrame(m: Mem, m': Mem, hdrGpa: nat)
    requires SameCommand(m, m', hdrGpa)
    ensures Decode(m, hdrGpa) == Decode(m', hdrGpa)
  {
    AgreeRead(m, m', hdrGpa, HEADER_SIZE);
    if InBounds(m, hdrGpa, HEADER_SIZE) {
      var hdr := ParseHeader(m[hdrGpa..hdrGpa + HEADER_SIZE]).value;
      AgreeRead(m, m', hdr.ctba, FIS_SIZE);
      SegmentsFrame(m, m', hdr.ctba + PRDT_OFFSET, hdr.prdtl);
    }
  }

  // ---- One command -------------------------------------------------------------------------

  // The list names at least `total` addresses, all inside memory as far as needed.
  ghost predicate Covers(segs: seq<Seg>, total: nat, size: nat) {
    total <= |Addresses(segs)| && Below(Addresses(segs), 0, total, size)
  }

  lemma WholeReach(segs: seq<Seg>, total: nat, size: nat)
    requires Covers(segs, total, size)
    ensures Reach(segs, 0, 0, total, size) == total && Count(size, segs, total) == Some(total)
    ensures Within(Addresses(segs), total, size)
  {
    ReachesAll(segs, 0, total, size);
  }

  /** The count a read or write reports is the smaller of its length and that of its list, and it
      reports one exactly when all the addresses it needs lie inside memory. */
  lemma CountExact(segs: seq<Seg>, total: nat, size: nat)
    ensures Count(size, segs, total).Some? <==> Below(Addresses(segs), 0, Min(total, |Addresses(segs)|), size)
    ensures Count(size, segs, total).Some? ==> Count(size, segs, total).value == Min(total, |Addresses(segs)|)
  {
    ReachesAll(segs, 0, total, size);
  }

  /** No slot changes a disk byte outside the range of the WRITE DMA EXT it holds. */
  lemma DiskOutside(m: Machine, clb: u64, fb: u64, slot: nat, identify: seq<byte>, p: nat)
    requires p < |m.disk|
    ensures |Ran(m, clb, fb, slot, identify).m.disk| == |m.disk|
    ensures Ran(m, clb, fb, slot, identify).m.disk[p] != m.disk[p] ==> Targeted(m, HeaderAt(clb, slot), p)
  {
  }

  ghost predicate Targeted(m: Machine, hdrGpa: nat, p: nat) {
    match Decode(m.mem, hdrGpa)
    case None => false
    case Some(c) =>
      c.fis.command == WRITE_DMA_EXT &&
      match TransferBounds(c.fis, |m.disk|)
      case None => false
      case Some(b) => b.start <= p < b.start + b.total
  }

  /** Completing a command leaves its count in the second word of its header. */
  lemma CountReported(mem: Mem, hdrGpa: nat, fb: u64, n: nat)
    requires InBounds(mem, hdrGpa + 4, WORD) && n < Pow256(WORD)
    requires Apart(Wrap(fb + 0x40), 20, hdrGpa + 4, WORD)
    ensures Read(Completed(mem, hdrGpa, fb, Some(n)), hdrGpa + 4, WORD) == Some(ToLe(n, WORD))
    ensures Le(ToLe(n, WORD)) == n
  {
    var counted := Write(mem, hdrGpa + 4, ToLe(n, WORD));
    WriteElsewhere(counted, Wrap(fb + 0x40), D2h(DRDY, 0), hdrGpa + 4, WORD);
    AgreeRead(counted, Completed(mem, hdrGpa, fb, Some(n)), hdrGpa + 4, WORD);
    WrittenSlice(mem, hdrGpa + 4, ToLe(n, WORD));
    LeToLe(n, WORD);
  }

  // A data movement with its completion.
  ghost function Finished(moved: Moved, hdrGpa: nat, fb: u64): Moved {
    Moved(moved.m.(mem := Completed(moved.m.mem, hdrGpa, fb, moved.count)), moved.count)
  }

  lemma RanAs(m: Machine, clb: u64, fb: u64, slot: nat, identify: seq<byte>, c: Cmd)
    requires Decode(m.mem, HeaderAt(clb, slot)) == Some(c)
    ensures Ran(m, clb, fb, slot, identify) == Finished(Perform(m, c, identify), HeaderAt(clb, slot), fb)
  {
  }

  // The transfer a decoded command asks for, if it is one of the two.
  ghost predicate Asks(m: Machine, hdrGpa: nat, b: Bounds, segs: seq<Seg>) {
    match Decode(m.mem, hdrGpa)
    case None => false
    case Some(c) =>
      && (c.fis.command == READ_DMA_EXT || c.fis.command == WRITE_DMA_EXT) && c.segs == segs
      && TransferBounds(c.fis, |m.disk|) == Some(b)
  }

  lemma PerformsCount(m: Machine, c: Cmd, identify: seq<byte>, b: Bounds)
    requires c.fis.command == READ_DMA_EXT || c.fis.command == WRITE_DMA_EXT
    requires TransferBounds(c.fis, |m.disk|) == Some(b)
    ensures Perform(m, c, identify).count == Count(|m.mem|, c.segs, b.total)
    ensures |Perform(m, c, identify).m.mem| == |m.mem|
  {
  }

  // A decoded command has its header in memory and a count of sixteen bits.
  lemma DecodedBounds(mem: Mem, hdrGpa: nat, c: Cmd)
    requires Decode(mem, hdrGpa) == Some(c)
    ensures InBounds(mem, hdrGpa, HEADER_SIZE) && c.fis.count < 0x1_0000
  {
  }

  ghost predicate HoldsCount(mem: Mem, hdrGpa: nat, n: nat) {
    Read(mem, hdrGpa + 4, WORD) == Some(ToLe(n, WORD)) && Le(ToLe(n, WORD)) == n
  }

  lemma FinishedCounts(moved: Moved, hdrGpa: nat, fb: u64, n: nat)
    requires InBounds(moved.m.mem, hdrGpa, HEADER_SIZE) && n < 0x1_0000_0000 && moved.count == Some(n)
    requires Apart(Wrap(fb + 0x40), 20, hdrGpa + 4, WORD)
    ensures HoldsCount(Finished(moved, hdrGpa, fb).m.mem, hdrGpa, n)
  {
    WidthBounds();
    CountReported(moved.m.mem, hdrGpa, fb, n);
  }

  /** A transfer whose list is short, long or exact leaves the smaller of the two lengths in its header,
      unless the response lands on it, and completes without error exactly when the addresses it needs lie
      inside memory. */
  lemma HeaderCounts(m: Machine, ran: Moved, clb: u64, fb: u64, slot: nat, identify: seq<byte>, b: Bounds, segs: seq<Seg>)
    requires Asks(m, HeaderAt(clb, slot), b, segs) && Apart(Wrap(fb + 0x40), 20, HeaderAt(clb, slot) + 4, WORD)
    requires ran == Ran(m, clb, fb, slot, identify)
    ensures var want := Min(b.total, |Addresses(segs)|);
      && (ran.count.Some? <==> Below(Addresses(segs), 0, want, |m.mem|))
      && (ran.count.Some? ==> ran.count == Some(want) && HoldsCount(ran.m.mem, HeaderAt(clb, slot), want))
  {
    var c := Decode(m.mem, HeaderAt(clb, slot)).value;
    RanAs(m, clb, fb, slot, identify, c);
    PerformsCount(m, c, identify, b);
    CountExact(segs, b.total, |m.mem|);
    DecodedBounds(m.mem, HeaderAt(clb, slot), c);
    if ran.count.Some? {
      FinishedCounts(Perform(m, c, identify), HeaderAt(clb, slot), fb, ran.count.value);
    }
  }

  // ---- Write, then read --------------------------------------------------------------------

  // What completing a command with success writes: the count and the FIS.
  ghost predicate ClearOf(hdrGpa: nat, fb: u64, at: nat, n: nat) {
    Apart(hdrGpa + 4, 4, at, n) && Apart(Wrap(fb + 0x40), 20, at, n)
  }

  lemma CompletedElsewhere(mem: Mem, hdrGpa: nat, fb: u64, count: Option<nat>, at: nat, n: nat)
    requires ClearOf(hdrGpa, fb, at, n)
    ensures |Completed(mem, hdrGpa, fb, count)| == |mem| && Agree(mem, Completed(mem, hdrGpa, fb, count), at, n)
  {
    if count.Some? {
      WriteElsewhere(mem, hdrGpa + 4, ToLe(count.value, WORD), at, n);
      WriteElsewhere(Write(mem, hdrGpa + 4, ToLe(count.value, WORD)), Wrap(fb + 0x40), D2h(DRDY, 0), at, n);
    } else {
      WriteElsewhere(mem, Wrap(fb + 0x40), D2h(DRDY_ERR, ABRT), at, n);
    }
  }

  // A transfer a slot is set up for: the command, its place on the disk and a list that covers it.
  ghost predicate Issued(m: Machine, hdrGpa: nat, op: byte, b: Bounds, segs: seq<Seg>) {
    match Decode(m.mem, hdrGpa)
    case None => false
    case Some(c) =>
      && c.fis.command == op && c.segs == segs && TransferBounds(c.fis, |m.disk|) == Some(b)
      && Covers(segs, b.total, |m.mem|)
  }

  lemma PerformsWrite(m: Machine, c: Cmd, identify: seq<byte>, b: Bounds)
    requires c.fis.command == WRITE_DMA_EXT && TransferBounds(c.fis, |m.disk|) == Some(b)
    requires Covers(c.segs, b.total, |m.mem|)
    ensures Within(Addresses(c.segs), b.total, |m.mem|)
    ensures Perform(m, c, identify)
         == Moved(Machine(m.mem, Write(m.disk, b.start, Picked(m.mem, Addresses(c.segs), b.total))), Some(b.total))
  {
    WholeReach(c.segs, b.total, |m.mem|);
  }

  lemma PerformsRead(m: Machine, c: Cmd, identify: seq<byte>, b: Bounds, data: seq<byte>)
    requires c.fis.command == READ_DMA_EXT && TransferBounds(c.fis, |m.disk|) == Some(b)
    requires Covers(c.segs, b.total, |m.mem|) && data == m.disk[b.start..b.start + b.total]
    ensures Within(Addresses(c.segs), b.total, |m.mem|)
    ensures Perform(m, c, identify) == Moved(Machine(Spread(m.mem, Addresses(c.segs), data, b.total), m.disk), Some(b.total))
  {
    WholeReach(c.segs, b.total, |m.mem|);
  }

  lemma WriteRuns(m: Machine, clb: u64, fb: u64, slot: nat, identify: seq<byte>, b: Bounds, segs: seq<Seg>)
    requires Issued(m, HeaderAt(clb, slot), WRITE_DMA_EXT, b, segs)
    ensures Within(Addresses(segs), b.total, |m.mem|)
    ensures Ran(m, clb, fb, slot, identify).count == Some(b.total)
    ensures Ran(m, clb, fb, slot, identify).m.mem == Completed(m.mem, HeaderAt(clb, slot), fb, Some(b.total))
    ensures Ran(m, clb, fb, slot, identify).m.disk == Write(m.disk, b.start, Picked(m.mem, Addresses(segs), b.total))
  {
    var c := Decode(m.mem, HeaderAt(clb, slot)).value;
    RanAs(m, clb, fb, slot, identify, c);
    PerformsWrite(m, c, identify, b);
  }

  lemma ReadRuns(m: Machine, clb: u64, fb: u64, slot: nat, identify: seq<byte>, b: Bounds, segs: seq<Seg>)
    requires Issued(m, HeaderAt(clb, slot), READ_DMA_EXT, b, segs) && b.start + b.total <= |m.disk|
    ensures Within(Addresses(segs), b.total, |m.mem|)
    ensures Ran(m, clb, fb, slot, identify).count == Some(b.total)
    ensures Ran(m, clb, fb, slot, identify).m.mem
         == Completed(Spread(m.mem, Addresses(segs), m.disk[b.start..b.start + b.total], b.total), HeaderAt(clb, slot), fb, Some(b.total))
    ensures Ran(m, clb, fb, slot, identify).m.disk == m.disk
  {
    var c := Decode(m.mem, HeaderAt(clb, slot)).value;
    RanAs(m, clb, fb, slot, identify, c);
    PerformsRead(m, c, identify, b, m.disk[b.start..b.start + b.total]);
  }

  // The first n addresses of a list are clear of what completing the command writes.
  ghost predicate ListClear(segs: seq<Seg>, n: nat, hdrGpa: nat, fb: u64) {
    n <= |Addresses(segs)| && forall k :: 0 <= k < n ==> ClearOf(hdrGpa, fb, Addresses(segs)[k], 1)
  }

  /** A READ DMA EXT over a list that visits no address twice delivers exactly the disk bytes. */
  lemma ReadDelivers(m: Machine, ran: Moved, clb: u64, fb: u64, slot: nat, identify: seq<byte>, b: Bounds, segs: seq<Seg>)
    requires Issued(m, HeaderAt(clb, slot), READ_DMA_EXT, b, segs) && b.start + b.total <= |m.disk|
    requires ran == Ran(m, clb, fb, slot, identify)
    requires Distinct(Addresses(segs)[..b.total]) && ListClear(segs, b.total, HeaderAt(clb, slot), fb)
    ensures Delivers(m, ran, b, Addresses(segs)) && ran.count == Some(b.total) && ran.m.disk == m.disk
  {
    ReadRuns(m, clb, fb, slot, identify, b, segs);
    SpreadDelivers(m, ran, b, segs, HeaderAt(clb, slot), fb);
  }

  // The addresses now hold the sectors.
  ghost predicate Delivers(m: Machine, ran: Moved, b: Bounds, addrs: seq<nat>) {
    && |ran.m.mem| == |m.mem| && Within(addrs, b.total, |m.mem|) && b.start + b.total <= |m.disk|
    && Picked(ran.m.mem, addrs, b.total) == m.disk[b.start..b.start + b.total]
  }

  lemma SpreadDelivers(m: Machine, ran: Moved, b: Bounds, segs: seq<Seg>, hdrGpa: nat, fb: u64)
    requires b.start + b.total <= |m.disk| && Within(Addresses(segs), b.total, |m.mem|)
    requires Distinct(Addresses(segs)[..b.total]) && ListClear(segs, b.total, hdrGpa, fb)
    requires ran.m.mem
          == Completed(Spread(m.mem, Addresses(segs), m.disk[b.start..b.start + b.total], b.total), hdrGpa, fb, Some(b.total))
    ensures Delivers(m, ran, b, Addresses(segs))
  {
    SpreadSurvives(m.mem, segs, m.disk[b.start..b.start + b.total], hdrGpa, fb);
  }

  // Bytes spread over distinct addresses clear of the completion are there after it.
  lemma SpreadSurvives(mem: Mem, segs: seq<Seg>, data: seq<byte>, hdrGpa: nat, fb: u64)
    requires Within(Addresses(segs), |data|, |mem|) && Distinct(Addresses(segs)[..|data|])
    requires ListClear(segs, |data|, hdrGpa, fb)
    ensures var after := Completed(Spread(mem, Addresses(segs), data, |data|), hdrGpa, fb, Some(|data|));
      |after| == |mem| && Picked(after, Addresses(segs), |data|) == data
  {
    assert data[..|data|] == data;
    PickedOfSpread(mem, Addresses(segs), data, |data|);
    PickedCompleted(Spread(mem, Addresses(segs), data, |data|), segs, |data|, hdrGpa, fb);
  }

  lemma PickedCompleted(mem: Mem, segs: seq<Seg>, n: nat, hdrGpa: nat, fb: u64)
    requires Within(Addresses(segs), n, |mem|) && ListClear(segs, n, hdrGpa, fb)
    ensures |Completed(mem, hdrGpa, fb, Some(n))| == |mem|
    ensures Picked(Completed(mem, hdrGpa, fb, Some(n)), Addresses(segs), n) == Picked(mem, Addresses(segs), n)
  {
    var addrs, after := Addresses(segs), Completed(mem, hdrGpa, fb, Some(n));
    forall k | 0 <= k < n
      ensures after[addrs[k]] == mem[addrs[k]]
    {
      CompletedElsewhere(mem, hdrGpa, fb, Some(n), addrs[k], 1);
    }
  }

  // The write leaves the read as it was set up.
  lemma StillIssued(m: Machine, n: Machine, hdrGpa: nat, b: Bounds, to: seq<Seg>)
    requires Issued(m, hdrGpa, READ_DMA_EXT, b, to) && SameCommand(m.mem, n.mem, hdrGpa) && |n.disk| == |m.disk|
    ensures Issued(n, hdrGpa, READ_DMA_EXT, b, to)
  {
    DecodeFrame(m.mem, n.mem, hdrGpa);
  }

  lemma WrittenSlice(d: seq<byte>, at: nat, data: seq<byte>)
    requires at + |data| <= |d|
    ensures Write(d, at, data)[at..at + |data|] == data
  {
  }

  // Both commands reported the whole transfer, and the second list holds what the first one held.
  ghost predicate Carried(m: Machine, one: Moved, two: Moved, b: Bounds, from: seq<nat>, to: seq<nat>) {
    && one.count == Some(b.total) == two.count
    && |two.m.mem| == |m.mem| && Within(from, b.total, |m.mem|) && Within(to, b.total, |m.mem|)
    && Picked(two.m.mem, to, b.total) == Picked(m.mem, from, b.total)
    && two.m.disk == Write(m.disk, b.start, Picked(m.mem, from, b.total))
  }

  // The read after the write, from what each of them does by itself.
  lemma ReadAfterWrite(m: Machine, one: Moved, two: Moved, clb: u64, fb: u64, r: nat, identify: seq<byte>,
                       b: Bounds, from: seq<Seg>, to: seq<Seg>)
    requires Issued(one.m, HeaderAt(clb, r), READ_DMA_EXT, b, to) && two == Ran(one.m, clb, fb, r, identify)
    requires Distinct(Addresses(to)[..b.total]) && ListClear(to, b.total, HeaderAt(clb, r), fb)
    requires b.start + b.total <= |m.disk| && |one.m.mem| == |m.mem| && Within(Addresses(from), b.total, |m.mem|)
    requires one.count == Some(b.total) && one.m.disk == Write(m.disk, b.start, Picked(m.mem, Addresses(from), b.total))
    ensures Carried(m, one, two, b, Addresses(from), Addresses(to))
  {
    ReadDelivers(one.m, two, clb, fb, r, identify, b, to);
    WrittenSlice(m.disk, b.start, Picked(m.mem, Addresses(from), b.total));
  }

  /** WRITE DMA EXT through one list, then READ DMA EXT of the same sectors through another: the bytes
      that the second list delivers are those the first collected, however either is split; both report
      the whole transfer and every other disk byte is as it was. */
  lemma WriteThenRead(m: Machine, one: Moved, two: Moved, clb: u64, fb: u64, w: nat, r: nat, identify: seq<byte>,
                      b: Bounds, from: seq<Seg>, to: seq<Seg>)
    requires one == Ran(m, clb, fb, w, identify) && two == Ran(one.m, clb, fb, r, identify)
    requires Issued(m, HeaderAt(clb, w), WRITE_DMA_EXT, b, from) && Issued(m, HeaderAt(clb, r), READ_DMA_EXT, b, to)
    requires SameCommand(m.mem, Completed(m.mem, HeaderAt(clb, w), fb, Some(b.total)), HeaderAt(clb, r))
    requires Distinct(Addresses(to)[..b.total]) && ListClear(to, b.total, HeaderAt(clb, r), fb)
    requires b.start + b.total <= |m.disk|
    ensures Carried(m, one, two, b, Addresses(from), Addresses(to))
  {
    WriteRuns(m, clb, fb, w, identify, b, from);
    StillIssued(m, one.m, HeaderAt(clb, r), b, to);
    ReadAfterWrite(m, one, two, clb, fb, r, identify, b, from, to);
  }
}
