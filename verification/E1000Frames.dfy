/** What the transmit walk puts on the wire: the buffers between EOPs, joined, in order. */
module E1000Frames {
  import opened Arith
  import opened Common
  import opened Dma
  import opened E1000Tx

  // ---- Frames from a list of buffers -------------------------------------------------------

  datatype Item = Item(data: seq<byte>, eop: bool)
  datatype Wire = Wire(partial: seq<byte>, queue: seq<seq<byte>>)

  ghost function Taken(w: Wire, item: Item): Wire {
    var data := w.partial + item.data;
    if !item.eop then Wire(data, w.queue) else Wire([], if data == [] then w.queue else w.queue + [data])
  }

  ghost function Assembled(w: Wire, items: seq<Item>, n: nat): Wire
    requires n <= |items|
  {
    if n == 0 then w else Taken(Assembled(w, items, n - 1), items[n - 1])
  }

  // The data of items i up to j, joined.
  ghost function Joined(items: seq<Item>, i: nat, j: nat): seq<byte>
    requires i <= j <= |items|
  {
    if i == j then [] else Joined(items, i, j - 1) + items[j - 1].data
  }

  ghost function Flat(queue: seq<seq<byte>>): seq<byte> {
    if queue == [] then [] else Flat(queue[..|queue| - 1]) + queue[|queue| - 1]
  }

  lemma FlatSnoc(queue: seq<seq<byte>>, frame: seq<byte>)
    ensures Flat(queue + [frame]) == Flat(queue) + frame
  {
    assert (queue + [frame])[..|queue|] == queue;
  }

  ghost function Bytes(w: Wire): seq<byte> { Flat(w.queue) + w.partial }

  lemma TakenConserves(w: Wire, item: Item)
    ensures Bytes(Taken(w, item)) == Bytes(w) + item.data
  {
    var data := w.partial + item.data;
    FlatSnoc(w.queue, data);
    assert Flat(w.queue) + data == Bytes(w) + item.data;
    assert data == [] ==> Flat(w.queue) + data == Flat(w.queue) + [];
    assert (Flat(w.queue) + data) + [] == Flat(w.queue) + data;
  }

  /** No byte is lost, repeated or reordered: what is queued and still partial is what went in. */
  lemma {:induction false} Conserved(w: Wire, items: seq<Item>, n: nat)
    requires n <= |items|
    ensures Bytes(Assembled(w, items, n)) == Bytes(w) + Joined(items, 0, n)
  {
    if n == 0 {
      assert Bytes(w) + [] == Bytes(w);
    } else {
      Conserved(w, items, n - 1);
      TakenConserves(Assembled(w, items, n - 1), items[n - 1]);
      JoinedAgain(Bytes(w), Joined(items, 0, n - 1), items[n - 1].data);
    }
  }

  lemma JoinedAgain(a: seq<byte>, b: seq<byte>, c: seq<byte>)
    ensures (a + b) + c == a + (b + c)
  {
  }

  // Items i up to j without an end of packet only grow the partial frame.
  lemma {:induction false} Growing(w: Wire, items: seq<Item>, i: nat, j: nat)
    requires i <= j <= |items| && forall k :: i <= k < j ==> !items[k].eop
    ensures Assembled(w, items, j)
         == Wire(Assembled(w, items, i).partial + Joined(items, i, j), Assembled(w, items, i).queue)
  {
    if i == j {
      assert Assembled(w, items, i).partial + [] == Assembled(w, items, i).partial;
    } else {
      Growing(w, items, i, j - 1);
      assert (Assembled(w, items, i).partial + Joined(items, i, j - 1)) + items[j - 1].data
          == Assembled(w, items, i).partial + Joined(items, i, j);
    }
  }

  /** Between one end of packet and the next lies one frame, the join of its buffers, unless it is
      empty. */
  lemma FrameBetween(w: Wire, items: seq<Item>, i: nat, j: nat)
    requires i <= j < |items| && items[j].eop && forall k :: i <= k < j ==> !items[k].eop
    requires Assembled(w, items, i).partial == []
    ensures Assembled(w, items, j + 1).partial == []
    ensures Assembled(w, items, j + 1).queue
         == Assembled(w, items, i).queue + if Joined(items, i, j + 1) == [] then [] else [Joined(items, i, j + 1)]
  {
    Growing(w, items, i, j);
    assert [] + Joined(items, i, j) == Joined(items, i, j);
    assert Assembled(w, items, i).queue + [] == Assembled(w, items, i).queue;
  }

  // ---- The walk over a ring in memory ------------------------------------------------------

  // The ring position k descriptors on from the head.
  function Index(head: nat, k: nat, count: nat): nat
    requires head < count && k < count
  {
    if head + k < count then head + k else head + k - count
  }

  function Gpa(r: Ring, i: nat): nat { r.base + i * DESC_SIZE }

  // What the walk finds: the ring inside memory, its descriptors from the head on, and their buffers.
  datatype Job = Job(mem: Mem, r: Ring, head: nat, descs: seq<Descriptor>) {
    ghost predicate Valid() {
      && head < r.count && |descs| < r.count && r.base + r.count * DESC_SIZE <= |mem| < TWO64
      && forall k :: 0 <= k < |descs| ==> Fetch(mem, Gpa(r, Index(head, k, r.count))) == Some(descs[k])
    }

    // The status byte of a descriptor that asks for a report.
    ghost predicate Marked(a: nat)
      requires Valid()
    {
      exists j :: 0 <= j < |descs| && descs[j].rs && a == Gpa(r, Index(head, j, r.count)) + 12
    }

    // Memory as the walk leaves it: changed at most at the marked bytes.
    ghost predicate Intact(m: Mem)
      requires Valid()
    {
      |m| == |mem| && forall a :: 0 <= a < |mem| && !Marked(a) ==> m[a] == mem[a]
    }

    ghost function StatusAt(j: nat): nat
      requires Valid() && j < |descs|
    {
      Gpa(r, Index(head, j, r.count)) + 12
    }

    // The first k descriptors have their reports.
    ghost predicate Reported(m: Mem, k: nat)
      requires Valid() && k <= |descs|
    {
      forall j :: 0 <= j < k && descs[j].rs ==> StatusAt(j) < |m| && m[StatusAt(j)] == 1
    }

    // The cause of the interrupt is up: it was, or one of the first k descriptors ends a packet or asks for a report.
    ghost predicate Raised(was: bool, k: nat)
      requires k <= |descs|
    {
      was || exists j :: 0 <= j < k && (descs[j].eop || descs[j].rs)
    }

    // Buffers lie inside memory and no report is written into them.
    ghost predicate Clear()
      requires Valid()
    {
      forall k :: 0 <= k < |descs| && descs[k].buffer ==>
        InBounds(mem, descs[k].addr, descs[k].len) && Unmarked(descs[k].addr, descs[k].len)
    }

    ghost predicate Unmarked(at: nat, n: nat)
      requires Valid()
    {
      forall a :: at <= a < at + n ==> !Marked(a)
    }

    ghost function ItemAt(k: nat): Item
      requires Valid() && Clear() && k < |descs|
    {
      var d := descs[k];
      Item(if d.buffer then mem[d.addr..d.addr + d.len] else [], d.eop)
    }

    ghost function Items(): (items: seq<Item>)
      requires Valid() && Clear()
      ensures |items| == |descs|
    {
      seq(|descs|, k requires 0 <= k < |descs| => ItemAt(k))
    }

    // No frame outgrows the size cap.
    ghost predicate Sized(w: Wire)
      requires Valid() && Clear()
    {
      forall k :: 0 <= k < |descs| ==> |Assembled(w, Items(), k).partial| + |Items()[k].data| <= MAX_FRAME
    }
  }

  lemma ParsePrefix(raw: seq<byte>, raw': seq<byte>)
    requires |raw| == DESC_SIZE == |raw'| && forall i :: 0 <= i < 12 ==> raw[i] == raw'[i]
    ensures Parse(raw) == Parse(raw')
  {
    assert raw[..8] == raw'[..8];
  }

  lemma GpaInside(r: Ring, i: nat, size: nat)
    requires i < r.count && r.base + r.count * DESC_SIZE <= size < TWO64
    ensures Gpa(r, i) + DESC_SIZE <= size && GpaOf(r.base, i) == Gpa(r, i)
  {
    MulMonotone(i + 1, r.count, DESC_SIZE);
  }

  // A status byte is never one of the first twelve of any descriptor.
  lemma StatusElsewhere(r: Ring, i: nat, m: nat, a: nat)
    requires Gpa(r, i) <= a < Gpa(r, i) + 12
    ensures a != Gpa(r, m) + 12
  {
  }

  lemma MarkedIsStatus(job: Job, i: nat, a: nat)
    requires job.Valid() && i < job.r.count && Gpa(job.r, i) <= a < Gpa(job.r, i) + 12
    ensures !job.Marked(a)
  {
    forall j | 0 <= j < |job.descs|
      ensures a != Gpa(job.r, Index(job.head, j, job.r.count)) + 12
    {
      StatusElsewhere(job.r, i, Index(job.head, j, job.r.count), a);
    }
  }

  lemma FetchIntact(job: Job, m: Mem, k: nat)
    requires job.Valid() && job.Intact(m) && k < |job.descs|
    ensures Fetch(m, Gpa(job.r, Index(job.head, k, job.r.count))) == Some(job.descs[k])
  {
    var i := Index(job.head, k, job.r.count);
    var at := Gpa(job.r, i);
    GpaInside(job.r, i, |m|);
    var raw, was := m[at..at + DESC_SIZE], job.mem[at..at + DESC_SIZE];
    forall x | 0 <= x < 12
      ensures raw[x] == was[x]
    {
      MarkedIsStatus(job, i, at + x);
    }
    ParsePrefix(raw, was);
  }

  lemma AppendIntact(job: Job, m: Mem, partial: seq<byte>, k: nat)
    requires job.Valid() && job.Clear() && job.Intact(m) && k < |job.descs|
    requires |partial| + |job.ItemAt(k).data| <= MAX_FRAME
    ensures Appended(m, partial, job.descs[k]) == partial + job.ItemAt(k).data
  {
    var d := job.descs[k];
    if d.buffer {
      assert m[d.addr..d.addr + d.len] == job.mem[d.addr..d.addr + d.len] by {
        assert job.Unmarked(d.addr, d.len);
      }
    }
  }

  lemma MarkIntact(job: Job, m: Mem, k: nat)
    requires job.Valid() && job.Intact(m) && k < |job.descs| && job.descs[k].rs
    ensures job.Intact(Write(m, job.StatusAt(k), [1]))
  {
    assert job.Marked(job.StatusAt(k));
  }

  ghost function MarkedBy(job: Job, m: Mem, k: nat): Mem
    requires job.Valid() && k < |job.descs|
  {
    if job.descs[k].rs then Write(m, job.StatusAt(k), [1]) else m
  }

  lemma MarkNext(job: Job, m: Mem, k: nat)
    requires job.Valid() && job.Intact(m) && k < |job.descs| && job.Reported(m, k)
    ensures job.Intact(MarkedBy(job, m, k)) && job.Reported(MarkedBy(job, m, k), k + 1)
  {
    GpaInside(job.r, Index(job.head, k, job.r.count), |m|);
    if job.descs[k].rs {
      MarkIntact(job, m, k);
    }
  }

  lemma RaisedNext(job: Job, was: bool, k: nat)
    requires k < |job.descs|
    ensures job.Raised(was, k + 1) == (job.Raised(was, k) || job.descs[k].eop || job.descs[k].rs)
  {
  }

  // Where the walk stands after k descriptors.
  ghost predicate Reached(job: Job, w: Wire, k: nat, u: Tx)
    requires job.Valid() && job.Clear() && k <= |job.descs|
  {
    && u.head == Index(job.head, k, job.r.count) && job.Intact(u.mem) && job.Reported(u.mem, k)
    && Wire(u.partial, u.queue) == Assembled(w, job.Items(), k)
  }

  ghost predicate Caused(job: Job, was: bool, k: nat, u: Tx)
    requires k <= |job.descs|
  {
    u.txdw == job.Raised(was, k)
  }

  lemma ReachedNext(job: Job, w: Wire, k: nat, u: Tx)
    requires job.Valid() && job.Clear() && job.Sized(w) && k < |job.descs| && Reached(job, w, k, u)
    ensures One(u, job.r).Some? && Reached(job, w, k + 1, One(u, job.r).value)
  {
    var at := Gpa(job.r, u.head);
    GpaInside(job.r, u.head, |u.mem|);
    FetchIntact(job, u.mem, k);
    assert job.Items()[k] == job.ItemAt(k);
    AppendIntact(job, u.mem, u.partial, k);
    MarkNext(job, u.mem, k);
    assert One(u, job.r).value.mem == MarkedBy(job, u.mem, k);
    NextInRing(u.head, job.r.count);
  }

  lemma CausedNext(job: Job, w: Wire, was: bool, k: nat, u: Tx)
    requires job.Valid() && job.Clear() && k < |job.descs| && Reached(job, w, k, u) && Caused(job, was, k, u)
    requires One(u, job.r).Some?
    ensures Caused(job, was, k + 1, One(u, job.r).value)
  {
    GpaInside(job.r, u.head, |u.mem|);
    FetchIntact(job, u.mem, k);
    RaisedNext(job, was, k);
  }

  // What every descriptor keeps, the walk keeps.
  lemma {:induction false} StepsKeep<T(!new)>(one: T -> Option<T>, t: T, k: nat, n: nat, p: (nat, T) -> bool)
    requires p(k, t) && k <= n
    requires forall i: nat, u :: i < n && p(i, u) ==> one(u).Some? && p(i + 1, one(u).value)
    ensures p(n, Steps(one, t, n - k))
    decreases n - k
  {
    if k < n {
      StepsKeep(one, one(t).value, k + 1, n, p);
    }
  }

  ghost function ReachedBy(job: Job, w: Wire, was: bool): (nat, Tx) -> bool
    requires job.Valid() && job.Clear()
  {
    (k: nat, u: Tx) => k <= |job.descs| && Reached(job, w, k, u) && Caused(job, was, k, u)
  }

  lemma KeepsReached(job: Job, w: Wire, was: bool)
    requires job.Valid() && job.Clear() && job.Sized(w)
    ensures forall i: nat, u :: i < |job.descs| && ReachedBy(job, w, was)(i, u) ==>
      Walker(job.r)(u).Some? && ReachedBy(job, w, was)(i + 1, Walker(job.r)(u).value)
  {
    forall i: nat, u | i < |job.descs| && ReachedBy(job, w, was)(i, u)
      ensures Walker(job.r)(u).Some? && ReachedBy(job, w, was)(i + 1, Walker(job.r)(u).value)
    {
      StepReached(job, w, was, i, u);
    }
  }

  lemma StepReached(job: Job, w: Wire, was: bool, i: nat, u: Tx)
    requires job.Valid() && job.Clear() && job.Sized(w) && i < |job.descs|
    requires Reached(job, w, i, u) && Caused(job, was, i, u)
    ensures One(u, job.r).Some? && Reached(job, w, i + 1, One(u, job.r).value) && Caused(job, was, i + 1, One(u, job.r).value)
  {
    ReachedNext(job, w, i, u);
    CausedNext(job, w, was, i, u);
  }

  lemma StartsReached(job: Job, t: Tx)
    requires job.Valid() && job.Clear() && t.mem == job.mem && t.head == job.head
    ensures ReachedBy(job, Wire(t.partial, t.queue), t.txdw)(0, t)
  {
  }

  /** When the buffers can be read, fit the cap and are clear of the write-backs, walking the ring
      assembles exactly the buffers its descriptors name in memory at the start. */
  lemma WalkAssembles(job: Job, t: Tx)
    requires job.Valid() && job.Clear() && t.mem == job.mem && t.head == job.head
    requires job.Sized(Wire(t.partial, t.queue))
    ensures Reached(job, Wire(t.partial, t.queue), |job.descs|, Steps(Walker(job.r), t, |job.descs|))
    ensures Caused(job, t.txdw, |job.descs|, Steps(Walker(job.r), t, |job.descs|))
  {
    KeepsReached(job, Wire(t.partial, t.queue), t.txdw);
    StartsReached(job, t);
    WalkKeeps(Walker(job.r), ReachedBy(job, Wire(t.partial, t.queue), t.txdw), t, |job.descs|);
  }

  lemma WalkKeeps(one: Tx -> Option<Tx>, p: (nat, Tx) -> bool, t: Tx, n: nat)
    requires p(0, t) && forall i: nat, u :: i < n && p(i, u) ==> one(u).Some? && p(i + 1, one(u).value)
    ensures p(n, Steps(one, t, n))
  {
    StepsKeep(one, t, 0, n, p);
  }

  /** A kick of the tail: the descriptors from head round to tail leave the head at the tail, queue the
      frames assembled from their buffers, set the status bytes asked for, change memory nowhere else and raise the
      cause exactly when one of them ends a packet or asks for a report. */
  lemma KickAssembles(job: Job, t: Tx, tail: nat)
    requires job.Valid() && job.Clear() && t.mem == job.mem && t.head == job.head
    requires tail < job.r.count && |job.descs| == Distance(job.head, tail, job.r.count)
    requires job.Sized(Wire(t.partial, t.queue))
    ensures var u := Walk(Walker(job.r), t, tail, job.r.count);
      u.head == tail && job.Intact(u.mem) && job.Reported(u.mem, |job.descs|) &&
      Wire(u.partial, u.queue) == Assembled(Wire(t.partial, t.queue), job.Items(), |job.descs|) &&
      u.txdw == job.Raised(t.txdw, |job.descs|)
  {
    WalkerAdvances(job.r);
    WalkIsSteps(Walker(job.r), t, tail, job.r.count, job.r.count);
    WalkAssembles(job, t);
  }
}
