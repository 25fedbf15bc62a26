/** Transmission as a driver sees it: descriptors posted in the ring, a kick of the tail, and the frames on the wire. */
module E1000Driver {
  import opened Arith
  import opened Common
  import opened Dma
  import opened E1000Frames
  import opened E1000Layout
  import opened E1000Tx

  // A buffer posted in a legacy descriptor.
  datatype Post = Post(addr: u64, len: nat, eop: bool, rs: bool) {
    function Found(): Descriptor { Descriptor(true, addr, len, eop, rs) }
  }

  // Its sixteen bytes, whatever the checksum offset, the other command bits and the write-back half hold.
  ghost predicate Posted(mem: Mem, at: nat, p: Post) {
    p.len < 0x1_0000 && at + 16 <= |mem| && Spelled(mem[at..at + 16], p)
  }

  ghost predicate Spelled(raw: seq<byte>, p: Post) { exists cso, cmd, bits, rest :: Spells(raw, p, cso, cmd, bits, rest) }

  ghost predicate Spells(raw: seq<byte>, p: Post, cso: byte, cmd: byte, bits: seq<bool>, rest: seq<byte>) {
    && Command(bits, cmd) && bits[0] == p.eop && bits[3] == p.rs && !bits[5] && |rest| == 4
    && raw == LegacyBytes(p.addr, p.len, cso, cmd, rest)
  }

  lemma PostedIsFetched(mem: Mem, at: nat, p: Post)
    requires Posted(mem, at, p)
    ensures Fetch(mem, at) == Some(p.Found())
  {
    var cso, cmd, bits, rest :| Spells(mem[at..at + 16], p, cso, cmd, bits, rest);
    LegacyReadsBack(p.addr, p.len, cso, cmd, bits, rest);
  }

  // The ring of `count` descriptors at base holds the posts from `head` on, round its end.
  ghost predicate RingHolds(mem: Mem, base: u64, count: nat, head: nat, posts: seq<Post>) {
    && head < count && |posts| < count && base + 16 * count <= |mem| < TWO64
    && forall k {:trigger posts[k]} :: 0 <= k < |posts| ==> Posted(mem, base + 16 * ((head + k) % count), posts[k])
  }

  ghost function JobOf(mem: Mem, base: u64, count: nat, head: nat, posts: seq<Post>): Job {
    Job(mem, Ring(base, count), head, seq(|posts|, k requires 0 <= k < |posts| => posts[k].Found()))
  }

  lemma IndexWraps(head: nat, k: nat, count: nat)
    requires head < count && k < count
    ensures Index(head, k, count) == (head + k) % count
  {
    if head + k < count {
      DivModUnique(head + k, count, 0, head + k);
    } else {
      DivModUnique(head + k, count, 1, head + k - count);
    }
  }

  lemma RingIsJob(mem: Mem, base: u64, count: nat, head: nat, posts: seq<Post>)
    requires RingHolds(mem, base, count, head, posts)
    ensures JobOf(mem, base, count, head, posts).Valid()
  {
    var job := JobOf(mem, base, count, head, posts);
    forall k | 0 <= k < |posts|
      ensures Fetch(mem, Gpa(job.r, Index(head, k, count))) == Some(job.descs[k])
    {
      IndexWraps(head, k, count);
      assert Gpa(job.r, Index(head, k, count)) == base + 16 * ((head + k) % count);
      PostedIsFetched(mem, base + 16 * ((head + k) % count), posts[k]);
    }
  }

  // The address of the status byte of post k.
  function StatusOf(base: u64, count: nat, head: nat, k: nat): nat
    requires count > 0
  {
    base + 16 * ((head + k) % count) + 12
  }

  // No buffer holds the status byte of a post that asks for a report.
  ghost predicate BuffersClear(base: u64, count: nat, head: nat, posts: seq<Post>)
    requires count > 0
  {
    forall k, a :: 0 <= k < |posts| && posts[k].addr <= a < posts[k].addr + posts[k].len ==>
      !IsStatus(base, count, head, posts, a)
  }

  ghost predicate Inside(mem: Mem, posts: seq<Post>) {
    forall k :: 0 <= k < |posts| ==> posts[k].addr + posts[k].len <= |mem|
  }

  // What the posts put on the wire: their buffers, and where packets end.
  ghost function Sent(mem: Mem, posts: seq<Post>): seq<Item>
    requires Inside(mem, posts)
  {
    seq(|posts|, k requires 0 <= k < |posts| => Item(mem[posts[k].addr..posts[k].addr + posts[k].len], posts[k].eop))
  }

  lemma BuffersAreClear(mem: Mem, base: u64, count: nat, head: nat, posts: seq<Post>)
    requires RingHolds(mem, base, count, head, posts) && BuffersClear(base, count, head, posts) && Inside(mem, posts)
    ensures JobOf(mem, base, count, head, posts).Valid() && JobOf(mem, base, count, head, posts).Clear()
    ensures JobOf(mem, base, count, head, posts).Items() == Sent(mem, posts)
  {
    RingIsJob(mem, base, count, head, posts);
    var job := JobOf(mem, base, count, head, posts);
    forall k | 0 <= k < |posts|
      ensures job.Unmarked(posts[k].addr, posts[k].len)
    {
      forall a | posts[k].addr <= a < posts[k].addr + posts[k].len
        ensures !job.Marked(a)
      {
        MarkedIs(mem, base, count, head, posts, a);
        assert posts[k] == posts[k];
      }
    }
  }

  lemma StatusIs(r: Ring, head: nat, j: nat)
    requires head < r.count && j < r.count
    ensures Gpa(r, Index(head, j, r.count)) + 12 == StatusOf(r.base, r.count, head, j)
  {
    IndexWraps(head, j, r.count);
  }

  lemma MarkedIs(mem: Mem, base: u64, count: nat, head: nat, posts: seq<Post>, a: nat)
    requires JobOf(mem, base, count, head, posts).Valid()
    ensures JobOf(mem, base, count, head, posts).Marked(a) <==> IsStatus(base, count, head, posts, a)
  {
    var job := JobOf(mem, base, count, head, posts);
    if job.Marked(a) {
      var j :| 0 <= j < |posts| && job.descs[j].rs && a == Gpa(job.r, Index(head, j, count)) + 12;
      StatusIs(job.r, head, j);
      assert posts[j].rs && a == StatusOf(base, count, head, j);
    }
    if IsStatus(base, count, head, posts, a) {
      var j :| 0 <= j < |posts| && posts[j].rs && a == StatusOf(base, count, head, j);
      StatusIs(job.r, head, j);
      assert job.descs[j].rs && a == Gpa(job.r, Index(head, j, count)) + 12;
    }
  }

  // The status byte of a post that asks for a report.
  ghost predicate IsStatus(base: u64, count: nat, head: nat, posts: seq<Post>, a: nat)
    requires count > 0
  {
    exists j :: 0 <= j < |posts| && posts[j].rs && a == StatusOf(base, count, head, j)
  }

  // No frame outgrows the size cap.
  ghost predicate Small(mem: Mem, posts: seq<Post>, w: Wire)
    requires Inside(mem, posts)
  {
    forall k :: 0 <= k < |posts| ==> |Assembled(w, Sent(mem, posts), k).partial| + posts[k].len <= 16384
  }

  // What a kick leaves: frames, status bytes, the rest of memory and the cause.
  ghost predicate Delivered(mem: Mem, base: u64, count: nat, posts: seq<Post>, t: Tx, u: Tx)
    requires count > 0 && Inside(mem, posts)
  {
    && |u.mem| == |mem| && Wire(u.partial, u.queue) == Assembled(Wire(t.partial, t.queue), Sent(mem, posts), |posts|)
    && (forall a :: 0 <= a < |mem| ==> u.mem[a] == if IsStatus(base, count, t.head, posts, a) then 1 else mem[a])
    && (u.txdw <==> t.txdw || exists k :: 0 <= k < |posts| && (posts[k].eop || posts[k].rs))
  }

  lemma JobSized(mem: Mem, base: u64, count: nat, head: nat, posts: seq<Post>, w: Wire)
    requires RingHolds(mem, base, count, head, posts) && BuffersClear(base, count, head, posts)
    requires Inside(mem, posts) && Small(mem, posts, w)
    ensures JobOf(mem, base, count, head, posts).Valid() && JobOf(mem, base, count, head, posts).Clear()
    ensures JobOf(mem, base, count, head, posts).Sized(w)
  {
    BuffersAreClear(mem, base, count, head, posts);
    var items := Sent(mem, posts);
    forall k | 0 <= k < |posts|
      ensures |Assembled(w, items, k).partial| + |items[k].data| <= MAX_FRAME
    {
      assert |items[k].data| == posts[k].len;
    }
  }

  lemma ReportsShow(mem: Mem, base: u64, count: nat, head: nat, posts: seq<Post>, m: Mem, a: nat)
    requires JobOf(mem, base, count, head, posts).Valid() && a < |mem|
    requires JobOf(mem, base, count, head, posts).Intact(m) && JobOf(mem, base, count, head, posts).Reported(m, |posts|)
    ensures |m| == |mem| && m[a] == if IsStatus(base, count, head, posts, a) then 1 else mem[a]
  {
    var job := JobOf(mem, base, count, head, posts);
    MarkedIs(mem, base, count, head, posts, a);
    if job.Marked(a) {
      var j :| 0 <= j < |posts| && job.descs[j].rs && a == Gpa(job.r, Index(head, j, count)) + 12;
      assert job.StatusAt(j) == a;
    }
  }

  lemma RaisedIs(mem: Mem, base: u64, count: nat, head: nat, posts: seq<Post>, was: bool)
    ensures JobOf(mem, base, count, head, posts).Raised(was, |posts|)
        <==> was || exists k :: 0 <= k < |posts| && (posts[k].eop || posts[k].rs)
  {
    var job := JobOf(mem, base, count, head, posts);
    forall k | 0 <= k < |posts|
      ensures job.descs[k].eop == posts[k].eop && job.descs[k].rs == posts[k].rs
    {
    }
  }

  /** A kick of the tail past the posts: their buffers go out in order, cut into frames where packets end, each post
      that asked has its status byte at 1, no other byte of memory changes, and the cause is raised exactly when a
      packet ended or a report was asked for. */
  lemma KickSends(mem: Mem, base: u64, count: nat, posts: seq<Post>, t: Tx, tail: nat)
    requires RingHolds(mem, base, count, t.head, posts) && BuffersClear(base, count, t.head, posts) && t.mem == mem
    requires tail == (t.head + |posts|) % count && Inside(mem, posts) && Small(mem, posts, Wire(t.partial, t.queue))
    ensures var u := Walk(Walker(Ring(base, count)), t, tail, count);
      u.head == tail && Delivered(mem, base, count, posts, t, u)
  {
    var job, u := JobOf(mem, base, count, t.head, posts), Walk(Walker(Ring(base, count)), t, tail, count);
    JobSized(mem, base, count, t.head, posts, Wire(t.partial, t.queue));
    IndexWraps(t.head, |posts|, count);
    KickAssembles(job, t, tail);
    BuffersAreClear(mem, base, count, t.head, posts);
    RaisedIs(mem, base, count, t.head, posts, t.txdw);
    forall a | 0 <= a < |mem|
      ensures u.mem[a] == if IsStatus(base, count, t.head, posts, a) then 1 else mem[a]
    {
      ReportsShow(mem, base, count, t.head, posts, u.mem, a);
    }
  }

  lemma RingSize(base: u64, count: nat, tdlen: nat)
    requires tdlen == 16 * count
    ensures tdlen / DESC_SIZE == count
  {
  }

  /** The device itself, with a ring of `count` descriptors in TDLEN and transmission enabled, walks that ring. */
  method KickDevice(t: Transmitter, count: nat, tail: nat)
    requires t.enabled && count > 0 && t.tdlen == 16 * count
    modifies t
    ensures t.base == old(t.base) && t.tx == Walk(Walker(Ring(t.base, count)), old(t.tx), tail, count)
  {
    RingSize(t.base, count, t.tdlen);
    t.Kick(tail);
  }
}
