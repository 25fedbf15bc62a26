/**
 Scatter/gather lists: what a DMA command moves through its region descriptors, in terms of the guest
 addresses they name one after the other.
 */
module Scatter {
  import opened Dma

  type pos = x: int | x > 0 witness 1

  datatype Seg = Seg(gpa: nat, len: pos)

  function Min(a: nat, b: nat): nat { if a < b then a else b }

  // Bytes in the first n segments.
  function Base(segs: seq<Seg>, n: nat): nat
    requires n <= |segs|
  {
    if n == 0 then 0 else Base(segs, n - 1) + segs[n - 1].len
  }

  function Run(s: Seg): (r: seq<nat>)
    ensures |r| == s.len
  {
    seq(s.len, k requires 0 <= k => s.gpa + k)
  }

  // Every address the first n segments name, in the order they are visited.
  ghost function AddressesTo(segs: seq<Seg>, n: nat): (r: seq<nat>)
    requires n <= |segs|
    ensures |r| == Base(segs, n)
  {
    if n == 0 then [] else AddressesTo(segs, n - 1) + Run(segs[n - 1])
  }

  ghost function Addresses(segs: seq<Seg>): seq<nat> { AddressesTo(segs, |segs|) }

  lemma {:induction false} AddressAt(segs: seq<Seg>, n: nat, i: nat, k: nat)
    requires i < n <= |segs| && k < segs[i].len
    ensures Base(segs, i) + k < Base(segs, n) && AddressesTo(segs, n)[Base(segs, i) + k] == segs[i].gpa + k
  {
    if i < n - 1 {
      AddressAt(segs, n - 1, i, k);
    }
  }

  // How far a transfer gets: segment by segment up to the first whose part lies outside memory.
  function Reach(segs: seq<Seg>, i: nat, off: nat, total: nat, size: nat): (r: nat)
    requires i <= |segs| && off <= total
    ensures off <= r <= total
    decreases |segs| - i
  {
    if i == |segs| || off == total then off
    else
      var n := Min(segs[i].len, total - off);
      if segs[i].gpa + n > size then off else Reach(segs, i + 1, off + n, total, size)
  }

  ghost predicate Below(addrs: seq<nat>, lo: nat, hi: nat, size: nat) {
    hi <= |addrs| && forall k :: lo <= k < hi ==> addrs[k] < size
  }

  // The addresses of segment i, as far as a transfer needs them.
  lemma RunBelow(segs: seq<Seg>, i: nat, n: nat, size: nat)
    requires i < |segs| && 0 < n <= segs[i].len
    ensures Base(segs, i) + n <= |Addresses(segs)|
    ensures forall k :: Base(segs, i) <= k < Base(segs, i) + n ==> Addresses(segs)[k] == segs[i].gpa + (k - Base(segs, i))
    ensures Below(Addresses(segs), Base(segs, i), Base(segs, i) + n, size) <==> segs[i].gpa + n <= size
  {
    var b := Base(segs, i);
    AddressAt(segs, |segs|, i, n - 1);
    forall k | b <= k < b + n
      ensures Addresses(segs)[k] == segs[i].gpa + (k - b)
    {
      AddressAt(segs, |segs|, i, k - b);
    }
    assert Addresses(segs)[b + n - 1] == segs[i].gpa + n - 1;
  }

  /** A transfer gets through exactly when every address it needs lies inside memory; it then moves the
      smaller of its own length and that of the list. */
  lemma {:induction false} ReachesAll(segs: seq<Seg>, i: nat, total: nat, size: nat)
    requires i <= |segs|
    ensures Min(total, Base(segs, i)) <= Reach(segs, i, Min(total, Base(segs, i)), total, size)
    ensures Reach(segs, i, Min(total, Base(segs, i)), total, size) <= Min(total, |Addresses(segs)|)
    ensures Reach(segs, i, Min(total, Base(segs, i)), total, size) == Min(total, |Addresses(segs)|)
        <==> Below(Addresses(segs), Min(total, Base(segs, i)), Min(total, |Addresses(segs)|), size)
    decreases |segs| - i
  {
    var off, want := Min(total, Base(segs, i)), Min(total, |Addresses(segs)|);
    BaseMonotone(segs, i, |segs|);
    if i < |segs| && off < total {
      var n := Min(segs[i].len, total - off);
      assert Min(total, Base(segs, i + 1)) == off + n;
      RunBelow(segs, i, n, size);
      ReachesAll(segs, i + 1, total, size);
      BelowSplit(Addresses(segs), off, off + n, want, size);
    }
  }

  // Whatever a transfer reaches lies inside memory.
  lemma {:induction false} ReachBelow(segs: seq<Seg>, i: nat, total: nat, size: nat)
    requires i <= |segs|
    ensures Below(Addresses(segs), Min(total, Base(segs, i)), Reach(segs, i, Min(total, Base(segs, i)), total, size), size)
    decreases |segs| - i
  {
    var off := Min(total, Base(segs, i));
    BaseMonotone(segs, i, |segs|);
    if i < |segs| && off < total {
      var n := Min(segs[i].len, total - off);
      assert Min(total, Base(segs, i + 1)) == off + n;
      RunBelow(segs, i, n, size);
      ReachBelow(segs, i + 1, total, size);
      if segs[i].gpa + n <= size {
        BelowSplit(Addresses(segs), off, off + n, Reach(segs, i, off, total, size), size);
      }
    }
  }

  lemma BelowSplit(addrs: seq<nat>, lo: nat, mid: nat, hi: nat, size: nat)
    requires lo <= mid <= hi <= |addrs|
    ensures Below(addrs, lo, hi, size) <==> Below(addrs, lo, mid, size) && Below(addrs, mid, hi, size)
  {
  }

  lemma {:induction false} BaseMonotone(segs: seq<Seg>, i: nat, n: nat)
    requires i <= n <= |segs|
    ensures Base(segs, i) <= Base(segs, n)
  {
    if i < n {
      BaseMonotone(segs, i, n - 1);
    }
  }

  // ---- Bytes by address --------------------------------------------------------------------

  ghost predicate Within(addrs: seq<nat>, n: nat, size: nat) {
    n <= |addrs| && forall k :: 0 <= k < n ==> addrs[k] < size
  }

  // The bytes at the first n addresses.
  ghost function Picked(mem: Mem, addrs: seq<nat>, n: nat): (r: seq<byte>)
    requires Within(addrs, n, |mem|)
  {
    seq(n, k requires 0 <= k < n => mem[addrs[k]])
  }

  // Memory after the first n bytes of data have gone to their addresses, one after the other.
  ghost function Spread(mem: Mem, addrs: seq<nat>, data: seq<byte>, n: nat): (r: Mem)
    requires Within(addrs, n, |mem|) && n <= |data|
    ensures |r| == |mem|
  {
    if n == 0 then mem else Spread(mem, addrs, data, n - 1)[addrs[n - 1] := data[n - 1]]
  }

  ghost predicate Distinct(xs: seq<nat>) {
    forall i, j :: 0 <= i < j < |xs| ==> xs[i] != xs[j]
  }

  /** Spreading leaves every other address alone. */
  lemma {:induction false} SpreadElsewhere(mem: Mem, addrs: seq<nat>, data: seq<byte>, n: nat, a: nat)
    requires Within(addrs, n, |mem|) && n <= |data| && a < |mem| && a !in addrs[..n]
    ensures Spread(mem, addrs, data, n)[a] == mem[a]
  {
    if n > 0 {
      assert addrs[..n][n - 1] == addrs[n - 1] && addrs[..n - 1] == addrs[..n][..n - 1];
      SpreadElsewhere(mem, addrs, data, n - 1, a);
    }
  }

  /** Over distinct addresses, byte k lands at address k. */
  lemma {:induction false} SpreadAt(mem: Mem, addrs: seq<nat>, data: seq<byte>, n: nat, k: nat)
    requires Within(addrs, n, |mem|) && n <= |data| && k < n && Distinct(addrs[..n])
    ensures Spread(mem, addrs, data, n)[addrs[k]] == data[k]
  {
    assert addrs[..n][k] == addrs[k] && addrs[..n][n - 1] == addrs[n - 1] && addrs[..n - 1] == addrs[..n][..n - 1];
    if k < n - 1 {
      SpreadAt(mem, addrs, data, n - 1, k);
    }
  }

  /** Picking up a list that visits no address twice gives what was spread over it. */
  lemma PickedOfSpread(mem: Mem, addrs: seq<nat>, data: seq<byte>, n: nat)
    requires Within(addrs, n, |mem|) && n <= |data| && Distinct(addrs[..n])
    ensures Picked(Spread(mem, addrs, data, n), addrs, n) == data[..n]
  {
    forall k | 0 <= k < n
      ensures Spread(mem, addrs, data, n)[addrs[k]] == data[k]
    {
      SpreadAt(mem, addrs, data, n, k);
    }
  }

  /** A store of a run of consecutive addresses is the byte-wise one. */
  lemma {:induction false} SpreadRun(mem: Mem, addrs: seq<nat>, data: seq<byte>, off: nat, n: nat, gpa: nat)
    requires off + n <= |data| && gpa + n <= |mem| && Within(addrs, off + n, |mem|)
    requires forall k :: off <= k < off + n ==> addrs[k] == gpa + (k - off)
    ensures Spread(mem, addrs, data, off + n) == Write(Spread(mem, addrs, data, off), gpa, data[off..off + n])
    decreases n
  {
    var m := Spread(mem, addrs, data, off);
    if n == 0 {
      assert Write(m, gpa, data[off..off]) == m;
    } else {
      SpreadRun(mem, addrs, data, off, n - 1, gpa);
      WriteNext(m, gpa, data, off, n - 1);
    }
  }

  lemma WriteNext(m: Mem, gpa: nat, data: seq<byte>, off: nat, n: nat)
    requires off + n < |data| && gpa + n < |m|
    ensures Write(m, gpa, data[off..off + n])[gpa + n := data[off + n]] == Write(m, gpa, data[off..off + n + 1])
  {
  }

  // One segment further on: either its part lies inside memory and the transfer goes on behind it, or
  // the transfer stops short.
  lemma NextSegment(segs: seq<Seg>, i: nat, off: nat, n: nat, total: nat, size: nat)
    requires i < |segs| && off == Min(total, Base(segs, i)) < total && n == Min(segs[i].len, total - off)
    requires Within(Addresses(segs), off, size)
    ensures off + n == Min(total, Base(segs, i + 1)) <= Min(total, |Addresses(segs)|)
    ensures forall k :: off <= k < off + n ==> Addresses(segs)[k] == segs[i].gpa + (k - off)
    ensures segs[i].gpa + n <= size ==> Within(Addresses(segs), off + n, size)
    ensures segs[i].gpa + n <= size ==> Reach(segs, i + 1, off + n, total, size) == Reach(segs, i, off, total, size)
    ensures segs[i].gpa + n > size ==> Reach(segs, i, off, total, size) == off
  {
    BaseMonotone(segs, i + 1, |segs|);
    RunBelow(segs, i, n, size);
  }
}
