/** Guest memory as the DMA engines see it: a flat byte buffer whose accesses succeed inside it only. */
module Dma {
  import opened Common

  type byte = x: int | 0 <= x < 256
  type Mem = seq<byte>

  predicate InBounds(mem: Mem, gpa: nat, n: nat) { gpa + n <= |mem| }

  function Read(mem: Mem, gpa: nat, n: nat): (r: Option<seq<byte>>)
    ensures r.Some? <==> InBounds(mem, gpa, n)
    ensures r.Some? ==> |r.value| == n
  {
    if InBounds(mem, gpa, n) then Some(mem[gpa..gpa + n]) else None
  }

  // An access outside the buffer changes nothing.
  function Write(mem: Mem, gpa: nat, data: seq<byte>): (r: Mem)
    ensures |r| == |mem|
  {
    if !InBounds(mem, gpa, |data|) then mem
    else seq(|mem|, a requires 0 <= a < |mem| => if gpa <= a < gpa + |data| then data[a - gpa] else mem[a])
  }

  // The memories agree on n bytes from gpa.
  ghost predicate Agree(m: Mem, m': Mem, gpa: nat, n: nat) {
    |m| == |m'| && forall a :: gpa <= a < gpa + n && a < |m| ==> m[a] == m'[a]
  }

  lemma AgreeRead(m: Mem, m': Mem, gpa: nat, n: nat)
    requires Agree(m, m', gpa, n)
    ensures Read(m, gpa, n) == Read(m', gpa, n)
  {
    if InBounds(m, gpa, n) {
      assert m[gpa..gpa + n] == m'[gpa..gpa + n];
    }
  }

  predicate Apart(a: nat, n: nat, b: nat, m: nat) { a + n <= b || b + m <= a }

  lemma WriteElsewhere(mem: Mem, gpa: nat, data: seq<byte>, b: nat, m: nat)
    requires Apart(gpa, |data|, b, m)
    ensures Agree(mem, Write(mem, gpa, data), b, m)
  {
  }

  // Little-endian value.
  function Le(b: seq<byte>): nat {
    if b == [] then 0 else b[0] + 256 * Le(b[1..])
  }

  // The low n bytes of a value, least significant first.
  function ToLe(v: nat, n: nat): (b: seq<byte>)
    ensures |b| == n
  {
    if n == 0 then [] else [v % 256] + ToLe(v / 256, n - 1)
  }

  function Pow256(n: nat): nat {
    if n == 0 then 1 else 256 * Pow256(n - 1)
  }

  lemma {:induction false} LeToLe(v: nat, n: nat)
    requires v < Pow256(n)
    ensures Le(ToLe(v, n)) == v
  {
    if n > 0 {
      assert ToLe(v, n)[1..] == ToLe(v / 256, n - 1);
      LeToLe(v / 256, n - 1);
    }
  }

  // Field widths in bytes.
  const PAIR: nat := 2
  const TRIPLE: nat := 3
  const WORD: nat := 4
  const LONG: nat := 8

  lemma WidthBounds()
    ensures Pow256(WORD) == 0x1_0000_0000 && Pow256(LONG) == 0x1_0000_0000_0000_0000
  {
    assert Pow256(2) == 0x1_0000;
    assert Pow256(4) == 0x1_0000 * Pow256(2);
    assert Pow256(6) == 0x1_0000 * Pow256(4);
    assert Pow256(8) == 0x1_0000 * Pow256(6);
  }

  lemma PairOf(v: nat)
    requires v < 0x1_0000
    ensures ToLe(v, PAIR) == [v % 256, v / 256]
  {
    assert ToLe(v / 256, 1) == [v / 256];
  }

  lemma TripleOf(v: nat)
    requires v < 0x100_0000
    ensures ToLe(v, TRIPLE) == [v % 256, v / 256 % 256, v / 0x1_0000]
  {
    assert v / 256 / 256 == v / 0x1_0000;
    PairOf(v / 256);
  }

  lemma WordOf(v: nat)
    requires v < 0x1_0000_0000
    ensures ToLe(v, WORD) == [v % 256, v / 256 % 256, v / 0x1_0000 % 256, v / 0x100_0000]
  {
    assert v / 256 / 0x1_0000 == v / 0x100_0000 && v / 256 / 256 == v / 0x1_0000;
    TripleOf(v / 256);
  }
}
