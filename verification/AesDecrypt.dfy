/**
 The decryptor: the in-place inverse cipher, proved against module AesCipher, and CBC over a buffer.
 */
module AesDecrypt {
  import opened AesTables
  import opened AesField
  import opened AesColumns
  import opened AesCipher

  // ---- In-place steps ----------------------------------------------------------------------

  method AddRoundKey(a: array<bv8>, k: Block)
    requires a.Length == 16
    modifies a
    ensures a[..] == AddKey(old(a[..]), k)
  {
    for i := 0 to 16
      invariant forall j :: 0 <= j < i ==> a[j] == Xor(old(a[j]), k[j])
      invariant forall j :: i <= j < 16 ==> a[j] == old(a[j])
    {
      a[i] := Xor(a[i], k[i]);
    }
  }

  // The four bytes of a row move one place along p, q, r, t.
  method RotateRow(s: array<bv8>, p: nat, q: nat, r: nat, t: nat)
    requires s.Length == 16 && p < 16 && q < 16 && r < 16 && t < 16
    requires p != q && p != r && p != t && q != r && q != t && r != t
    modifies s
    ensures s[..] == old(s[..])[p := old(s[q])][q := old(s[r])][r := old(s[t])][t := old(s[p])]
  {
    var first := s[p];
    s[p] := s[q];
    s[q] := s[r];
    s[r] := s[t];
    s[t] := first;
  }

  method SwapRow(s: array<bv8>)
    requires s.Length == 16
    modifies s
    ensures s[..] == old(s[..])[2 := old(s[10])][10 := old(s[2])][6 := old(s[14])][14 := old(s[6])]
  {
    s[2], s[10] := s[10], s[2];
    s[6], s[14] := s[14], s[6];
  }

  method ShiftRowsBack(s: array<bv8>)
    requires s.Length == 16
    modifies s
    ensures s[..] == InvShiftRows(old(s[..]))
  {
    RotateRow(s, 1, 13, 9, 5);
    SwapRow(s);
    RotateRow(s, 3, 7, 11, 15);
    assert forall i :: 0 <= i < 16 ==> s[i] == old(s[..])[13 * i % 16];
  }

  ghost predicate Tabulates(table: array<bv8>, g: bv8 -> bv8)
    reads table
  {
    table.Length == 256 && forall x: bv8 :: Index(x) < 256 && table[Index(x)] == g(x)
  }

  // Replace every byte by its entry in a table that tabulates g.
  method Substitute(a: array<bv8>, table: array<bv8>, ghost g: bv8 -> bv8)
    requires a.Length == 16 && a != table && Tabulates(table, g)
    modifies a
    ensures a[..] == MapBytes(g, old(a[..]))
  {
    for i := 0 to 16
      invariant forall j :: 0 <= j < i ==> a[j] == g(old(a[j]))
      invariant forall j :: i <= j < 16 ==> a[j] == old(a[j])
    {
      a[i] := table[Index(a[i])];
    }
  }

  method MixedRow(a: bv8, b: bv8, c: bv8, d: bv8) returns (r: bv8)
    ensures r == InvMixRow(a, b, c, d)
  {
    var p := Gmul(a, 14);
    var q := Gmul(b, 11);
    var s := Gmul(c, 13);
    var t := Gmul(d, 9);
    r := Xor(Xor(p, q), Xor(s, t));
  }

  method MixedColumn(x: Column) returns (y: Column)
    ensures y == InvMixColumn(x)
  {
    var a := MixedRow(x.a, x.b, x.c, x.d);
    var b := MixedRow(x.b, x.c, x.d, x.a);
    var c := MixedRow(x.c, x.d, x.a, x.b);
    var d := MixedRow(x.d, x.a, x.b, x.c);
    y := Column(a, b, c, d);
  }

  method StoreColumn(s: array<bv8>, c: nat, y: Column)
    requires s.Length == 16 && c < 4
    modifies s
    ensures ColumnAt(s[..], c) == y
    ensures forall k :: 0 <= k < 4 && k != c ==> ColumnAt(s[..], k) == old(ColumnAt(s[..], k))
  {
    s[4 * c], s[4 * c + 1], s[4 * c + 2], s[4 * c + 3] := y.a, y.b, y.c, y.d;
  }

  // The loop over the columns, for a column map f that MixedColumn computes.
  method MixEach(s: array<bv8>, ghost f: Column -> Column)
    requires s.Length == 16 && forall x {:trigger InvMixColumn(x)} :: f(x) == InvMixColumn(x)
    modifies s
    ensures s[..] == MapColumns(f, old(s[..]))
  {
    ghost var before := s[..];
    for c := 0 to 4
      invariant forall k :: 0 <= k < c ==> ColumnAt(s[..], k) == f(ColumnAt(before, k))
      invariant forall k :: c <= k < 4 ==> ColumnAt(s[..], k) == ColumnAt(before, k)
    {
      var y := MixedColumn(Column(s[4 * c], s[4 * c + 1], s[4 * c + 2], s[4 * c + 3]));
      assert y == f(ColumnAt(before, c));
      StoreColumn(s, c, y);
    }
    AllColumns(f, before, s[..]);
  }

  method MixColumnsBack(s: array<bv8>)
    requires s.Length == 16
    modifies s
    ensures s[..] == InvMixColumns(old(s[..]))
  {
    MixEach(s, InvMixColumn);
  }

  lemma AllColumns(f: Column -> Column, before: Block, after: Block)
    requires forall c :: 0 <= c < 4 ==> ColumnAt(after, c) == f(ColumnAt(before, c))
    ensures after == MapColumns(f, before)
  {
    forall c | 0 <= c < 4
      ensures ColumnAt(after, c) == ColumnAt(MapColumns(f, before), c)
    {
      ColumnOfMap(f, before, c);
    }
    SameColumns(after, MapColumns(f, before));
  }

  method RoundBack(s: array<bv8>, k: Block, table: array<bv8>)
    requires s.Length == 16 && s != table
    requires Tabulates(table, InvSbox)
    modifies s
    ensures s[..] == InvRound(old(s[..]), k)
  {
    ShiftSubBack(s, table);
    AddRoundKey(s, k);
    MixColumnsBack(s);
  }

  method ShiftSubBack(s: array<bv8>, table: array<bv8>)
    requires s.Length == 16 && s != table
    requires Tabulates(table, InvSbox)
    modifies s
    ensures s[..] == InvShiftSub(old(s[..]))
  {
    ShiftRowsBack(s);
    Substitute(s, table, InvSbox);
  }

  // The rounds r down to 1, in place; g is the round.
  method RoundsBack(keys: seq<Block>, block: array<bv8>, table: array<bv8>, ghost g: (Block, Block) -> Block)
    requires |keys| >= 2 && block.Length == 16 && block != table && Tabulates(table, InvSbox)
    requires forall s, k :: g(s, k) == InvRound(s, k)
    modifies block
    ensures block[..] == Down<Block, Block>(g, keys, old(block[..]), |keys| - 2)
  {
    ghost var start := block[..];
    var round := |keys| - 2;
    while round > 0
      invariant 0 <= round < |keys| - 1
      invariant Down<Block, Block>(g, keys, block[..], round) == Down<Block, Block>(g, keys, start, |keys| - 2)
    {
      ghost var s := block[..];
      RoundBack(block, keys[round], table);
      assert block[..] == g(s, keys[round]);
      round := round - 1;
    }
  }

  /** The in-place decryptor runs the inverse cipher, from the last round key to the first. */
  method DecryptBlock(keys: seq<Block>, block: array<bv8>)
    requires |keys| >= 2 && block.Length == 16
    modifies block
    ensures block[..] == InvCipher(keys, old(block[..]))
  {
    var table := InvSboxTable();
    assert Tabulates(table, InvSbox);
    AddRoundKey(block, keys[|keys| - 1]);
    RoundsBack(keys, block, table, InvRound);
    ShiftSubBack(block, table);
    AddRoundKey(block, keys[0]);
  }

  // ---- Cipher block chaining (section 6.2 of NIST SP 800-38A) -------------------------------

  // What decryption with d makes of the bytes from the current block on; a short tail stays.
  function CbcPlain(d: Block -> Block, prev: Block, c: seq<bv8>): (p: seq<bv8>)
    ensures |p| == |c|
    decreases |c|
  {
    if |c| < 16 then c else AddKey(d(c[..16]), prev) + CbcPlain(d, c[..16], c[16..])
  }

  function CbcCiphered(e: Block -> Block, prev: Block, p: seq<bv8>): (c: seq<bv8>)
    ensures |c| == |p|
    decreases |p|
  {
    if |p| < 16 then p
    else
      var block: Block := e(AddKey(p[..16], prev));
      block + CbcCiphered(e, block, p[16..])
  }

  lemma {:induction false} ChainingUndone(e: Block -> Block, d: Block -> Block, iv: Block, p: seq<bv8>)
    requires forall s :: d(e(s)) == s
    ensures CbcPlain(d, iv, CbcCiphered(e, iv, p)) == p
    decreases |p|
  {
    if |p| >= 16 {
      var mixed := AddKey(p[..16], iv);
      var block: seq<bv8> := e(mixed);
      var rest := CbcCiphered(e, block, p[16..]);
      assert (block + rest)[..16] == block && (block + rest)[16..] == rest;
      AddKeyTwice(p[..16], iv);
      ChainingUndone(e, d, block, p[16..]);
      assert p == p[..16] + p[16..];
    }
  }

  /** CBC decryption undoes CBC encryption, under any round keys and for data of any length. */
  lemma CbcUndone(keys: seq<Block>, iv: Block, p: seq<bv8>)
    requires |keys| >= 2
    ensures CbcPlain(s => InvCipher(keys, s), iv, CbcCiphered(s => Cipher(keys, s), iv, p)) == p
  {
    var e: Block -> Block, d: Block -> Block := s => Cipher(keys, s), s => InvCipher(keys, s);
    forall s: Block
      ensures d(e(s)) == s
    {
      CipherUndone(keys, s);
    }
    ChainingUndone(e, d, iv, p);
  }

  // The ciphertext block before block i, or the IV.
  function Before(iv: Block, c: seq<bv8>, i: nat): Block
    requires 16 * i <= |c|
  {
    if i == 0 then iv else c[16 * i - 16..16 * i]
  }

  lemma {:induction false} CbcSuffix(d: Block -> Block, iv: Block, c: seq<bv8>, i: nat)
    requires 16 * i <= |c|
    ensures CbcPlain(d, iv, c)[16 * i..] == CbcPlain(d, Before(iv, c, i), c[16 * i..])
    decreases i
  {
    if i > 0 {
      var o := 16 * (i - 1);
      CbcSuffix(d, iv, c, i - 1);
      NextBlock(d, Before(iv, c, i - 1), c, o);
      assert CbcPlain(d, iv, c)[o..][16..] == CbcPlain(d, iv, c)[o + 16..];
    } else {
      assert c[0..] == c;
    }
  }

  lemma NextBlock(d: Block -> Block, prev: Block, c: seq<bv8>, o: nat)
    requires o + 16 <= |c|
    ensures CbcPlain(d, prev, c[o..])[..16] == AddKey(d(c[o..o + 16]), prev)
    ensures CbcPlain(d, prev, c[o..])[16..] == CbcPlain(d, c[o..o + 16], c[o + 16..])
  {
    assert c[o..][..16] == c[o..o + 16] && c[o..][16..] == c[o + 16..];
  }

  /** Every whole block is decrypted and mixed with the ciphertext block before it. */
  lemma CbcBlock(d: Block -> Block, iv: Block, c: seq<bv8>, i: nat)
    requires 16 * i + 16 <= |c|
    ensures CbcPlain(d, iv, c)[16 * i..16 * i + 16] == AddKey(d(c[16 * i..16 * i + 16]), Before(iv, c, i))
  {
    CbcSuffix(d, iv, c, i);
    NextBlock(d, Before(iv, c, i), c, 16 * i);
    assert CbcPlain(d, iv, c)[16 * i..][..16] == CbcPlain(d, iv, c)[16 * i..16 * i + 16];
  }

  method DecryptChained(keys: seq<Block>, cipher: Block, prev: Block) returns (plain: Block)
    requires |keys| >= 2
    ensures plain == AddKey(InvCipher(keys, cipher), prev)
  {
    var block := new bv8[16](i requires 0 <= i < 16 => cipher[i]);
    assert block[..] == cipher;
    DecryptBlock(keys, block);
    AddRoundKey(block, prev);
    plain := block[..];
  }

  method CopyIn(data: array<bv8>, off: nat, s: seq<bv8>)
    requires off + |s| <= data.Length
    modifies data
    ensures data[..] == old(data[..off]) + s + old(data[off + |s|..])
  {
    for i := 0 to |s|
      invariant data[..off + i] == old(data[..off]) + s[..i]
      invariant data[off + i..] == old(data[off + i..])
    {
      data[off + i] := s[i];
    }
  }

  // One turn of the loop: the block at `off` joins the bytes done so far.
  lemma ChainStep(d: Block -> Block, iv: Block, prev: Block, c: seq<bv8>, off: nat, done: seq<bv8>)
    requires off + 16 <= |c|
    requires done + CbcPlain(d, prev, c[off..]) == CbcPlain(d, iv, c)
    ensures (done + AddKey(d(c[off..off + 16]), prev)) + CbcPlain(d, c[off..off + 16], c[off + 16..])
         == CbcPlain(d, iv, c)
  {
    assert c[off..][..16] == c[off..off + 16] && c[off..][16..] == c[off + 16..];
  }

  // The loop, for a block decryptor whose function is d.
  method ChainInPlace(keys: seq<Block>, iv: Block, data: array<bv8>, ghost d: Block -> Block)
    requires |keys| >= 2
    requires forall s {:trigger InvCipher(keys, s)} :: d(s) == InvCipher(keys, s)
    modifies data
    ensures data[..] == CbcPlain(d, iv, old(data[..]))
  {
    ghost var c := data[..];
    var prev: Block := iv;
    var off := 0;
    while off + 16 <= data.Length
      invariant 0 <= off <= data.Length
      invariant data[off..] == c[off..]
      invariant data[..off] + CbcPlain(d, prev, c[off..]) == CbcPlain(d, iv, c)
    {
      var cipher: Block := data[off..off + 16];
      assert cipher == c[off..off + 16] by {
        assert cipher == data[off..][..16];
      }
      var block := DecryptChained(keys, cipher, prev);
      ghost var done := data[..off];
      ChainStep(d, iv, prev, c, off, done);
      CopyIn(data, off, block);
      assert data[..off + 16] == done + block;
      prev := cipher;
      off := off + 16;
    }
    assert data[..] == data[..off] + c[off..];
  }

  /** The buffer is decrypted in place: each block is chained to the ciphertext that stood before
      it, though that has been overwritten by then, and a short tail is left alone. */
  method CbcDecrypt(keys: seq<Block>, iv: Block, data: array<bv8>)
    requires |keys| >= 2
    modifies data
    ensures data[..] == CbcPlain(s => InvCipher(keys, s), iv, old(data[..]))
  {
    ChainInPlace(keys, iv, data, s => InvCipher(keys, s));
  }
}
