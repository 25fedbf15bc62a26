/**
 The AES block cipher on a 16-byte column-major state: the forward cipher of FIPS-197 section 5.1,
 and the straightforward inverse cipher of section 5.3 that the decryptor runs in place, under any round
 keys.
 */
module AesCipher {
  import opened Arith
  import opened AesTables
  import opened AesField
  import opened AesColumns

  type Block = s: seq<bv8> | |s| == 16 witness seq(16, _ => 0)

  // ---- Round functions ---------------------------------------------------------------------

  function AddKey(s: Block, k: Block): Block {
    seq(16, i requires 0 <= i < 16 => Xor(s[i], k[i]))
  }

  function MapBytes(g: bv8 -> bv8, s: Block): Block {
    seq(16, i requires 0 <= i < 16 => g(s[i]))
  }

  function SubBytes(s: Block): Block { MapBytes(Sbox, s) }
  function InvSubBytes(s: Block): Block { MapBytes(InvSbox, s) }

  // Row r of the state moves left by r columns: byte r + 4c comes from r + 4(c + r), which is
  // five times its own index modulo 16; moving right is multiplication by 13, the inverse of 5.
  function ShiftRows(s: Block): Block {
    seq(16, i requires 0 <= i < 16 => s[5 * i % 16])
  }

  function InvShiftRows(s: Block): Block {
    seq(16, i requires 0 <= i < 16 => s[13 * i % 16])
  }

  function ColumnAt(s: Block, c: nat): Column
    requires c < 4
  {
    Column(s[4 * c], s[4 * c + 1], s[4 * c + 2], s[4 * c + 3])
  }

  function ByteOf(x: Column, r: nat): bv8
    requires r < 4
  {
    if r == 0 then x.a else if r == 1 then x.b else if r == 2 then x.c else x.d
  }

  function MapColumns(f: Column -> Column, s: Block): Block {
    seq(16, i requires 0 <= i < 16 => ByteOf(f(ColumnAt(s, i / 4)), i % 4))
  }

  function MixColumns(s: Block): Block { MapColumns(MixColumn, s) }
  function InvMixColumns(s: Block): Block { MapColumns(InvMixColumn, s) }

  // ---- Each round function is undone -------------------------------------------------------

  lemma AddKeyTwice(s: Block, k: Block)
    ensures AddKey(AddKey(s, k), k) == s
  {
    forall i | 0 <= i < 16
      ensures AddKey(AddKey(s, k), k)[i] == s[i]
    {
      XorAssoc(s[i], k[i], k[i]);
      XorZero(k[i]);
      XorZero(s[i]);
    }
  }

  lemma SubBytesUndone(s: Block)
    ensures InvSubBytes(SubBytes(s)) == s && SubBytes(InvSubBytes(s)) == s
  {
    forall i | 0 <= i < 16
      ensures InvSubBytes(SubBytes(s))[i] == s[i] && SubBytes(InvSubBytes(s))[i] == s[i]
    {
      InvSboxUndoes(s[i]);
      SboxUndoes(s[i]);
    }
  }

  lemma FiveTimesThirteen(i: nat)
    requires i < 16
    ensures 5 * (13 * i % 16) % 16 == i && 13 * (5 * i % 16) % 16 == i
  {
    DivModUnique(5 * (13 * i % 16), 16, 4 * i - 5 * (13 * i / 16), i);
    DivModUnique(13 * (5 * i % 16), 16, 4 * i - 13 * (5 * i / 16), i);
  }

  lemma ShiftRowsUndone(s: Block)
    ensures InvShiftRows(ShiftRows(s)) == s && ShiftRows(InvShiftRows(s)) == s
  {
    var shifted, unshifted := ShiftRows(s), InvShiftRows(s);
    forall i | 0 <= i < 16
      ensures InvShiftRows(shifted)[i] == s[i] && ShiftRows(unshifted)[i] == s[i]
    {
      FiveTimesThirteen(i);
      assert shifted[13 * i % 16] == s[5 * (13 * i % 16) % 16];
      assert unshifted[5 * i % 16] == s[13 * (5 * i % 16) % 16];
    }
  }

  lemma ColumnOfMap(f: Column -> Column, s: Block, c: nat)
    requires c < 4
    ensures ColumnAt(MapColumns(f, s), c) == f(ColumnAt(s, c))
  {
    var t := MapColumns(f, s);
    assert t[4 * c] == ByteOf(f(ColumnAt(s, c)), 0);
    assert t[4 * c + 1] == ByteOf(f(ColumnAt(s, c)), 1);
    assert t[4 * c + 2] == ByteOf(f(ColumnAt(s, c)), 2);
    assert t[4 * c + 3] == ByteOf(f(ColumnAt(s, c)), 3);
  }

  lemma SameColumns(s: Block, t: Block)
    requires forall c :: 0 <= c < 4 ==> ColumnAt(s, c) == ColumnAt(t, c)
    ensures s == t
  {
    forall i | 0 <= i < 16
      ensures s[i] == t[i]
    {
      assert ColumnAt(s, i / 4) == ColumnAt(t, i / 4);
      assert i == 4 * (i / 4) + i % 4;
    }
  }

  lemma MapColumnsUndone(f: Column -> Column, g: Column -> Column, s: Block)
    requires forall x :: g(f(x)) == x
    ensures MapColumns(g, MapColumns(f, s)) == s
  {
    forall c | 0 <= c < 4
      ensures ColumnAt(MapColumns(g, MapColumns(f, s)), c) == ColumnAt(s, c)
    {
      ColumnOfMap(f, s, c);
      ColumnOfMap(g, MapColumns(f, s), c);
    }
    SameColumns(MapColumns(g, MapColumns(f, s)), s);
  }

  lemma MixColumnsUndone(s: Block)
    ensures InvMixColumns(MixColumns(s)) == s && MixColumns(InvMixColumns(s)) == s
  {
    forall x
      ensures InvMixColumn(MixColumn(x)) == x && MixColumn(InvMixColumn(x)) == x
    {
      InvMixUndoesMix(x);
      MixUndoesInvMix(x);
    }
    MapColumnsUndone(MixColumn, InvMixColumn, s);
    MapColumnsUndone(InvMixColumn, MixColumn, s);
  }

  // ---- The cipher and its inverse ----------------------------------------------------------

  // Rounds 1 to r upwards, and rounds r to 1 downwards, each with its own key.
  function Up<S, K>(f: (S, K) -> S, keys: seq<K>, s: S, r: nat): S
    requires r < |keys|
  {
    if r == 0 then s else f(Up(f, keys, s, r - 1), keys[r])
  }

  function Down<S, K>(g: (S, K) -> S, keys: seq<K>, s: S, r: nat): S
    requires r < |keys|
    decreases r
  {
    if r == 0 then s else Down(g, keys, g(s, keys[r]), r - 1)
  }

  // If one downward round takes h of a round's output to h of its input, all of them do.
  lemma {:induction false} DownUndoesUp<S, K>(f: (S, K) -> S, g: (S, K) -> S, h: S -> S, keys: seq<K>, s: S, r: nat)
    requires r < |keys|
    requires forall t, k {:trigger h(f(t, k))} :: k in keys ==> g(h(f(t, k)), k) == h(t)
    ensures Down(g, keys, h(Up(f, keys, s, r)), r) == h(s)
  {
    if r > 0 {
      assert keys[r] in keys;
      DownUndoesUp(f, g, h, keys, s, r - 1);
    }
  }

  lemma {:induction false} UpUndoesDown<S, K>(f: (S, K) -> S, g: (S, K) -> S, h: S -> S, keys: seq<K>, s: S, r: nat)
    requires r < |keys|
    requires forall t, k {:trigger h(g(t, k))} :: k in keys ==> f(h(g(t, k)), k) == h(t)
    ensures Up(f, keys, h(Down(g, keys, s, r)), r) == h(s)
    decreases r
  {
    if r > 0 {
      assert keys[r] in keys;
      UpUndoesDown(f, g, h, keys, g(s, keys[r]), r - 1);
    }
  }

  // The shape of the cipher: whiten, run the full rounds, run h, whiten again; and its reverse.
  function Encrypt<S, K>(add: (S, K) -> S, f: (S, K) -> S, h: S -> S, keys: seq<K>, s: S): S
    requires |keys| >= 2
  {
    var n := |keys| - 1;
    add(h(Up(f, keys, add(s, keys[0]), n - 1)), keys[n])
  }

  function Decrypt<S, K>(add: (S, K) -> S, g: (S, K) -> S, h: S -> S, keys: seq<K>, s: S): S
    requires |keys| >= 2
  {
    var n := |keys| - 1;
    add(h(Down(g, keys, add(s, keys[n]), n - 1)), keys[0])
  }

  ghost predicate Undoes<S(!new), K(!new)>(add: (S, K) -> S, f: (S, K) -> S, h: S -> S, g: (S, K) -> S, h': S -> S) {
    && (forall s, k :: add(add(s, k), k) == s)
    && (forall s :: h'(h(s)) == s && h(h'(s)) == s)
    && (forall t, k {:trigger h(f(t, k))} :: g(h(f(t, k)), k) == h(t))
    && (forall t, k {:trigger h'(g(t, k))} :: f(h'(g(t, k)), k) == h'(t))
  }

  lemma ShapeUndone<S(!new), K(!new)>(add: (S, K) -> S, f: (S, K) -> S, h: S -> S, g: (S, K) -> S, h': S -> S,
                                      keys: seq<K>, s: S)
    requires |keys| >= 2 && Undoes(add, f, h, g, h')
    ensures Decrypt(add, g, h', keys, Encrypt(add, f, h, keys, s)) == s
    ensures Encrypt(add, f, h, keys, Decrypt(add, g, h', keys, s)) == s
  {
    var n := |keys| - 1;
    DownUndoesUp(f, g, h, keys, add(s, keys[0]), n - 1);
    UpUndoesDown(f, g, h', keys, add(s, keys[n]), n - 1);
  }

  function SubShift(s: Block): Block { ShiftRows(SubBytes(s)) }
  function InvShiftSub(s: Block): Block { InvSubBytes(InvShiftRows(s)) }
  function Round(s: Block, k: Block): Block { AddKey(MixColumns(SubShift(s)), k) }
  function InvRound(s: Block, k: Block): Block { InvMixColumns(AddKey(InvShiftSub(s), k)) }

  function Cipher(keys: seq<Block>, s: Block): Block
    requires |keys| >= 2
  {
    Encrypt(AddKey, Round, SubShift, keys, s)
  }

  function InvCipher(keys: seq<Block>, s: Block): Block
    requires |keys| >= 2
  {
    Decrypt(AddKey, InvRound, InvShiftSub, keys, s)
  }

  // ---- A round, column by column -----------------------------------------------------------

  // A column of substituted bytes mixed by doubling, and added to a key column.
  function Turned(a: bv8, b: bv8, c: bv8, d: bv8, k: Column): Column {
    Column(Xor(Xor4(Xtime(a), Xor(b, Xtime(b)), c, d), k.a), Xor(Xor4(Xtime(b), Xor(c, Xtime(c)), d, a), k.b),
           Xor(Xor4(Xtime(c), Xor(d, Xtime(d)), a, b), k.c), Xor(Xor4(Xtime(d), Xor(a, Xtime(a)), b, c), k.d))
  }

  // Row r of column c comes from column c + r.
  lemma ShiftedByte(g: bv8 -> bv8, s: Block, c: nat, r: nat)
    requires c < 4 && r < 4
    ensures ShiftRows(MapBytes(g, s))[4 * c + r] == g(s[(4 * c + 5 * r) % 16])
  {
    assert 5 * (4 * c + r) % 16 == (4 * c + 5 * r) % 16;
  }

  lemma ShiftedColumn(g: bv8 -> bv8, s: Block, c: nat)
    requires c < 4
    ensures ColumnAt(ShiftRows(MapBytes(g, s)), c)
         == Column(g(s[4 * c]), g(s[(4 * c + 5) % 16]), g(s[(4 * c + 10) % 16]), g(s[(4 * c + 15) % 16]))
  {
    ShiftedByte(g, s, c, 0);
    ShiftedByte(g, s, c, 1);
    ShiftedByte(g, s, c, 2);
    ShiftedByte(g, s, c, 3);
  }

  lemma KeyedColumn(s: Block, k: Block, c: nat)
    requires c < 4
    ensures var x, y := ColumnAt(s, c), ColumnAt(k, c);
      ColumnAt(AddKey(s, k), c) == Column(Xor(x.a, y.a), Xor(x.b, y.b), Xor(x.c, y.c), Xor(x.d, y.d))
  {
  }

  /** Column c of a round's result: row r comes from column c + r, is substituted, mixed and keyed. */
  lemma RoundColumn(s: Block, k: Block, c: nat)
    requires c < 4
    ensures ColumnAt(Round(s, k), c)
         == Turned(Sbox(s[4 * c]), Sbox(s[(4 * c + 5) % 16]), Sbox(s[(4 * c + 10) % 16]), Sbox(s[(4 * c + 15) % 16]),
                   ColumnAt(k, c))
  {
    var x := ColumnAt(SubShift(s), c);
    ShiftedColumn(Sbox, s, c);
    ColumnOfMap(MixColumn, SubShift(s), c);
    KeyedColumn(MixColumns(SubShift(s)), k, c);
    Constants(x.a);
    Constants(x.b);
    Constants(x.c);
    Constants(x.d);
  }

  lemma SubShiftUndone(s: Block)
    ensures InvShiftSub(SubShift(s)) == s && SubShift(InvShiftSub(s)) == s
  {
    ShiftRowsUndone(SubBytes(s));
    SubBytesUndone(s);
    SubBytesUndone(InvShiftRows(s));
    ShiftRowsUndone(s);
  }

  lemma InvRoundUndoes(s: Block, k: Block)
    ensures InvRound(SubShift(Round(s, k)), k) == SubShift(s)
  {
    SubShiftUndone(Round(s, k));
    AddKeyTwice(MixColumns(SubShift(s)), k);
    MixColumnsUndone(SubShift(s));
  }

  lemma RoundUndoes(s: Block, k: Block)
    ensures Round(InvShiftSub(InvRound(s, k)), k) == InvShiftSub(s)
  {
    SubShiftUndone(InvRound(s, k));
    MixColumnsUndone(AddKey(InvShiftSub(s), k));
    AddKeyTwice(InvShiftSub(s), k);
  }

  lemma AesUndoes()
    ensures Undoes(AddKey, Round, SubShift, InvRound, InvShiftSub)
  {
    forall s: Block, k: Block
      ensures AddKey(AddKey(s, k), k) == s
    {
      AddKeyTwice(s, k);
    }
    forall s: Block
      ensures InvShiftSub(SubShift(s)) == s && SubShift(InvShiftSub(s)) == s
    {
      SubShiftUndone(s);
    }
    forall t: Block, k: Block
      ensures InvRound(SubShift(Round(t, k)), k) == SubShift(t)
      ensures Round(InvShiftSub(InvRound(t, k)), k) == InvShiftSub(t)
    {
      InvRoundUndoes(t, k);
      RoundUndoes(t, k);
    }
  }

  /** Decryption undoes encryption under any round keys, and encryption undoes decryption. */
  lemma CipherUndone(keys: seq<Block>, s: Block)
    requires |keys| >= 2
    ensures InvCipher(keys, Cipher(keys, s)) == s
    ensures Cipher(keys, InvCipher(keys, s)) == s
  {
    AesUndoes();
    ShapeUndone(AddKey, Round, SubShift, InvRound, InvShiftSub, keys, s);
  }

  // The states of section 5.1 of the standard, before each of the rounds 1 to n and with the last round different.
  ghost predicate Trace(keys: seq<Block>, s: Block, states: seq<Block>, out: Block) {
    && |keys| >= 2 && |states| == |keys| - 1 && states[0] == AddKey(s, keys[0])
    && (forall r {:trigger states[r]} :: 0 < r < |states| ==> states[r] == Round(states[r - 1], keys[r]))
    && out == AddKey(SubShift(states[|states| - 1]), keys[|states|])
  }

  lemma {:induction false} TraceUp(keys: seq<Block>, s: Block, states: seq<Block>, out: Block, r: nat)
    requires Trace(keys, s, states, out) && r < |states|
    ensures Up(Round, keys, states[0], r) == states[r]
  {
    if r > 0 {
      TraceUp(keys, s, states, out, r - 1);
    }
  }

  /** Whatever the standard's rounds make of a block, with the keys in order, the inverse cipher takes back. */
  lemma TraceUndone(keys: seq<Block>, s: Block, states: seq<Block>, out: Block)
    requires Trace(keys, s, states, out)
    ensures Cipher(keys, s) == out && InvCipher(keys, out) == s
  {
    TraceUp(keys, s, states, out, |states| - 1);
    CipherUndone(keys, s);
  }
}
