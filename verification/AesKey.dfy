/** Key expansion (FIPS-197 section 5.2).  A 32-bit word is carried as its four big-endian bytes. */
module AesKey {
  import opened Arith
  import opened Common
  import opened AesTables
  import opened AesField
  import opened AesColumns
  import opened AesCipher
  import opened AesDecrypt

  function SubWord(w: Column): Column { Column(Sbox(w.a), Sbox(w.b), Sbox(w.c), Sbox(w.d)) }

  // The round constant x^(j-1).
  function Rcon(j: nat): bv8
    requires j >= 1
  {
    if j == 1 then 1 else Mul(Rcon(j - 1), 2)
  }

  // What word i adds to the word nk places before it.
  function Feed(sub: Column -> Column, nk: nat, i: nat, prev: Column): Column
    requires 4 <= nk <= i
  {
    if i % nk == 0 then
      IndexOfRound(nk, i);
      Sum(sub(Rotated(prev)), Column(Rcon(i / nk), 0, 0, 0))
    else if nk > 6 && i % nk == 4 then sub(prev)
    else prev
  }

  lemma IndexOfRound(nk: nat, i: nat)
    requires 4 <= nk <= i
    ensures i / nk >= 1
  {
  }

  function Word(sub: Column -> Column, key: seq<bv8>, nk: nat, i: nat): Column
    requires nk >= 4 && |key| == 4 * nk
    decreases i
  {
    if i < nk then Column(key[4 * i], key[4 * i + 1], key[4 * i + 2], key[4 * i + 3])
    else Sum(Word(sub, key, nk, i - nk), Feed(sub, nk, i, Word(sub, key, nk, i - 1)))
  }

  lemma SumCancels(x: Column, y: Column, z: Column)
    requires Sum(x, z) == Sum(y, z)
    ensures x == y
  {
    assert Sum(Sum(x, z), z) == x by {
      SumTwice(x, z);
    }
    SumTwice(y, z);
  }

  lemma SumTwice(x: Column, z: Column)
    ensures Sum(Sum(x, z), z) == x
  {
    XorTwice(x.a, z.a);
    XorTwice(x.b, z.b);
    XorTwice(x.c, z.c);
    XorTwice(x.d, z.d);
  }

  lemma XorTwice(a: bv8, b: bv8)
    ensures Xor(Xor(a, b), b) == a
  {
    XorAssoc(a, b, b);
    XorZero(b);
    XorZero(a);
  }

  // `word` is a schedule: each word is the one nk places before it plus its feed.
  ghost predicate Recurs(sub: Column -> Column, nk: nat, word: nat -> Column) {
    nk >= 4 && forall i {:trigger Feed(sub, nk, i, word(i - 1))} ::
      nk <= i ==> word(i) == Sum(word(i - nk), Feed(sub, nk, i, word(i - 1)))
  }

  lemma WordsRecur(sub: Column -> Column, key: seq<bv8>, nk: nat, word: nat -> Column)
    requires nk >= 4 && |key| == 4 * nk
    requires forall i :: word(i) == Word(sub, key, nk, i)
    ensures Recurs(sub, nk, word)
  {
    forall i | nk <= i
      ensures word(i) == Sum(word(i - nk), Feed(sub, nk, i, word(i - 1)))
    {
      assert word(i - 1) == Word(sub, key, nk, i - 1) && word(i - nk) == Word(sub, key, nk, i - nk);
    }
  }

  lemma {:induction false} SchedulesMeet(sub: Column -> Column, nk: nat, v: nat -> Column, w: nat -> Column, at: nat, i: nat)
    requires Recurs(sub, nk, v) && Recurs(sub, nk, w)
    requires forall j :: at <= j < at + nk ==> v(j) == w(j)
    requires i < at + nk
    ensures v(i) == w(i)
    decreases at
  {
    if i < at {
      var j := at - 1 + nk;
      assert v(j) == w(j) && v(j - 1) == w(j - 1);
      assert v(j) == Sum(v(at - 1), Feed(sub, nk, j, v(j - 1)));
      assert w(j) == Sum(w(at - 1), Feed(sub, nk, j, w(j - 1)));
      SumCancels(v(at - 1), w(at - 1), Feed(sub, nk, j, v(j - 1)));
      SchedulesMeet(sub, nk, v, w, at - 1, i);
    }
  }

  // With (q-1)*nk < i <= q*nk, a new round starts at i exactly when i is q*nk.
  lemma RoundStart(nk: nat, q: nat, i: nat)
    requires nk > 0 && q >= 1 && (q - 1) * nk < i <= q * nk
    ensures i % nk == 0 <==> i == q * nk
    ensures i % nk == 0 ==> i / nk == q
  {
    if i == q * nk {
      DivModUnique(i, nk, q, 0);
    } else {
      DivModUnique(i, nk, q - 1, i - (q - 1) * nk);
    }
  }

  // The loop body before the last addition; q counts the rounds started.
  method NextFeed(sub: Column -> Column, nk: nat, i: nat, prev: Column, rcon: bv8, ghost q: nat)
    returns (tmp: Column, rcon': bv8, ghost q': nat)
    requires 4 <= nk <= i && q >= 1 && (q - 1) * nk < i <= q * nk && rcon == Rcon(q)
    ensures tmp == Feed(sub, nk, i, prev)
    ensures q' >= 1 && (q' - 1) * nk < i + 1 <= q' * nk && rcon' == Rcon(q')
  {
    RoundStart(nk, q, i);
    tmp, rcon', q' := prev, rcon, q;
    if i % nk == 0 {
      tmp := Sum(sub(Rotated(prev)), Column(rcon, 0, 0, 0));
      Constants(rcon);
      rcon' := Xtime(rcon);
      assert (q + 1) * nk == q * nk + nk;
      q' := q + 1;
    } else if nk > 6 && i % nk == 4 {
      tmp := sub(prev);
    }
  }

  // Fill w by the recurrence that defines `word`.
  method ExpandWords(sub: Column -> Column, key: seq<bv8>, nk: nat, total: nat, ghost word: nat -> Column)
    returns (w: array<Column>)
    requires |key| == 4 * nk && total >= nk
    requires forall i :: 0 <= i < nk ==> word(i) == Column(key[4 * i], key[4 * i + 1], key[4 * i + 2], key[4 * i + 3])
    requires Recurs(sub, nk, word)
    ensures w.Length == total && fresh(w)
    ensures forall i :: 0 <= i < total ==> w[i] == word(i)
  {
    w := new Column[total](_ => Column(0, 0, 0, 0));
    for i := 0 to nk
      invariant forall j :: 0 <= j < i ==> w[j] == word(j)
    {
      w[i] := Column(key[4 * i], key[4 * i + 1], key[4 * i + 2], key[4 * i + 3]);
    }
    var rcon: bv8 := 1;
    ghost var q := 1;
    for i := nk to total
      invariant q >= 1 && (q - 1) * nk < i <= q * nk && rcon == Rcon(q)
      invariant forall j :: 0 <= j < i ==> w[j] == word(j)
    {
      var tmp;
      tmp, rcon, q := NextFeed(sub, nk, i, w[i - 1], rcon, q);
      w[i] := Sum(w[i - nk], tmp);
    }
  }

  // Round key r: words 4r to 4r + 3.
  function RoundKey(word: nat -> Column, r: nat): Block {
    seq(16, i requires 0 <= i < 16 => ByteOf(word(4 * r + i / 4), i % 4))
  }

  predicate KeyLength(n: nat) { n == 16 || n == 24 || n == 32 }

  function Schedule(key: seq<bv8>): nat -> Column
    requires KeyLength(|key|)
  {
    (i: nat) => Word(SubWord, key, |key| / 4, i)
  }

  lemma ScheduleRecurs(key: seq<bv8>)
    requires KeyLength(|key|)
    ensures Recurs(SubWord, |key| / 4, Schedule(key))
  {
    WordsRecur(SubWord, key, |key| / 4, Schedule(key));
  }

  /** The schedule runs backwards too: keys whose schedules agree on nk words in a row are equal, so
      no two keys share a schedule. */
  lemma ScheduleDeterminesKey(k: seq<bv8>, l: seq<bv8>, at: nat)
    requires KeyLength(|k|) && |k| == |l|
    requires forall i :: at <= i < at + |k| / 4 ==> Schedule(k)(i) == Schedule(l)(i)
    ensures k == l
  {
    ScheduleRecurs(k);
    ScheduleRecurs(l);
    forall j | 0 <= j < |k|
      ensures k[j] == l[j]
    {
      SchedulesMeet(SubWord, |k| / 4, Schedule(k), Schedule(l), at, j / 4);
      KeyByte(k, j);
      KeyByte(l, j);
    }
  }

  // The first nk words are the key itself.
  lemma FirstWords(sub: Column -> Column, key: seq<bv8>, nk: nat, i: nat)
    requires nk >= 4 && |key| == 4 * nk && i < nk
    ensures Word(sub, key, nk, i) == KeyWord(key, i)
  {
  }

  function KeyWord(key: seq<bv8>, i: nat): Column
    requires 4 * i + 3 < |key|
  {
    Column(key[4 * i], key[4 * i + 1], key[4 * i + 2], key[4 * i + 3])
  }

  lemma KeyWordByte(key: seq<bv8>, i: nat, m: nat)
    requires 4 * i + 3 < |key| && m < 4
    ensures ByteOf(KeyWord(key, i), m) == key[4 * i + m]
  {
  }

  lemma KeyByte(key: seq<bv8>, j: nat)
    requires KeyLength(|key|) && j < |key|
    ensures key[j] == ByteOf(Schedule(key)(j / 4), j % 4)
  {
    var i, m := j / 4, j % 4;
    assert j == 4 * i + m;
    FirstWords(SubWord, key, |key| / 4, i);
    KeyWordByte(key, i, m);
  }

  function RoundKeys(key: seq<bv8>): (keys: seq<Block>)
    requires KeyLength(|key|)
    ensures |keys| == |key| / 4 + 7
  {
    seq(|key| / 4 + 7, r requires r >= 0 => RoundKey(Schedule(key), r))
  }

  method PackKeys(w: array<Column>, n: nat, ghost word: nat -> Column) returns (keys: seq<Block>)
    requires w.Length == 4 * n && forall i :: 0 <= i < 4 * n ==> w[i] == word(i)
    ensures |keys| == n && forall r :: 0 <= r < n ==> keys[r] == RoundKey(word, r)
  {
    keys := [];
    for r := 0 to n
      invariant |keys| == r
      invariant forall k :: 0 <= k < r ==> keys[k] == RoundKey(word, k)
    {
      var rk: Block := seq(16, i requires 0 <= i < 16 reads w => ByteOf(w[4 * r + i / 4], i % 4));
      assert rk == RoundKey(word, r);
      keys := keys + [rk];
    }
  }

  /** The key schedule: none for a key that is not 16, 24 or 32 bytes, else the round keys of the
      standard. */
  method NewKey(key: seq<bv8>) returns (r: Option<seq<Block>>)
    ensures r == if KeyLength(|key|) then Some(RoundKeys(key)) else None
  {
    if |key| != 16 && |key| != 24 && |key| != 32 {
      return None;
    }
    var nk := |key| / 4;
    var rounds := nk + 6;
    ScheduleRecurs(key);
    var w := ExpandWords(SubWord, key, nk, 4 * (rounds + 1), Schedule(key));
    var keys := PackKeys(w, rounds + 1, Schedule(key));
    assert keys == RoundKeys(key);
    r := Some(keys);
  }

  /** Keys of 16, 24 and 32 bytes, and no others, have a schedule, for 10, 12 and 14 rounds. */
  lemma RoundCounts(key: seq<bv8>)
    ensures KeyLength(|key|) <==> |key| in {16, 24, 32}
    ensures |key| == 16 ==> |RoundKeys(key)| == 11
    ensures |key| == 24 ==> |RoundKeys(key)| == 13
    ensures |key| == 32 ==> |RoundKeys(key)| == 15
  {
  }

  // ---- The schedule byte by byte -----------------------------------------------------------

  function Power(x: bv8, n: nat): bv8 { if n == 0 then 1 else Mul(Power(x, n - 1), x) }

  lemma {:induction false} RconIsPower(j: nat)
    requires j >= 1
    ensures Rcon(j) == Power(2, j - 1)
  {
    if j > 1 {
      RconIsPower(j - 1);
    }
  }

  lemma ScheduleNext(key: seq<bv8>, i: nat)
    requires KeyLength(|key|) && |key| / 4 <= i
    ensures var nk, w := |key| / 4, Schedule(key); w(i) == Sum(w(i - nk), Feed(SubWord, nk, i, w(i - 1)))
  {
  }

  /** A word that begins a round is the one nk before it, plus the substitution of the word before it moved up by a
      byte, plus a power of x in its first byte. */
  lemma WordAtRound(key: seq<bv8>, i: nat)
    requires KeyLength(|key|) && |key| / 4 <= i && i % (|key| / 4) == 0
    ensures var nk, w := |key| / 4, Schedule(key);
      && i / nk >= 1
      && w(i).a == Xor(w(i - nk).a, Xor(Sbox(w(i - 1).b), Power(2, i / nk - 1)))
      && w(i).b == Xor(w(i - nk).b, Sbox(w(i - 1).c))
      && w(i).c == Xor(w(i - nk).c, Sbox(w(i - 1).d))
      && w(i).d == Xor(w(i - nk).d, Sbox(w(i - 1).a))
  {
    ScheduleNext(key, i);
    RoundFeed(|key| / 4, i, Schedule(key)(i - 1));
  }

  lemma RoundFeed(nk: nat, i: nat, prev: Column)
    requires 4 <= nk <= i && i % nk == 0
    ensures i / nk >= 1
    ensures Feed(SubWord, nk, i, prev)
         == Column(Xor(Sbox(prev.b), Power(2, i / nk - 1)), Sbox(prev.c), Sbox(prev.d), Sbox(prev.a))
  {
    IndexOfRound(nk, i);
    RconIsPower(i / nk);
    XorZero(Sbox(prev.c));
    XorZero(Sbox(prev.d));
    XorZero(Sbox(prev.a));
  }

  /** In a 32-byte key's schedule the word half way through a round adds the substitution of the word before it; any
      other word adds the word before it. */
  lemma WordInRound(key: seq<bv8>, i: nat)
    requires KeyLength(|key|) && |key| / 4 <= i && i % (|key| / 4) != 0
    ensures var nk, w := |key| / 4, Schedule(key);
      var halfWay := |key| == 32 && i % nk == 4;
      && w(i).a == Xor(w(i - nk).a, if halfWay then Sbox(w(i - 1).a) else w(i - 1).a)
      && w(i).b == Xor(w(i - nk).b, if halfWay then Sbox(w(i - 1).b) else w(i - 1).b)
      && w(i).c == Xor(w(i - nk).c, if halfWay then Sbox(w(i - 1).c) else w(i - 1).c)
      && w(i).d == Xor(w(i - nk).d, if halfWay then Sbox(w(i - 1).d) else w(i - 1).d)
  {
    ScheduleNext(key, i);
  }

  /** Byte m of round key r is byte m % 4 of word 4r + m / 4. */
  lemma RoundKeyByte(key: seq<bv8>, r: nat, m: nat)
    requires KeyLength(|key|) && r < |key| / 4 + 7 && m < 16
    ensures var w := Schedule(key)(4 * r + m / 4);
      RoundKeys(key)[r][m] == [w.a, w.b, w.c, w.d][m % 4]
  {
    PackedByte(Schedule(key), r, m);
  }

  lemma PackedByte(word: nat -> Column, r: nat, m: nat)
    requires m < 16
    ensures var w := word(4 * r + m / 4); RoundKey(word, r)[m] == [w.a, w.b, w.c, w.d][m % 4]
  {
    var w, p := word(4 * r + m / 4), m % 4;
    assert p == 0 || p == 1 || p == 2 || p == 3;
    assert ByteOf(w, p) == [w.a, w.b, w.c, w.d][p];
  }

  // The key of FIPS-197 appendix A.1.
  const A1_KEY: seq<bv8> := [0x2b, 0x7e, 0x15, 0x16, 0x28, 0xae, 0xd2, 0xa6, 0xab, 0xf7, 0x15, 0x88, 0x09, 0xcf, 0x4f, 0x3c]

  /** Word 4 of its schedule, as the appendix has it. */
  lemma A1Word4()
    ensures Schedule(A1_KEY)(4) == Column(0xa0, 0xfa, 0xfe, 0x17)
  {
    WordAtRound(A1_KEY, 4);
    FirstWords(SubWord, A1_KEY, 4, 0);
    FirstWords(SubWord, A1_KEY, 4, 3);
  }

  /** For every key and block, the decryptor's key schedule and inverse cipher undo the cipher. */
  lemma DecryptUndoesEncrypt(key: seq<bv8>, block: Block)
    requires KeyLength(|key|)
    ensures InvCipher(RoundKeys(key), Cipher(RoundKeys(key), block)) == block
    ensures Cipher(RoundKeys(key), InvCipher(RoundKeys(key), block)) == block
  {
    CipherUndone(RoundKeys(key), block);
  }
}
