/** What several of the models share: optional values, 64-bit numbers, powers of two and a stable sort. */
module Common {
  datatype Option<+T> = None | Some(value: T)

  const TWO64: int := 0x1_0000_0000_0000_0000
  type u64 = x: int | 0 <= x < TWO64

  function Pow2(n: nat): (r: nat)
    ensures r > 0
  {
    if n == 0 then 1 else 2 * Pow2(n - 1)
  }

  // Stable insertion by key from the back: after everything with a key no larger.
  function InsertBy<T>(key: T -> int, xs: seq<T>, x: T): seq<T> {
    if xs == [] || key(xs[|xs| - 1]) <= key(x) then xs + [x]
    else InsertBy(key, xs[..|xs| - 1], x) + [xs[|xs| - 1]]
  }

  function SortBy<T>(key: T -> int, xs: seq<T>): seq<T> {
    if xs == [] then [] else InsertBy(key, SortBy(key, xs[..|xs| - 1]), xs[|xs| - 1])
  }

  lemma {:induction false} InsertMembers<T>(key: T -> int, xs: seq<T>, x: T, y: T)
    ensures y in InsertBy(key, xs, x) <==> y in xs || y == x
  {
    if !(xs == [] || key(xs[|xs| - 1]) <= key(x)) {
      InsertMembers(key, xs[..|xs| - 1], x, y);
      assert xs == xs[..|xs| - 1] + [xs[|xs| - 1]];
    }
  }

  /** Sorting loses nothing and adds nothing. */
  lemma {:induction false} SortMembers<T>(key: T -> int, xs: seq<T>, y: T)
    ensures y in SortBy(key, xs) <==> y in xs
  {
    if xs != [] {
      var n := |xs| - 1;
      SortMembers(key, xs[..n], y);
      InsertMembers(key, SortBy(key, xs[..n]), xs[n], y);
      assert xs == xs[..n] + [xs[n]];
    }
  }

  lemma {:induction false} InsertLength<T>(key: T -> int, xs: seq<T>, x: T)
    ensures |InsertBy(key, xs, x)| == |xs| + 1
  {
    if !(xs == [] || key(xs[|xs| - 1]) <= key(x)) {
      InsertLength(key, xs[..|xs| - 1], x);
    }
  }

  lemma {:induction false} SortLength<T>(key: T -> int, xs: seq<T>)
    ensures |SortBy(key, xs)| == |xs|
  {
    if xs != [] {
      SortLength(key, xs[..|xs| - 1]);
      InsertLength(key, SortBy(key, xs[..|xs| - 1]), xs[|xs| - 1]);
    }
  }

  /** A sequence in order stays as it is. */
  lemma {:induction false} SortSame<T>(key: T -> int, xs: seq<T>)
    requires forall i :: 0 < i < |xs| ==> key(xs[i - 1]) <= key(xs[i])
    ensures SortBy(key, xs) == xs
  {
    if xs != [] {
      var n := |xs| - 1;
      SortSame(key, xs[..n]);
      assert xs == xs[..n] + [xs[n]];
    }
  }
}
