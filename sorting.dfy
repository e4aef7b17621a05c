/**
 * `Array.prototype.sort` with a key comparator, and `Array.from(new Set(xs)).sort()`.
 * JavaScript's sort is stable; the model is an insertion sort that places each
 * element before the first later-sorted element it may precede, which keeps
 * equal keys in their original order.
 */
module Sorting {
  import opened Text

  /** Which way the comparator orders its string keys. */
  datatype Direction = Ascending | Descending

  predicate Before(a: string, b: string, dir: Direction) {
    match dir
    case Ascending => StrLe(a, b)
    case Descending => StrLe(b, a)
  }

  lemma BeforeTotal(a: string, b: string, dir: Direction)
    ensures Before(a, b, dir) || Before(b, a, dir)
  {
    StrLeTotal(a, b);
  }

  lemma BeforeTrans(a: string, b: string, c: string, dir: Direction)
    requires Before(a, b, dir) && Before(b, c, dir)
    ensures Before(a, c, dir)
  {
    if dir == Ascending { StrLeTrans(a, b, c); } else { StrLeTrans(c, b, a); }
  }

  ghost predicate SortedBy<T>(s: seq<T>, key: T -> string, dir: Direction) {
    forall i, j :: 0 <= i < j < |s| ==> Before(key(s[i]), key(s[j]), dir)
  }

  function Insert<T>(x: T, s: seq<T>, key: T -> string, dir: Direction): seq<T>
  {
    if s == [] then [x]
    else if Before(key(x), key(s[0]), dir) then [x] + s
    else [s[0]] + Insert(x, s[1..], key, dir)
  }

  /** The stable sort of `s` by `key` in direction `dir`. */
  function SortBy<T>(s: seq<T>, key: T -> string, dir: Direction): seq<T>
  {
    if s == [] then [] else Insert(s[0], SortBy(s[1..], key, dir), key, dir)
  }

  /** Inserting adds exactly the one element. */
  lemma {:induction false} InsertCount<T>(x: T, s: seq<T>, key: T -> string, dir: Direction)
    ensures multiset(Insert(x, s, key, dir)) == multiset(s) + multiset{x}
  {
    if s != [] && !Before(key(x), key(s[0]), dir) {
      InsertCount(x, s[1..], key, dir);
      assert s == [s[0]] + s[1..];
    }
  }

  /** A sorted list stays sorted under a head that may precede all its elements. */
  lemma SortedCons<T>(x: T, s: seq<T>, key: T -> string, dir: Direction)
    requires SortedBy(s, key, dir)
    requires forall y :: y in s ==> Before(key(x), key(y), dir)
    ensures SortedBy([x] + s, key, dir)
  {
    var r := [x] + s;
    forall i, j | 0 <= i < j < |r| ensures Before(key(r[i]), key(r[j]), dir) {
      if i == 0 { assert r[j] in s; } else { assert r[i] == s[i - 1] && r[j] == s[j - 1]; }
    }
  }

  lemma {:induction false} InsertSpec<T>(x: T, s: seq<T>, key: T -> string, dir: Direction)
    requires SortedBy(s, key, dir)
    ensures SortedBy(Insert(x, s, key, dir), key, dir)
    ensures multiset(Insert(x, s, key, dir)) == multiset(s) + multiset{x}
  {
    InsertCount(x, s, key, dir);
    if s == [] {
    } else if Before(key(x), key(s[0]), dir) {
      forall y | y in s ensures Before(key(x), key(y), dir) {
        var k :| 0 <= k < |s| && s[k] == y;
        if k > 0 { BeforeTrans(key(x), key(s[0]), key(y), dir); }
      }
      SortedCons(x, s, key, dir);
    } else {
      BeforeTotal(key(x), key(s[0]), dir);
      var rest := s[1..];
      assert SortedBy(rest, key, dir);
      InsertSpec(x, rest, key, dir);
      var t := Insert(x, rest, key, dir);
      forall y | y in t ensures Before(key(s[0]), key(y), dir) {
        assert y in multiset(t);
        if y != x {
          assert y in multiset(rest);
          var k :| 0 <= k < |rest| && rest[k] == y;
          assert s[k + 1] == y;
        }
      }
      SortedCons(s[0], t, key, dir);
    }
  }

  /** Sorting yields a sorted permutation of its input. */
  lemma {:induction false} SortBySpec<T>(s: seq<T>, key: T -> string, dir: Direction)
    ensures SortedBy(SortBy(s, key, dir), key, dir)
    ensures multiset(SortBy(s, key, dir)) == multiset(s)
  {
    if s != [] {
      SortBySpec(s[1..], key, dir);
      InsertSpec(s[0], SortBy(s[1..], key, dir), key, dir);
      assert s == [s[0]] + s[1..];
    }
  }

  lemma SortByLength<T>(s: seq<T>, key: T -> string, dir: Direction)
    ensures |SortBy(s, key, dir)| == |s|
    ensures forall x :: x in SortBy(s, key, dir) <==> x in s
  {
    SortBySpec(s, key, dir);
    assert |multiset(SortBy(s, key, dir))| == |multiset(s)|;
    forall x ensures x in SortBy(s, key, dir) <==> x in s {
      assert x in SortBy(s, key, dir) <==> x in multiset(SortBy(s, key, dir));
      assert x in s <==> x in multiset(s);
    }
  }

  /** A list that is already in order is left exactly as it is. */
  lemma {:induction false} SortBySortedIdentity<T>(s: seq<T>, key: T -> string, dir: Direction)
    requires SortedBy(s, key, dir)
    ensures SortBy(s, key, dir) == s
  {
    if s != [] {
      assert SortedBy(s[1..], key, dir);
      SortBySortedIdentity(s[1..], key, dir);
      if |s| > 1 {
        assert Before(key(s[0]), key(s[1..][0]), dir);
      }
      assert s == [s[0]] + s[1..];
    }
  }

  /** The elements of `s` whose key is `k`, in their order in `s`. */
  function WithKey<T>(s: seq<T>, key: T -> string, k: string): seq<T>
    decreases |s|
  {
    if s == [] then []
    else (if key(s[0]) == k then [s[0]] else []) + WithKey(s[1..], key, k)
  }

  /** `WithKey` of a sequence that starts with `y`. */
  lemma WithKeyCons<T>(y: T, s: seq<T>, key: T -> string, k: string)
    ensures WithKey([y] + s, key, k) == (if key(y) == k then [y] else []) + WithKey(s, key, k)
  {
    assert ([y] + s)[0] == y && ([y] + s)[1..] == s;
  }

  /** Inserting puts the new element before every element of equal key. */
  lemma {:induction false} InsertWithKey<T>(x: T, s: seq<T>, key: T -> string, dir: Direction, k: string)
    ensures WithKey(Insert(x, s, key, dir), key, k) == (if key(x) == k then [x] else []) + WithKey(s, key, k)
    decreases |s|
  {
    if s == [] || Before(key(x), key(s[0]), dir) {
      assert Insert(x, s, key, dir) == [x] + s;
      WithKeyCons(x, s, key, k);
    } else {
      InsertWithKeyPast(x, s, key, dir, k);
    }
  }

  /** The step of `InsertWithKey` where `x` goes past the head of `s`. */
  lemma {:induction false} InsertWithKeyPast<T>(x: T, s: seq<T>, key: T -> string, dir: Direction, k: string)
    requires s != [] && !Before(key(x), key(s[0]), dir)
    ensures WithKey(Insert(x, s, key, dir), key, k) == (if key(x) == k then [x] else []) + WithKey(s, key, k)
    decreases |s|, 0
  {
    assert key(s[0]) != key(x) by {
      StrLeRefl(key(x));
    }
    var rest := Insert(x, s[1..], key, dir);
    var here := if key(x) == k then [x] else [];
    var head := if key(s[0]) == k then [s[0]] else [];
    var tail := WithKey(s[1..], key, k);
    assert WithKey(Insert(x, s, key, dir), key, k) == head + (here + tail) by {
      assert Insert(x, s, key, dir) == [s[0]] + rest;
      WithKeyCons(s[0], rest, key, k);
      InsertWithKey(x, s[1..], key, dir, k);
    }
    assert WithKey(s, key, k) == head + tail by {
      assert s == [s[0]] + s[1..];
      WithKeyCons(s[0], s[1..], key, k);
    }
    SwapDisjoint(head, here, tail);
  }

  /** Two pieces of which one is empty can be put in either order. */
  lemma SwapDisjoint<T>(a: seq<T>, b: seq<T>, c: seq<T>)
    requires a == [] || b == []
    ensures a + (b + c) == b + (a + c)
  {
    if a == [] {
      assert a + (b + c) == b + c == b + (a + c);
    } else {
      assert b + (a + c) == a + c == a + (b + c);
    }
  }

  /** The sort is stable: the elements of any one key come out in the order
      they went in. */
  lemma {:induction false} SortByStable<T>(s: seq<T>, key: T -> string, dir: Direction, k: string)
    ensures WithKey(SortBy(s, key, dir), key, k) == WithKey(s, key, k)
  {
    if s != [] {
      SortByStable(s[1..], key, dir, k);
      InsertWithKey(s[0], SortBy(s[1..], key, dir), key, dir, k);
    }
  }

  // ---------------------------------------------------------------------------
  // Array.from(new Set(xs)).sort()
  // ---------------------------------------------------------------------------

  /** `Array.from(new Set(xs))`: the first occurrence of every string, in order. */
  function Distinct(xs: seq<string>): seq<string>
    decreases |xs|
  {
    if xs == [] then []
    else if xs[|xs| - 1] in xs[..|xs| - 1] then Distinct(xs[..|xs| - 1])
    else Distinct(xs[..|xs| - 1]) + [xs[|xs| - 1]]
  }

  predicate NoDuplicates<T(==)>(s: seq<T>) {
    forall i, j :: 0 <= i < j < |s| ==> s[i] != s[j]
  }

  lemma {:induction false} DistinctSpec(xs: seq<string>)
    ensures NoDuplicates(Distinct(xs))
    ensures forall x :: x in Distinct(xs) <==> x in xs
    decreases |xs|
  {
    if xs != [] {
      var init := xs[..|xs| - 1];
      DistinctSpec(init);
      assert xs == init + [xs[|xs| - 1]];
    }
  }

  function Identity(s: string): string { s }

  /** `Array.from(new Set(xs)).sort()`: the distinct strings of `xs`, in order. */
  function UniqueSorted(xs: seq<string>): (r: seq<string>)
    ensures forall i, j :: 0 <= i < j < |r| ==> StrLe(r[i], r[j]) && r[i] != r[j]
    ensures forall x :: x in r <==> x in xs
  {
    var d := Distinct(xs);
    DistinctSpec(xs);
    SortBySpec(d, Identity, Ascending);
    SortByLength(d, Identity, Ascending);
    var r := SortBy(d, Identity, Ascending);
    assert multiset(r) == multiset(d);
    assert NoDuplicates(r) by {
      forall i, j | 0 <= i < j < |r| ensures r[i] != r[j] {
        NoDuplicatesCount(d, r[i]);
        DistinctByCount(r, i, j);
      }
    }
    r
  }

  /** Two positions hold different values when the first value occurs once. */
  lemma DistinctByCount<T>(s: seq<T>, i: int, j: int)
    requires 0 <= i < j < |s| && multiset(s)[s[i]] <= 1
    ensures s[i] != s[j]
  {
    assert s == s[..i] + [s[i]] + s[i + 1..j] + [s[j]] + s[j + 1..];
  }

  lemma {:induction false} NoDuplicatesCount<T>(s: seq<T>, x: T)
    requires NoDuplicates(s)
    ensures multiset(s)[x] <= 1
  {
    if s != [] {
      assert s == [s[0]] + s[1..];
      assert NoDuplicates(s[1..]);
      NoDuplicatesCount(s[1..], x);
      if s[0] == x { assert x !in s[1..]; }
    }
  }
}
