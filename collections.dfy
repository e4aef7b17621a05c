/**
 * The array operations the components apply to their record lists, each of
 * which builds a new array: `filter` by a predicate, deletion by id
 * (`filter(x => x.id !== id)`) and an update of the records carrying one id
 * (`map(x => x.id === id ? f(x) : x)`).
 */
module Collections {

  /** A non-empty sequence is its prefix followed by its last element. */
  lemma InitLast<T>(s: seq<T>)
    requires s != []
    ensures s[..|s| - 1] + [s[|s| - 1]] == s
  {
  }

  lemma AppendAssoc<T>(x: seq<T>, y: seq<T>, z: seq<T>)
    ensures (x + y) + z == x + (y + z)
  {
  }

  /** `s.filter(keep)`. */
  function Filter<T(!new)>(s: seq<T>, keep: T -> bool): (r: seq<T>)
    ensures |r| <= |s|
    ensures forall x :: x in r <==> x in s && keep(x)
  {
    if s == [] then [] else (if keep(s[0]) then [s[0]] else []) + Filter(s[1..], keep)
  }

  /** Filtering works piece by piece, so the kept elements stay in their order. */
  lemma {:induction false} FilterAppend<T(!new)>(a: seq<T>, b: seq<T>, keep: T -> bool)
    ensures Filter(a + b, keep) == Filter(a, keep) + Filter(b, keep)
  {
    if a != [] {
      var head := if keep(a[0]) then [a[0]] else [];
      assert (a + b)[0] == a[0] && (a + b)[1..] == a[1..] + b;
      FilterAppend(a[1..], b, keep);
      assert Filter(a + b, keep) == head + (Filter(a[1..], keep) + Filter(b, keep));
      assert Filter(a, keep) == head + Filter(a[1..], keep);
      AppendAssoc(head, Filter(a[1..], keep), Filter(b, keep));
    } else {
      assert a + b == b;
    }
  }

  /** A list whose elements all pass is returned unchanged. */
  lemma {:induction false} FilterAllKept<T(!new)>(s: seq<T>, keep: T -> bool)
    requires forall i :: 0 <= i < |s| ==> keep(s[i])
    ensures Filter(s, keep) == s
  {
    if s != [] {
      FilterAllKept(s[1..], keep);
    }
  }

  /** Each passing element keeps all its occurrences; the others lose all of them. */
  lemma {:induction false} FilterCount<T(!new)>(s: seq<T>, keep: T -> bool, x: T)
    ensures multiset(Filter(s, keep))[x] == if keep(x) then multiset(s)[x] else 0
  {
    if s != [] {
      FilterCount(s[1..], keep, x);
      assert s == [s[0]] + s[1..];
    }
  }

  /** Two filters in a row keep what passes both. */
  lemma {:induction false} FilterFilter<T(!new)>(s: seq<T>, p: T -> bool, q: T -> bool)
    ensures Filter(Filter(s, p), q) == Filter(s, x => p(x) && q(x))
  {
    if s != [] {
      FilterFilter(s[1..], p, q);
      var head := if p(s[0]) then [s[0]] else [];
      FilterAppend(head, Filter(s[1..], p), q);
    }
  }

  /** `s.filter(x => idOf(x) !== id)`: deletion by id. */
  function RemoveId<T(!new)>(s: seq<T>, id: string, idOf: T -> string): (r: seq<T>)
    ensures forall x :: x in r <==> x in s && idOf(x) != id
    ensures forall x :: multiset(r)[x] == if idOf(x) != id then multiset(s)[x] else 0
  {
    var r := Filter(s, x => idOf(x) != id);
    forall x ensures multiset(r)[x] == if idOf(x) != id then multiset(s)[x] else 0 {
      FilterCount(s, x => idOf(x) != id, x);
    }
    r
  }

  /** Deleting an id no record carries changes nothing. */
  lemma RemoveAbsentId<T(!new)>(s: seq<T>, id: string, idOf: T -> string)
    requires forall i :: 0 <= i < |s| ==> idOf(s[i]) != id
    ensures RemoveId(s, id, idOf) == s
  {
    FilterAllKept(s, x => idOf(x) != id);
  }

  /** `s.map(x => idOf(x) === id ? f(x) : x)`: the records carrying `id` are
      replaced by `f` of themselves, every other record stays where it was. */
  function ReplaceId<T(!new)>(s: seq<T>, id: string, idOf: T -> string, f: T -> T): (r: seq<T>)
    ensures |r| == |s|
    ensures forall i :: 0 <= i < |s| && idOf(s[i]) != id ==> r[i] == s[i]
    ensures forall i :: 0 <= i < |s| && idOf(s[i]) == id ==> r[i] == f(s[i])
  {
    if s == [] then []
    else [if idOf(s[0]) == id then f(s[0]) else s[0]] + ReplaceId(s[1..], id, idOf, f)
  }

  /** Updating an id no record carries changes nothing. */
  lemma ReplaceAbsentId<T(!new)>(s: seq<T>, id: string, idOf: T -> string, f: T -> T)
    requires forall i :: 0 <= i < |s| ==> idOf(s[i]) != id
    ensures ReplaceId(s, id, idOf, f) == s
  {
  }

  /** An update that keeps ids keeps the list of ids. */
  lemma ReplaceKeepsIds<T(!new)>(s: seq<T>, id: string, idOf: T -> string, f: T -> T)
    requires forall x :: idOf(x) == id ==> idOf(f(x)) == id
    ensures forall i :: 0 <= i < |s| ==> idOf(ReplaceId(s, id, idOf, f)[i]) == idOf(s[i])
  {
  }

  /** `idx` picks `r` out of `s`: strictly increasing positions of `s` holding
      the elements of `r` in turn. */
  predicate Embeds<T(==)>(idx: seq<int>, r: seq<T>, s: seq<T>) {
    && |idx| == |r|
    && (forall k :: 0 <= k < |idx| ==> 0 <= idx[k] < |s| && r[k] == s[idx[k]])
    && (forall k, l :: 0 <= k < l < |idx| ==> idx[k] < idx[l])
  }

  /** `r` is `s` with some elements left out, the rest in their order. */
  ghost predicate Subsequence<T>(r: seq<T>, s: seq<T>) {
    exists idx :: Embeds(idx, r, s)
  }
}
