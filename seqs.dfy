/**
 * Sequence operations the storefront relies on: JavaScript's `slice(0, end)` and
 * `Array.prototype.filter`, first-occurrence de-duplication (`indexOf(x) === i`), and the
 * stable ordering a document store's `sort` stage applies.
 */
module Seqs {

  /** No value occurs twice. */
  ghost predicate NoDuplicates<T>(s: seq<T>)
  {
    forall i, j :: 0 <= i < j < |s| ==> s[i] != s[j]
  }

  /** `a` can be obtained from `b` by deleting elements: `b`'s relative order is kept. */
  ghost predicate IsSubsequence<T>(a: seq<T>, b: seq<T>)
    decreases |b|
  {
    a == [] || (b != [] && ((a[0] == b[0] && IsSubsequence(a[1..], b[1..])) || IsSubsequence(a, b[1..])))
  }

  lemma {:induction false} SubsequenceOfSelf<T>(s: seq<T>)
    ensures IsSubsequence(s, s)
    decreases |s|
  {
    if s != [] {
      SubsequenceOfSelf(s[1..]);
    }
  }

  /** Every element of a subsequence is an element of the whole. */
  lemma {:induction false} SubsequenceMembers<T>(a: seq<T>, b: seq<T>)
    requires IsSubsequence(a, b)
    ensures forall x :: x in a ==> x in b
    decreases |b|
  {
    if a != [] {
      if a[0] == b[0] && IsSubsequence(a[1..], b[1..]) {
        SubsequenceMembers(a[1..], b[1..]);
        assert a == [a[0]] + a[1..];
      } else {
        SubsequenceMembers(a, b[1..]);
      }
      assert b == [b[0]] + b[1..];
    }
  }

  /** Appending one element to both sides keeps a subsequence a subsequence. */
  lemma {:induction false} SubsequenceSnoc<T>(a: seq<T>, b: seq<T>, x: T)
    requires IsSubsequence(a, b)
    ensures IsSubsequence(a + [x], b + [x])
    decreases |b|
  {
    if a == [] {
      assert a + [x] == [x];
      SubsequenceOfSelfSkip(b, x);
    } else {
      assert (a + [x])[0] == a[0] && (a + [x])[1..] == a[1..] + [x];
      assert (b + [x])[0] == b[0] && (b + [x])[1..] == b[1..] + [x];
      if a[0] == b[0] && IsSubsequence(a[1..], b[1..]) {
        SubsequenceSnoc(a[1..], b[1..], x);
      } else {
        SubsequenceSnoc(a, b[1..], x);
      }
    }
  }

  /** `[x]` is a subsequence of any sequence that ends with `x`. */
  lemma {:induction false} SubsequenceOfSelfSkip<T>(b: seq<T>, x: T)
    ensures IsSubsequence([x], b + [x])
    decreases |b|
  {
    if b == [] {
      assert b + [x] == [x];
      assert IsSubsequence([x][1..], [x][1..]);
    } else {
      assert (b + [x])[1..] == b[1..] + [x];
      SubsequenceOfSelfSkip(b[1..], x);
    }
  }

  /** Appending an element to the larger side only keeps a subsequence a subsequence. */
  lemma {:induction false} SubsequenceExtend<T>(a: seq<T>, b: seq<T>, x: T)
    requires IsSubsequence(a, b)
    ensures IsSubsequence(a, b + [x])
    decreases |b|
  {
    if a != [] {
      assert (b + [x])[0] == b[0] && (b + [x])[1..] == b[1..] + [x];
      if a[0] == b[0] && IsSubsequence(a[1..], b[1..]) {
        SubsequenceExtend(a[1..], b[1..], x);
      } else {
        SubsequenceExtend(a, b[1..], x);
      }
    }
  }

  /** JavaScript's `s.slice(0, end)`: a negative `end` counts back from the end of `s`. */
  function Slice<T>(s: seq<T>, end: int): (r: seq<T>)
    ensures |r| <= |s| && r == s[..|r|]
    ensures 0 <= end ==> |r| == if end < |s| then end else |s|
    ensures end < 0 ==> |r| == if |s| + end > 0 then |s| + end else 0
  {
    if end < 0 then (if |s| + end > 0 then s[..|s| + end] else [])
    else if end < |s| then s[..end]
    else s
  }

  /**
   * JavaScript's `Array.prototype.filter`: the elements satisfying `keep`, in their original
   * order, every occurrence of a kept value and none of a dropped one.
   */
  function Filter<T>(s: seq<T>, keep: T -> bool): (r: seq<T>)
    ensures |r| <= |s|
    ensures forall i :: 0 <= i < |r| ==> r[i] in s && keep(r[i])
    ensures forall i :: 0 <= i < |s| && keep(s[i]) ==> s[i] in r
    ensures forall x {:trigger multiset(r)[x]} | x in s :: multiset(r)[x] == if keep(x) then multiset(s)[x] else 0
    ensures IsSubsequence(r, s)
    ensures NoDuplicates(s) ==> NoDuplicates(r)
    decreases |s|
  {
    if s == [] then []
    else
      var rest := Filter(s[1..], keep);
      assert s == [s[0]] + s[1..];
      var r := if keep(s[0]) then [s[0]] + rest else rest;
      FilterCountStep(s, rest, r, keep);
      FilterShapeStep(s, rest, r, keep);
      r
  }

  /** One more element in front keeps the result a subsequence of kept elements, repeat-free when the input is. */
  lemma FilterShapeStep<T>(s: seq<T>, rest: seq<T>, r: seq<T>, keep: T -> bool)
    requires s != [] && r == if keep(s[0]) then [s[0]] + rest else rest
    requires |rest| < |s|
    requires forall i :: 0 <= i < |rest| ==> rest[i] in s[1..] && keep(rest[i])
    requires forall i :: 0 <= i < |s[1..]| && keep(s[1..][i]) ==> s[1..][i] in rest
    requires IsSubsequence(rest, s[1..])
    requires NoDuplicates(s[1..]) ==> NoDuplicates(rest)
    ensures |r| <= |s|
    ensures forall i :: 0 <= i < |r| ==> r[i] in s && keep(r[i])
    ensures forall i :: 0 <= i < |s| && keep(s[i]) ==> s[i] in r
    ensures IsSubsequence(r, s)
    ensures NoDuplicates(s) ==> NoDuplicates(r)
  {
    assert s == [s[0]] + s[1..];
    if keep(s[0]) {
      assert r[1..] == rest;
      assert forall i :: 0 < i < |s| ==> s[i] == s[1..][i - 1];
    }
  }

  /** One more element in front: a kept one adds one occurrence to the result, a dropped one none. */
  lemma FilterCountStep<T>(s: seq<T>, rest: seq<T>, r: seq<T>, keep: T -> bool)
    requires s != [] && r == if keep(s[0]) then [s[0]] + rest else rest
    requires forall x | x in s[1..] :: multiset(rest)[x] == if keep(x) then multiset(s[1..])[x] else 0
    requires forall i :: 0 <= i < |rest| ==> rest[i] in s[1..]
    ensures forall x | x in s :: multiset(r)[x] == if keep(x) then multiset(s)[x] else 0
  {
    assert s == [s[0]] + s[1..];
    var tail := multiset(s[1..]);
    assert multiset(s) == multiset{s[0]} + tail;
    assert multiset(r) == (if keep(s[0]) then multiset{s[0]} else multiset{}) + multiset(rest);
    forall x | x in s
      ensures multiset(r)[x] == if keep(x) then multiset(s)[x] else 0
    {
      assert multiset(s)[x] == (if x == s[0] then 1 else 0) + tail[x];
      assert multiset(r)[x] == (if keep(s[0]) && x == s[0] then 1 else 0) + multiset(rest)[x];
      if x !in s[1..] {
        assert x !in rest;
        assert tail[x] == 0 && multiset(rest)[x] == 0;
      }
    }
  }

  /** `Array.prototype.map`: `f` applied to every element, position by position. */
  function Map<A, B>(s: seq<A>, f: A -> B): (r: seq<B>)
    ensures |r| == |s|
    ensures forall i :: 0 <= i < |s| ==> r[i] == f(s[i])
  {
    seq(|s|, i requires 0 <= i < |s| => f(s[i]))
  }

  /** Mapping distributes over concatenation. */
  lemma MapConcat<A, B>(a: seq<A>, b: seq<A>, f: A -> B)
    ensures Map(a + b, f) == Map(a, f) + Map(b, f)
  {
  }

  /** A filter every element passes returns its input. */
  lemma {:induction false} FilterAll<T>(s: seq<T>, keep: T -> bool)
    requires forall i :: 0 <= i < |s| ==> keep(s[i])
    ensures Filter(s, keep) == s
    decreases |s|
  {
    if s != [] {
      FilterAll(s[1..], keep);
      assert s == [s[0]] + s[1..];
    }
  }

  /** Filtering twice by the same condition is filtering once. */
  lemma FilterIdempotent<T>(s: seq<T>, keep: T -> bool)
    ensures Filter(Filter(s, keep), keep) == Filter(s, keep)
  {
    FilterAll(Filter(s, keep), keep);
  }

  /** Conditions that agree on every element of `s` filter it alike. */
  lemma {:induction false} FilterSameCondition<T>(s: seq<T>, keep: T -> bool, keep': T -> bool)
    requires forall i :: 0 <= i < |s| ==> keep(s[i]) == keep'(s[i])
    ensures Filter(s, keep) == Filter(s, keep')
    decreases |s|
  {
    if s != [] {
      FilterSameCondition(s[1..], keep, keep');
    }
  }

  /** Filtering drops a rejected element wherever it stands. */
  lemma {:induction false} FilterSkips<T>(a: seq<T>, x: T, b: seq<T>, keep: T -> bool)
    requires !keep(x)
    ensures Filter(a + [x] + b, keep) == Filter(a + b, keep)
    decreases |a|
  {
    if a == [] {
      assert a + [x] + b == [x] + b && a + b == b;
      assert ([x] + b)[0] == x && ([x] + b)[1..] == b;
    } else {
      assert (a + [x] + b)[0] == a[0] && (a + [x] + b)[1..] == a[1..] + [x] + b;
      assert (a + b)[0] == a[0] && (a + b)[1..] == a[1..] + b;
      FilterSkips(a[1..], x, b, keep);
    }
  }

  /** Filtering distributes over concatenation. */
  lemma {:induction false} FilterConcat<T>(a: seq<T>, b: seq<T>, keep: T -> bool)
    ensures Filter(a + b, keep) == Filter(a, keep) + Filter(b, keep)
    decreases |a|
  {
    if a == [] {
      assert a + b == b;
    } else {
      assert (a + b)[0] == a[0] && (a + b)[1..] == a[1..] + b;
      FilterConcat(a[1..], b, keep);
    }
  }

  /** JavaScript's `indexOf`: the position of the first occurrence of `x`, or -1. */
  function IndexOf<T(==)>(s: seq<T>, x: T): (i: int)
    ensures -1 <= i < |s|
    ensures i == -1 <==> x !in s
    ensures 0 <= i ==> s[i] == x && x !in s[..i]
  {
    if s == [] then -1
    else if s[0] == x then 0
    else
      var k := IndexOf(s[1..], x);
      assert s == [s[0]] + s[1..];
      if k < 0 then -1
      else
        assert s[..k + 1] == [s[0]] + s[1..][..k];
        k + 1
  }

  /** A first occurrence inside a prefix is the first occurrence in the whole sequence. */
  lemma IndexOfInPrefix<T>(s: seq<T>, m: nat, x: T)
    requires m <= |s| && x in s[..m]
    ensures IndexOf(s, x) == IndexOf(s[..m], x)
  {
    var i, k := IndexOf(s, x), IndexOf(s[..m], x);
    assert s[..m][..k] == s[..k];
    assert forall j :: 0 <= j < k ==> s[..k][j] == s[j];
    assert forall j :: 0 <= j < i ==> s[..i][j] == s[j];
  }

  /**
   * The elements of `s` with every repeat dropped, in the order of their first occurrences: the
   * element at position `i` is kept exactly when it does not occur in `s[..i]`.
   */
  function Distinct<T(==)>(s: seq<T>): (r: seq<T>)
    ensures NoDuplicates(r)
    ensures forall i :: 0 <= i < |r| ==> r[i] in s
    ensures forall i :: 0 <= i < |s| ==> s[i] in r
    ensures |r| <= |s|
  {
    if s == [] then []
    else
      var init, last := s[..|s| - 1], s[|s| - 1];
      assert s == init + [last];
      if last in init then Distinct(init) else Distinct(init) + [last]
  }

  /**
   * De-duplication keeps `s`'s order: the result is a subsequence of `s`, its first element is
   * `s`'s first, and its elements appear in the order of their first occurrences in `s`.
   */
  lemma DistinctKeepsFirstOccurrences<T>(s: seq<T>)
    ensures IsSubsequence(Distinct(s), s)
    ensures s != [] ==> Distinct(s) != [] && Distinct(s)[0] == s[0]
    ensures forall i, j :: 0 <= i < j < |Distinct(s)| ==> IndexOf(s, Distinct(s)[i]) < IndexOf(s, Distinct(s)[j])
  {
    DistinctSubsequence(s);
    DistinctInFirstOccurrenceOrder(s);
    if s != [] {
      var r := Distinct(s);
      assert s[0] in r;
      var k :| 0 <= k < |r| && r[k] == s[0];
      assert IndexOf(s, s[0]) == 0;
    }
  }

  /** De-duplication only deletes elements. */
  lemma {:induction false} DistinctSubsequence<T>(s: seq<T>)
    ensures IsSubsequence(Distinct(s), s)
    decreases |s|
  {
    if s != [] {
      var init, last := s[..|s| - 1], s[|s| - 1];
      assert s == init + [last];
      DistinctSubsequence(init);
      var d := Distinct(init);
      if init == [] {
        assert Distinct(s) == [last];
        SubsequenceOfSelf(s);
      } else if last in init {
        SubsequenceExtend(d, init, last);
      } else {
        SubsequenceSnoc(d, init, last);
      }
    }
  }

  /** The kept elements are ordered by where they first occur. */
  lemma {:induction false} DistinctInFirstOccurrenceOrder<T>(s: seq<T>)
    ensures forall i, j :: 0 <= i < j < |Distinct(s)| ==> IndexOf(s, Distinct(s)[i]) < IndexOf(s, Distinct(s)[j])
    decreases |s|
  {
    if s != [] {
      var init, last := s[..|s| - 1], s[|s| - 1];
      assert s == init + [last];
      DistinctInFirstOccurrenceOrder(init);
      var d := Distinct(init);
      var r := Distinct(s);
      forall i, j | 0 <= i < j < |r|
        ensures IndexOf(s, r[i]) < IndexOf(s, r[j])
      {
        assert r[i] == d[i] && r[i] in init;
        IndexOfInPrefix(s, |s| - 1, r[i]);
        if j < |d| {
          assert r[j] == d[j];
          IndexOfInPrefix(s, |s| - 1, r[j]);
        } else {
          assert r[j] == last && last !in init;
        }
      }
    }
  }

  /** `before` orders every pair and is transitive: a comparator a store or `Array.sort` can use. */
  ghost predicate TotalPreorder<T(!new)>(before: (T, T) -> bool)
  {
    && (forall a, b :: before(a, b) || before(b, a))
    && (forall a, b, c :: before(a, b) && before(b, c) ==> before(a, c))
  }

  /** Every element comes `before` every later one. */
  ghost predicate SortedBy<T>(s: seq<T>, before: (T, T) -> bool)
  {
    forall i, j :: 0 <= i < j < |s| ==> before(s[i], s[j])
  }

  /** Places `x` ahead of the first element it may precede. */
  function InsertBy<T(==)>(x: T, s: seq<T>, before: (T, T) -> bool): (r: seq<T>)
    ensures multiset(r) == multiset(s) + multiset{x}
    ensures |r| == |s| + 1
  {
    if s == [] || before(x, s[0]) then [x] + s
    else
      assert s == [s[0]] + s[1..];
      [s[0]] + InsertBy(x, s[1..], before)
  }

  /**
   * The stable sort a `sort` stage performs: a permutation of `s` ordered by `before`, in which
   * elements that compare equal keep their input order.
   */
  function SortBy<T(==)>(s: seq<T>, before: (T, T) -> bool): (r: seq<T>)
    ensures multiset(r) == multiset(s)
    ensures |r| == |s|
  {
    if s == [] then []
    else
      assert s == [s[0]] + s[1..];
      InsertBy(s[0], SortBy(s[1..], before), before)
  }

  lemma {:induction false} InsertBySorted<T(!new)>(x: T, s: seq<T>, before: (T, T) -> bool)
    requires TotalPreorder(before) && SortedBy(s, before)
    ensures SortedBy(InsertBy(x, s, before), before)
    decreases |s|
  {
    if s != [] && !before(x, s[0]) {
      InsertBySorted(x, s[1..], before);
      var t := InsertBy(x, s[1..], before);
      forall y | y in t
        ensures before(s[0], y)
      {
        assert y in multiset(t);
        assert y == x || y in multiset(s[1..]);
      }
    }
  }

  /** The result of `SortBy` is ordered whenever the comparator is a total preorder. */
  lemma {:induction false} SortBySorted<T(!new)>(s: seq<T>, before: (T, T) -> bool)
    requires TotalPreorder(before)
    ensures SortedBy(SortBy(s, before), before)
    decreases |s|
  {
    if s != [] {
      SortBySorted(s[1..], before);
      InsertBySorted(s[0], SortBy(s[1..], before), before);
    }
  }

  lemma {:induction false} InsertByNoDuplicates<T>(x: T, s: seq<T>, before: (T, T) -> bool)
    requires NoDuplicates(s) && x !in s
    ensures NoDuplicates(InsertBy(x, s, before))
    decreases |s|
  {
    if s != [] && !before(x, s[0]) {
      InsertByNoDuplicates(x, s[1..], before);
      var t := InsertBy(x, s[1..], before);
      forall y | y in t
        ensures y != s[0]
      {
        assert y in multiset(t);
        assert y == x || y in multiset(s[1..]);
      }
      var r := [s[0]] + t;
      assert forall j :: 0 < j < |r| ==> r[j] == t[j - 1];
      assert forall j :: 0 < j < |r| ==> r[j] in t;
    }
  }

  /** Sorting a repeat-free sequence leaves it repeat-free. */
  lemma {:induction false} SortByNoDuplicates<T>(s: seq<T>, before: (T, T) -> bool)
    requires NoDuplicates(s)
    ensures NoDuplicates(SortBy(s, before))
    decreases |s|
  {
    if s != [] {
      SortByNoDuplicates(s[1..], before);
      var t := SortBy(s[1..], before);
      assert s[0] !in multiset(t);
      InsertByNoDuplicates(s[0], t, before);
    }
  }

  /**
   * The first `k` elements of a sorted sequence, as a `$sort` stage followed by `$limit`
   * returns them: `k` of them when there are that many, taken from the input, in order, and
   * every element left out (counting repeats) comes no earlier than each one kept.
   */
  lemma TopK<T(!new)>(s: seq<T>, before: (T, T) -> bool, k: nat)
    requires TotalPreorder(before)
    ensures var top := Slice(SortBy(s, before), k);
      && |top| == (if k < |s| then k else |s|)
      && multiset(top) <= multiset(s)
      && SortedBy(top, before)
      && forall x | x in multiset(s) - multiset(top) :: forall i | 0 <= i < |top| :: before(top[i], x)
  {
    var sorted := SortBy(s, before);
    var top := Slice(sorted, k);
    SortBySorted(s, before);
    SortedTail(sorted, before, |top|);
    assert top == sorted[..|top|];
  }

  /**
   * A prefix of a sorted sequence is sorted and drawn from it, and every element past it
   * (counting repeats) comes no earlier than each element in it.
   */
  lemma SortedTail<T>(sorted: seq<T>, before: (T, T) -> bool, n: nat)
    requires SortedBy(sorted, before) && n <= |sorted|
    ensures SortedBy(sorted[..n], before)
    ensures multiset(sorted[..n]) <= multiset(sorted)
    ensures forall x | x in multiset(sorted) - multiset(sorted[..n]) :: forall i | 0 <= i < n :: before(sorted[i], x)
  {
    assert sorted == sorted[..n] + sorted[n..];
    assert multiset(sorted) == multiset(sorted[..n]) + multiset(sorted[n..]);
    forall x | x in multiset(sorted) - multiset(sorted[..n])
      ensures forall i | 0 <= i < n :: before(sorted[i], x)
    {
      assert x in multiset(sorted[n..]);
      var j :| 0 <= j < |sorted| - n && sorted[n..][j] == x;
      assert sorted[n + j] == x;
    }
  }
}
