/** `Array.prototype.sort` with a comparator, specified by its result: a
    permutation of the input that is ordered whenever the comparator is a
    total preorder on the elements. `before(a, b)` holds when `a` may come
    first. The algorithm is a stable insertion; the source's engine is not
    modelled, only the order it must produce. */
module Sorting {

  predicate SortedBy<T>(s: seq<T>, before: (T, T) -> bool) {
    forall i, j :: 0 <= i < j < |s| ==> before(s[i], s[j])
  }

  /** `before` is total and transitive on the elements of `u`. */
  ghost predicate TotalPreorderOn<T>(u: seq<T>, before: (T, T) -> bool) {
    && (forall a, b :: a in u && b in u ==> before(a, b) || before(b, a))
    && (forall a, b, c :: a in u && b in u && c in u && before(a, b) && before(b, c) ==> before(a, c))
  }

  function InsertBy<T>(x: T, s: seq<T>, before: (T, T) -> bool): (r: seq<T>)
    ensures multiset(r) == multiset(s) + multiset{x}
  {
    if |s| == 0 then [x]
    else if before(x, s[0]) then [x] + s
    else
      assert s == [s[0]] + s[1..];
      [s[0]] + InsertBy(x, s[1..], before)
  }

  function SortBy<T>(s: seq<T>, before: (T, T) -> bool): (r: seq<T>)
    ensures multiset(r) == multiset(s)
    ensures |r| == |s|
  {
    if |s| == 0 then []
    else
      assert s == [s[0]] + s[1..];
      InsertBy(s[0], SortBy(s[1..], before), before)
  }

  lemma InElements<T>(x: T, s: seq<T>, r: seq<T>)
    requires multiset(r) == multiset(s)
    ensures x in r <==> x in s
  {
    assert x in r <==> x in multiset(r);
    assert x in s <==> x in multiset(s);
  }

  lemma InsertElements<T>(x: T, s: seq<T>, before: (T, T) -> bool, y: T)
    ensures y in InsertBy(x, s, before) <==> y == x || y in s
  {
    assert y in InsertBy(x, s, before) <==> y in multiset(InsertBy(x, s, before));
    assert y in s <==> y in multiset(s);
  }

  /** Consing a head that may come before every element keeps a list ordered. */
  lemma ConsSorted<T>(h: T, t: seq<T>, before: (T, T) -> bool)
    requires SortedBy(t, before)
    requires forall y :: y in t ==> before(h, y)
    ensures SortedBy([h] + t, before)
  {
    var r := [h] + t;
    forall i, j | 0 <= i < j < |r| ensures before(r[i], r[j]) {
      if i == 0 {
        assert r[j] == t[j - 1];
      } else {
        assert r[i] == t[i - 1] && r[j] == t[j - 1];
      }
    }
  }

  lemma {:induction false} InsertSorted<T>(x: T, s: seq<T>, u: seq<T>, before: (T, T) -> bool)
    requires TotalPreorderOn(u, before)
    requires x in u && forall y :: y in s ==> y in u
    requires SortedBy(s, before)
    ensures SortedBy(InsertBy(x, s, before), before)
  {
    if |s| == 0 {
    } else if before(x, s[0]) {
      forall y | y in s ensures before(x, y) {
        var j :| 0 <= j < |s| && s[j] == y;
        if j > 0 {
          assert before(s[0], s[j]);
        }
      }
      ConsSorted(x, s, before);
    } else {
      var tail := InsertBy(x, s[1..], before);
      assert SortedBy(s[1..], before);
      InsertSorted(x, s[1..], u, before);
      forall y | y in tail ensures before(s[0], y) {
        InsertElements(x, s[1..], before, y);
        if y != x {
          var j :| 0 <= j < |s[1..]| && s[1..][j] == y;
          assert s[j + 1] == y;
        }
      }
      ConsSorted(s[0], tail, before);
    }
  }

  /** Sorting with a comparator that is a total preorder on the input yields
      an ordered permutation of it. */
  lemma {:induction false} SortBySorted<T>(s: seq<T>, before: (T, T) -> bool)
    requires TotalPreorderOn(s, before)
    ensures SortedBy(SortBy(s, before), before)
  {
    if |s| > 0 {
      var rest := SortBy(s[1..], before);
      assert TotalPreorderOn(s[1..], before) by {
        assert forall y :: y in s[1..] ==> y in s;
      }
      SortBySorted(s[1..], before);
      forall y | y in rest ensures y in s {
        InElements(y, s[1..], rest);
      }
      InsertSorted(s[0], rest, s, before);
    }
  }

  /** The first element of an ordered permutation may come before every
      element of the input. */
  lemma FirstComesFirst<T>(s: seq<T>, before: (T, T) -> bool)
    requires TotalPreorderOn(s, before)
    requires |s| > 0
    ensures SortBy(s, before)[0] in s
    ensures forall y :: y in s ==> before(SortBy(s, before)[0], y)
  {
    var r := SortBy(s, before);
    SortBySorted(s, before);
    InElements(r[0], s, r);
    forall y | y in s ensures before(r[0], y) {
      InElements(y, s, r);
    }
  }

  /** A permutation of a list without repeats has no repeats. */
  lemma DistinctPermutation<T>(s: seq<T>, r: seq<T>, i: nat, j: nat)
    requires forall a, b :: 0 <= a < b < |s| ==> s[a] != s[b]
    requires multiset(r) == multiset(s)
    requires i < j < |r|
    ensures r[i] != r[j]
  {
    if r[i] == r[j] {
      var x := r[i];
      assert multiset(r)[x] >= 2 by {
        assert r == r[..i] + [x] + r[i + 1..j] + [x] + r[j + 1..];
      }
      SingleOccurrence(s, x);
      assert false;
    }
  }

  lemma {:induction false} SingleOccurrence<T>(s: seq<T>, x: T)
    requires forall a, b :: 0 <= a < b < |s| ==> s[a] != s[b]
    ensures multiset(s)[x] <= 1
  {
    if |s| > 0 {
      assert s == [s[0]] + s[1..];
      SingleOccurrence(s[1..], x);
      if s[0] == x {
        assert x !in s[1..];
      }
    }
  }
}
