/** Left-to-right JavaScript addition over a list: `xs.reduce((t, x) => t + f(x), 0)`
    written as a sum of the prefix plus the last term. Every volume and total
    weight in the application is such a sum. */
module Sums {
  import opened JsNumber

  function Sum<T>(xs: seq<T>, f: T -> Num): Num {
    if |xs| == 0 then Finite(0.0) else Add(Sum(xs[..|xs| - 1], f), f(xs[|xs| - 1]))
  }

  lemma AddAssoc(x: Num, y: Num, z: Num)
    ensures Add(Add(x, y), z) == Add(x, Add(y, z))
  {
  }

  lemma AddZero(x: Num)
    ensures Add(Finite(0.0), x) == x
  {
  }

  lemma SumAppend<T>(xs: seq<T>, x: T, f: T -> Num)
    ensures Sum(xs + [x], f) == Add(Sum(xs, f), f(x))
  {
    assert (xs + [x])[..|xs|] == xs;
  }

  lemma SumSingle<T>(x: T, f: T -> Num)
    ensures Sum([x], f) == f(x)
  {
    assert [x][..0] == [];
  }

  /** The sum of a concatenation is the sum of the two sums. */
  lemma {:induction false} SumConcat<T>(a: seq<T>, b: seq<T>, f: T -> Num)
    ensures Sum(a + b, f) == Add(Sum(a, f), Sum(b, f))
    decreases |b|
  {
    if |b| > 0 {
      var init := b[..|b| - 1];
      var last := b[|b| - 1];
      SumConcat(a, init, f);
      assert a + b == (a + init) + [last];
      assert b == init + [last];
      SumAppend(a + init, last, f);
      SumAppend(init, last, f);
      AddAssoc(Sum(a, f), Sum(init, f), f(last));
    } else {
      assert a + b == a;
    }
  }

  /** The reduce's accumulator after a prefix is the prefix's sum. */
  function FoldFrom<T>(total: Num, xs: seq<T>, f: T -> Num): Num
    decreases |xs|
  {
    if |xs| == 0 then total else FoldFrom(Add(total, f(xs[0])), xs[1..], f)
  }

  lemma {:induction false} FoldFromIsSum<T>(done: seq<T>, xs: seq<T>, f: T -> Num)
    ensures FoldFrom(Sum(done, f), xs, f) == Sum(done + xs, f)
    decreases |xs|
  {
    if |xs| > 0 {
      var next := done + [xs[0]];
      SumAppend(done, xs[0], f);
      assert next + xs[1..] == done + xs;
      FoldFromIsSum(next, xs[1..], f);
    } else {
      assert done + xs == done;
    }
  }

  /** A left-to-right reduce from 0 computes the sum. */
  lemma FoldIsSum<T>(xs: seq<T>, f: T -> Num)
    ensures FoldFrom(Finite(0.0), xs, f) == Sum(xs, f)
  {
    FoldFromIsSum([], xs, f);
    assert [] + xs == xs;
  }

  /** Terms that agree give equal sums. */
  lemma {:induction false} SumCongruent<T, U>(xs: seq<T>, f: T -> Num, ys: seq<U>, g: U -> Num)
    requires |xs| == |ys|
    requires forall i :: 0 <= i < |xs| ==> f(xs[i]) == g(ys[i])
    ensures Sum(xs, f) == Sum(ys, g)
  {
    if |xs| > 0 {
      SumCongruent(xs[..|xs| - 1], f, ys[..|ys| - 1], g);
    }
  }

  /** `total = (total || 0) + f(x)` over a list, from an absent total
      (`undefined || 0` is 0): a running total that is 0 or NaN restarts
      from 0 at the next term. */
  function Chain<T>(xs: seq<T>, f: T -> Num): Num {
    if |xs| == 0 then Finite(0.0) else Add(OrZero(Chain(xs[..|xs| - 1], f)), f(xs[|xs| - 1]))
  }

  /** With finite terms the running total is the plain sum. */
  lemma {:induction false} ChainIsSum<T>(xs: seq<T>, f: T -> Num)
    requires forall i :: 0 <= i < |xs| ==> f(xs[i]).Finite?
    ensures Sum(xs, f).Finite?
    ensures Chain(xs, f) == Sum(xs, f)
  {
    if |xs| > 0 {
      ChainIsSum(xs[..|xs| - 1], f);
    }
  }

  /** A NaN term is forgotten once another term follows it: the running
      total then depends only on the terms after it. */
  lemma {:induction false} ChainReset<T>(a: seq<T>, x: T, b: seq<T>, f: T -> Num)
    requires f(x).NaN? && |b| > 0
    ensures Chain(a + [x] + b, f) == Chain(b, f)
    decreases |b|
  {
    var init := b[..|b| - 1];
    var last := b[|b| - 1];
    assert (a + [x] + b)[..|a + [x] + b| - 1] == a + [x] + init;
    if |init| == 0 {
      assert (a + [x])[..|a|] == a;
      assert init + [last] == b;
    } else {
      ChainReset(a, x, init, f);
    }
  }
}
