/** The array operations the components build their queries from:
    `Array.prototype.filter`, a `reduce` that sums a numeric field, and
    `[...new Set(xs)]`, which keeps the first occurrence of each value in
    insertion order. */
module Seqs {

  /** `xs.filter(p)`: the elements satisfying `p`, in their original order. */
  function Filter<T>(xs: seq<T>, p: T -> bool): (r: seq<T>)
    ensures |r| <= |xs|
    ensures forall i :: 0 <= i < |r| ==> r[i] in xs && p(r[i])
    ensures forall i :: 0 <= i < |xs| && p(xs[i]) ==> xs[i] in r
    ensures (exists i :: 0 <= i < |xs| && !p(xs[i])) ==> |r| < |xs|
    decreases |xs|
  {
    if |xs| == 0 then []
    else (if p(xs[0]) then [xs[0]] else []) + Filter(xs[1..], p)
  }

  /** `a` is obtained from `b` by deleting elements, without reordering. */
  ghost predicate IsSubsequence<T>(a: seq<T>, b: seq<T>)
    decreases |b|
  {
    |a| == 0 ||
    (|b| > 0 && ((a[0] == b[0] && IsSubsequence(a[1..], b[1..])) || IsSubsequence(a, b[1..])))
  }

  /** A filter result is an order-preserving subsequence of its input. */
  lemma {:induction false} FilterIsSubsequence<T>(xs: seq<T>, p: T -> bool)
    ensures IsSubsequence(Filter(xs, p), xs)
    decreases |xs|
  {
    if |xs| > 0 {
      FilterIsSubsequence(xs[1..], p);
      var r := Filter(xs, p);
      if p(xs[0]) {
        assert r[0] == xs[0] && r[1..] == Filter(xs[1..], p);
      } else {
        assert r == Filter(xs[1..], p);
      }
    }
  }

  /** The filter keeps every copy of a passing value and no copy of a
      failing one: it changes multiplicities only by dropping whole values. */
  lemma {:induction false} FilterCounts<T(!new)>(xs: seq<T>, p: T -> bool)
    ensures forall x :: multiset(Filter(xs, p))[x] == if p(x) then multiset(xs)[x] else 0
    decreases |xs|
  {
    if |xs| > 0 {
      FilterCounts(xs[1..], p);
      assert xs == [xs[0]] + xs[1..];
      assert multiset(xs) == multiset([xs[0]]) + multiset(xs[1..]);
      var head := if p(xs[0]) then [xs[0]] else [];
      assert Filter(xs, p) == head + Filter(xs[1..], p);
      assert multiset(Filter(xs, p)) == multiset(head) + multiset(Filter(xs[1..], p));
    }
  }

  /** The filter's length is the number of positions whose element passes,
      counted independently as a set of indices. */
  lemma {:induction false} FilterLength<T>(xs: seq<T>, p: T -> bool)
    ensures |Filter(xs, p)| == |Passing(xs, p)|
    decreases |xs|
  {
    if |xs| == 0 {
      assert Passing(xs, p) == {};
    } else {
      var init := xs[..|xs| - 1];
      var x := xs[|xs| - 1];
      assert xs == init + [x];
      FilterLength(init, p);
      FilterAppend(init, x, p);
      PassingSnoc(init, x, p);
    }
  }

  /** The positions of `xs` whose element passes `p`. */
  ghost function Passing<T>(xs: seq<T>, p: T -> bool): set<int> {
    set i | 0 <= i < |xs| && p(xs[i])
  }

  /** One more element at the end adds its position exactly when it passes. */
  lemma PassingSnoc<T>(xs: seq<T>, x: T, p: T -> bool)
    ensures Passing(xs + [x], p) == Passing(xs, p) + (if p(x) then {|xs|} else {})
    ensures |xs| !in Passing(xs, p)
  {
    var ys := xs + [x];
    forall i | 0 <= i < |xs|
      ensures ys[i] == xs[i]
    {
    }
    assert ys[|xs|] == x;
  }

  /** When every element passes, the filter keeps the whole sequence. */
  lemma {:induction false} FilterKeepsAll<T>(xs: seq<T>, p: T -> bool)
    requires forall i :: 0 <= i < |xs| ==> p(xs[i])
    ensures Filter(xs, p) == xs
    decreases |xs|
  {
    if |xs| > 0 {
      FilterKeepsAll(xs[1..], p);
      assert [xs[0]] + xs[1..] == xs;
    }
  }

  /** Filtering distributes over concatenation. */
  lemma {:induction false} FilterConcat<T>(xs: seq<T>, ys: seq<T>, p: T -> bool)
    ensures Filter(xs + ys, p) == Filter(xs, p) + Filter(ys, p)
    decreases |xs|
  {
    if |xs| == 0 {
      assert xs + ys == ys;
    } else {
      var head := if p(xs[0]) then [xs[0]] else [];
      assert (xs + ys)[0] == xs[0];
      assert (xs + ys)[1..] == xs[1..] + ys;
      assert Filter(xs + ys, p) == head + Filter(xs[1..] + ys, p);
      FilterConcat(xs[1..], ys, p);
      assert Filter(xs, p) == head + Filter(xs[1..], p);
    }
  }

  /** Filtering a list with one more element at the end: the old result,
      followed by the new element exactly when it passes. */
  lemma FilterAppend<T>(xs: seq<T>, x: T, p: T -> bool)
    ensures Filter(xs + [x], p) == Filter(xs, p) + (if p(x) then [x] else [])
  {
    FilterConcat(xs, [x], p);
  }

  /** A copy of the list with one more element at its end: the earlier
      elements keep their positions. */
  function Append<T>(xs: seq<T>, x: T): (r: seq<T>)
    ensures |r| == |xs| + 1 && r[|xs|] == x
    ensures forall i :: 0 <= i < |xs| ==> r[i] == xs[i]
    ensures multiset(r) == multiset(xs) + multiset{x}
  {
    xs + [x]
  }

  /** The sum of `f` over the elements, as `xs.reduce((s, x) => s + f(x), 0)`. */
  function Sum<T>(xs: seq<T>, f: T -> nat): nat
    decreases |xs|
  {
    if |xs| == 0 then 0 else f(xs[0]) + Sum(xs[1..], f)
  }

  /** Summing distributes over concatenation. */
  lemma {:induction false} SumConcat<T>(xs: seq<T>, ys: seq<T>, f: T -> nat)
    ensures Sum(xs + ys, f) == Sum(xs, f) + Sum(ys, f)
    decreases |xs|
  {
    if |xs| == 0 {
      assert xs + ys == ys;
    } else {
      SumConcat(xs[1..], ys, f);
      assert (xs + ys)[1..] == xs[1..] + ys;
    }
  }

  /** Replacing one element changes the sum by exactly the difference. */
  lemma {:induction false} SumUpdate<T>(xs: seq<T>, j: int, x: T, f: T -> nat)
    requires 0 <= j < |xs|
    ensures Sum(xs[j := x], f) == Sum(xs, f) - f(xs[j]) + f(x)
    decreases |xs|
  {
    if j > 0 {
      SumUpdate(xs[1..], j - 1, x, f);
      assert xs[j := x][1..] == xs[1..][j - 1 := x];
    } else {
      assert xs[j := x][1..] == xs[1..];
    }
  }

  /** Pointwise `f <= g` gives `Sum f <= Sum g`, with equality exactly when
      `f` and `g` agree everywhere. */
  lemma {:induction false} SumCompare<T>(xs: seq<T>, f: T -> nat, g: T -> nat)
    requires forall i :: 0 <= i < |xs| ==> f(xs[i]) <= g(xs[i])
    ensures Sum(xs, f) <= Sum(xs, g)
    ensures Sum(xs, f) == Sum(xs, g) <==> forall i :: 0 <= i < |xs| ==> f(xs[i]) == g(xs[i])
    decreases |xs|
  {
    if |xs| > 0 {
      assert forall i :: 0 <= i < |xs| - 1 ==> xs[1..][i] == xs[i + 1];
      SumCompare(xs[1..], f, g);
      if forall i :: 0 <= i < |xs| ==> f(xs[i]) == g(xs[i]) {
        assert forall i :: 0 <= i < |xs| - 1 ==> f(xs[1..][i]) == g(xs[1..][i]);
      }
    }
  }

  /** No value occurs twice. */
  predicate NoDuplicates<T(==)>(xs: seq<T>) {
    forall i, j :: 0 <= i < j < |xs| ==> xs[i] != xs[j]
  }

  /** `[...new Set(xs)]`: each value once, at the position of its first
      occurrence. A `Set` iterates in insertion order and a repeated insert
      does not move a value, so appending `x` to `xs` appends `x` to the
      result exactly when `x` is new. */
  function Distinct<T(==)>(xs: seq<T>): seq<T>
    decreases |xs|
  {
    if |xs| == 0 then []
    else
      var init := xs[..|xs| - 1];
      var x := xs[|xs| - 1];
      Distinct(init) + (if x in init then [] else [x])
  }

  /** The index of the first occurrence of `x` in `xs`. */
  function FirstIndex<T(==)>(xs: seq<T>, x: T): (k: nat)
    requires x in xs
    ensures k < |xs| && xs[k] == x
    ensures forall i :: 0 <= i < k ==> xs[i] != x
    decreases |xs|
  {
    var init := xs[..|xs| - 1];
    if x in init then FirstIndex(init, x) else |xs| - 1
  }

  /** The three promises of `[...new Set(xs)]`: it holds the values of `xs`
      and nothing else, holds each of them once, and lists them in the order
      of their first occurrence in `xs`. */
  lemma {:induction false} DistinctSpec<T>(xs: seq<T>)
    ensures forall x :: x in Distinct(xs) <==> x in xs
    ensures NoDuplicates(Distinct(xs))
    ensures forall i, j :: 0 <= i < j < |Distinct(xs)| ==>
      FirstIndex(xs, Distinct(xs)[i]) < FirstIndex(xs, Distinct(xs)[j])
    decreases |xs|
  {
    if |xs| > 0 {
      var init := xs[..|xs| - 1];
      var x := xs[|xs| - 1];
      DistinctSpec(init);
      assert xs == init + [x];
      var d := Distinct(init);
      forall y | y in init
        ensures FirstIndex(xs, y) == FirstIndex(init, y)
      {
      }
      if x !in init {
        assert FirstIndex(xs, x) == |xs| - 1;
        forall i | 0 <= i < |d|
          ensures FirstIndex(xs, d[i]) < FirstIndex(xs, x)
        {
          assert d[i] in d;
        }
      }
    }
  }

  /** Appending a value to the input appends it to `Distinct` when it is new
      and leaves the result unchanged when it is already present. */
  lemma DistinctAppend<T>(xs: seq<T>, x: T)
    ensures Distinct(xs + [x]) == Distinct(xs) + (if x in xs then [] else [x])
  {
    assert (xs + [x])[..|xs + [x]| - 1] == xs;
  }
}
