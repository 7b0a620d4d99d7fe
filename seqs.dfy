/**
 * The array operations the dashboards derive their views from:
 * `Array.prototype.filter`, `filter(...).length` and a `reduce` that sums a field.
 */
module Seqs {

  /** `a` is `b` with some elements removed, in the order they have in `b`. */
  ghost predicate IsSubsequence<T>(a: seq<T>, b: seq<T>)
    decreases |b|
  {
    a == [] || (b != [] && ((a[0] == b[0] && IsSubsequence(a[1..], b[1..])) || IsSubsequence(a, b[1..])))
  }

  /** `xs.filter(keep)`: the elements of `xs` that satisfy `keep`, in order. */
  function Filter<T>(xs: seq<T>, keep: T -> bool): (r: seq<T>)
    ensures |r| <= |xs|
    ensures forall i | 0 <= i < |r| :: r[i] in xs && keep(r[i])
    ensures forall i | 0 <= i < |xs| && keep(xs[i]) :: xs[i] in r
    ensures IsSubsequence(r, xs)
  {
    if xs == [] then []
    else
      var rest := Filter(xs[1..], keep);
      assert xs == [xs[0]] + xs[1..];
      if keep(xs[0]) then
        assert ([xs[0]] + rest)[1..] == rest;
        [xs[0]] + rest
      else
        rest
  }

  /** Filtering distributes over concatenation: with `Filter([x])` this pins `Filter` down. */
  lemma {:induction false} FilterAppend<T>(xs: seq<T>, ys: seq<T>, keep: T -> bool)
    ensures Filter(xs + ys, keep) == Filter(xs, keep) + Filter(ys, keep)
  {
    if xs == [] {
      assert xs + ys == ys;
    } else {
      assert (xs + ys)[1..] == xs[1..] + ys;
      FilterAppend(xs[1..], ys, keep);
    }
  }

  /** An element survives the filter exactly when it is in the list and satisfies `keep`. */
  lemma FilterMembership<T>(xs: seq<T>, keep: T -> bool, x: T)
    ensures x in Filter(xs, keep) <==> x in xs && keep(x)
  {
    var r := Filter(xs, keep);
    if x in r {
      var i :| 0 <= i < |r| && r[i] == x;
    }
    if x in xs && keep(x) {
      var i :| 0 <= i < |xs| && xs[i] == x;
    }
  }

  /** A filter that keeps everything is the identity. */
  lemma {:induction false} FilterKeepsAll<T>(xs: seq<T>, keep: T -> bool)
    requires forall i | 0 <= i < |xs| :: keep(xs[i])
    ensures Filter(xs, keep) == xs
  {
    if xs != [] {
      FilterKeepsAll(xs[1..], keep);
    }
  }

  /** `xs.filter(keep).length`. */
  function Count<T>(xs: seq<T>, keep: T -> bool): (n: nat)
    ensures n <= |xs|
  {
    |Filter(xs, keep)|
  }

  /** Counting distributes over concatenation. */
  lemma CountAppend<T>(xs: seq<T>, ys: seq<T>, keep: T -> bool)
    ensures Count(xs + ys, keep) == Count(xs, keep) + Count(ys, keep)
  {
    FilterAppend(xs, ys, keep);
  }

  /** The count of a list that starts with `x`: one more than the rest's when `x` is kept. */
  lemma CountCons<T>(xs: seq<T>, keep: T -> bool)
    requires xs != []
    ensures Count(xs, keep) == (if keep(xs[0]) then 1 else 0) + Count(xs[1..], keep)
  {
  }

  /** `xs.reduce((acc, x) => acc + field(x), 0)`. */
  function Sum<T>(xs: seq<T>, field: T -> int): (r: int)
    ensures xs == [] ==> r == 0
    ensures |xs| == 1 ==> r == field(xs[0])
  {
    if xs == [] then 0 else field(xs[0]) + Sum(xs[1..], field)
  }

  /** Summing distributes over concatenation. */
  lemma {:induction false} SumAppend<T>(xs: seq<T>, ys: seq<T>, field: T -> int)
    ensures Sum(xs + ys, field) == Sum(xs, field) + Sum(ys, field)
  {
    if xs == [] {
      assert xs + ys == ys;
    } else {
      assert (xs + ys)[1..] == xs[1..] + ys;
      SumAppend(xs[1..], ys, field);
    }
  }

  /** When every summand lies in `[lo, hi]`, the sum lies in `[lo * |xs|, hi * |xs|]`. */
  lemma {:induction false} SumBounds<T>(xs: seq<T>, field: T -> int, lo: int, hi: int)
    requires forall i | 0 <= i < |xs| :: lo <= field(xs[i]) <= hi
    ensures lo * |xs| <= Sum(xs, field) <= hi * |xs|
  {
    if xs != [] {
      var t := xs[1..];
      assert forall i | 0 <= i < |t| :: t[i] == xs[i + 1];
      SumBounds(t, field, lo, hi);
      assert |xs| == |t| + 1;
      assert lo * |xs| == lo + lo * |t|;
      assert hi * |xs| == hi + hi * |t|;
    }
  }

  /** A sum of non-negative summands is non-negative. */
  lemma {:induction false} SumNonNegative<T>(xs: seq<T>, field: T -> int)
    requires forall i | 0 <= i < |xs| :: 0 <= field(xs[i])
    ensures 0 <= Sum(xs, field)
  {
    if xs != [] {
      SumNonNegative(xs[1..], field);
    }
  }
}
