/**
 * The numbers the dashboards display. JavaScript division by zero yields `NaN`
 * (for 0/0) or `Infinity` (for a positive numerator), and `Math.round`
 * propagates both; every finite value displayed is a rounded integer.
 */
module Numbers {
  import opened Seqs

  datatype JsNumber = Finite(value: int) | NaN | PosInfinity

  /**
   * `Math.round(num / den)` for `den > 0`: the nearest integer to the quotient,
   * halves rounding up (towards positive infinity), as `Math.round` does.
   */
  function RoundDiv(num: int, den: int): (r: int)
    requires den > 0
    ensures 2 * den * r - den <= 2 * num < 2 * den * r + den
  {
    var q := (2 * num + den) / (2 * den);
    assert 2 * den * q <= 2 * num + den < 2 * den * q + 2 * den by {
      var m := (2 * num + den) % (2 * den);
      assert 2 * num + den == 2 * den * q + m && 0 <= m < 2 * den;
    }
    q
  }

  /** A positive factor keeps a strict comparison with itself: `d * x < d` forces `x < 1`. */
  lemma ScaledBelowOne(d: int, x: int)
    requires d > 0 && d * x < d
    ensures x < 1
  {
  }

  /** `RoundDiv` is the only integer within one half of the quotient (ties up). */
  lemma RoundDivUnique(num: int, den: int, k: int)
    requires den > 0
    requires 2 * den * k - den <= 2 * num < 2 * den * k + den
    ensures k == RoundDiv(num, den)
  {
    var r := RoundDiv(num, den);
    assert 2 * den * (r - k) == 2 * den * r - 2 * den * k;
    assert 2 * den * (k - r) == 2 * den * k - 2 * den * r;
    ScaledBelowOne(2 * den, r - k);
    ScaledBelowOne(2 * den, k - r);
  }

  /** A quotient whose numerator is in `[lo * den, hi * den]` rounds into `[lo, hi]`. */
  lemma RoundDivBounds(num: int, den: int, lo: int, hi: int)
    requires den > 0 && lo * den <= num <= hi * den
    ensures lo <= RoundDiv(num, den) <= hi
  {
    var r := RoundDiv(num, den);
    // 2 den r - den <= 2 num <= 2 den hi, so 2 den (r - hi) <= den < 2 den
    assert 2 * den * (r - hi) == 2 * den * r - 2 * (hi * den);
    ScaledBelowOne(2 * den, r - hi);
    // 2 den lo <= 2 num < 2 den r + den, so 2 den (lo - r) < den < 2 den
    assert 2 * den * (lo - r) == 2 * (lo * den) - 2 * den * r;
    ScaledBelowOne(2 * den, lo - r);
  }

  /** A larger numerator never rounds lower. */
  lemma RoundDivMonotone(a: int, b: int, den: int)
    requires den > 0 && a <= b
    ensures RoundDiv(a, den) <= RoundDiv(b, den)
  {
    var ra, rb := RoundDiv(a, den), RoundDiv(b, den);
    // 2 den ra - den <= 2 a <= 2 b < 2 den rb + den
    assert 2 * den * (ra - rb) == 2 * den * ra - 2 * den * rb;
    ScaledBelowOne(2 * den, ra - rb);
  }

  /**
   * `Math.round(xs.reduce((acc, x) => acc + field(x), 0) / xs.length)`:
   * `NaN` for an empty list (0 / 0), otherwise the rounded mean.
   */
  function RoundedMean<T>(xs: seq<T>, field: T -> int): (r: JsNumber)
    ensures r == NaN <==> xs == []
    ensures r != PosInfinity
    ensures r.Finite? ==> 2 * |xs| * r.value - |xs| <= 2 * Sum(xs, field) < 2 * |xs| * r.value + |xs|
  {
    if xs == [] then NaN else Finite(RoundDiv(Sum(xs, field), |xs|))
  }

  /** The mean of values that all lie in `[lo, hi]` lies in `[lo, hi]` too. */
  lemma RoundedMeanBounds<T>(xs: seq<T>, field: T -> int, lo: int, hi: int)
    requires xs != []
    requires forall i | 0 <= i < |xs| :: lo <= field(xs[i]) <= hi
    ensures lo <= RoundedMean(xs, field).value <= hi
  {
    SumBounds(xs, field, lo, hi);
    RoundDivBounds(Sum(xs, field), |xs|, lo, hi);
  }

  /** `x || 0` on a number: `NaN` (and 0) become 0, any other finite value is kept. */
  function OrZero(x: JsNumber): (r: int)
    requires x != PosInfinity
    ensures x.Finite? ==> r == x.value
    ensures x == NaN ==> r == 0
  {
    if x.Finite? then x.value else 0
  }
}
