/** Sums and Python's `round` of a mean (`round(sum(xs) / len(xs))`), which rounds to
    the nearest integer and breaks ties towards the even neighbour. */
module Numbers {

  function Sum(xs: seq<int>): int
    decreases |xs|
  {
    if |xs| == 0 then 0 else Sum(xs[..|xs| - 1]) + xs[|xs| - 1]
  }

  lemma SumAppend(xs: seq<int>, x: int)
    ensures Sum(xs + [x]) == Sum(xs) + x
  {
    assert (xs + [x])[..|xs|] == xs;
  }

  /** Python's `round(num / den)` for a positive `den`. */
  function RoundHalfEven(num: int, den: int): int
    requires den > 0
  {
    var q, rem := num / den, num % den;
    if 2 * rem < den then q
    else if 2 * rem > den then q + 1
    else if q % 2 == 0 then q
    else q + 1
  }

  /** The rounded quotient is an integer nearest to `num / den`, and the even one on a tie. */
  lemma RoundHalfEvenNearest(num: int, den: int)
    requires den > 0
    ensures var r := RoundHalfEven(num, den);
      && -den <= 2 * (num - r * den) <= den
      && (2 * (num - r * den) == den || 2 * (num - r * den) == -den ==> r % 2 == 0)
  {
    var q := num / den;
    assert num == q * den + num % den;
    assert (q + 1) * den == q * den + den;
  }

  /** `round(sum(xs) / len(xs))` */
  function RoundedMean(xs: seq<int>): int
    requires |xs| > 0
  {
    RoundHalfEven(Sum(xs), |xs|)
  }

  lemma {:induction false} SumBounds(xs: seq<int>, lo: int, hi: int)
    requires forall i :: 0 <= i < |xs| ==> lo <= xs[i] <= hi
    ensures lo * |xs| <= Sum(xs) <= hi * |xs|
    decreases |xs|
  {
    if |xs| > 0 {
      var init := xs[..|xs| - 1];
      SumBounds(init, lo, hi);
      assert lo * |xs| == lo * |init| + lo;
      assert hi * |xs| == hi * |init| + hi;
    }
  }

  /** The rounded mean lies within any bounds of the values averaged, so between the
      smallest and the largest of them. */
  lemma MeanBetween(xs: seq<int>, lo: int, hi: int)
    requires |xs| > 0
    requires forall i :: 0 <= i < |xs| ==> lo <= xs[i] <= hi
    ensures lo <= RoundedMean(xs) <= hi
  {
    var n, s, r := |xs|, Sum(xs), RoundedMean(xs);
    SumBounds(xs, lo, hi);
    RoundHalfEvenNearest(s, n);
    assert -n <= 2 * (s - r * n) <= n;
    assert (lo - 1) * n == lo * n - n;
    assert (hi + 1) * n == hi * n + n;
    if r < lo {
      MulMonotone(r, lo - 1, n);
      assert false;
    }
    if r > hi {
      MulMonotone(hi + 1, r, n);
      assert false;
    }
  }

  lemma MulMonotone(a: int, b: int, n: nat)
    requires a <= b
    ensures a * n <= b * n
  {
    assert b * n - a * n == (b - a) * n;
  }
}
