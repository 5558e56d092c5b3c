/**
 * The rating a product page writes back: the mean of the first ten of the
 * product's reviews, rounded to one decimal place. Ratings are counted in
 * tenths of a star, so the written value is the integer nearest to
 * 10 * sum / n, ties going to the even neighbour as Python's `round` does.
 * With n at most 10 such a tie is an exact binary fraction, so a float mean and
 * an exact one round alike.
 */
module Rating {
  import opened Common

  /** The product page looks at no more than this many reviews. */
  const ReviewWindow: nat := 10

  function Sum(s: seq<int>): int
  {
    if s == [] then 0 else s[0] + Sum(s[1..])
  }

  /** `x / n` rounded to the nearest integer, halves to the even one. */
  function RoundHalfEven(x: int, n: int): (r: int)
    requires n > 0
    ensures 2 * (r * n - x) <= n && 2 * (x - r * n) <= n
    ensures (2 * (r * n - x) == n || 2 * (x - r * n) == n) ==> r % 2 == 0
  {
    var q, rem := x / n, x % n;
    assert x == q * n + rem;
    assert (q + 1) * n == q * n + n;
    if 2 * rem < n then q
    else if 2 * rem > n then q + 1
    else if q % 2 == 0 then q
    else q + 1
  }

  /**
   * The new rating in tenths, or None when the view writes nothing: no
   * reviews, or a mean of zero (the view tests the mean for truth).
   */
  function NewRating(ratings: seq<int>): (r: Option<int>)
    ensures |ratings| == 0 ==> r.None?
    ensures r.Some? ==> 0 < |Take(ratings, ReviewWindow)| <= ReviewWindow
  {
    var shown := Take(ratings, ReviewWindow);
    if |shown| == 0 || Sum(shown) == 0 then None
    else Some(RoundHalfEven(10 * Sum(shown), |shown|))
  }

  /** Multiplying by a positive number keeps the sign. */
  lemma MulSign(a: int, n: int)
    requires n > 0
    ensures a > 0 <==> a * n > 0
    ensures a < 0 <==> a * n < 0
  {
  }

  /** A sum of `|s|` values, each within [lo, hi], lies within [lo * |s|, hi * |s|]. */
  lemma {:induction false} SumBounds(s: seq<int>, lo: int, hi: int)
    requires forall i :: 0 <= i < |s| ==> lo <= s[i] <= hi
    ensures lo * |s| <= Sum(s) <= hi * |s|
  {
    if s != [] {
      SumBounds(s[1..], lo, hi);
      assert lo * |s| == lo * |s[1..]| + lo;
      assert hi * |s| == hi * |s[1..]| + hi;
    }
  }

  /** Multiplication by `n` distributes over the difference of two roundings of `x / n`. */
  lemma MulDifference(r: int, s: int, n: int, x: int)
    ensures (r - s) * n == (r * n - x) - (s * n - x)
  {
  }

  /** A multiple of a positive `n` within `[-n, n]` is `-n`, `0` or `n`. */
  lemma SmallMultiple(k: int, n: int)
    requires n > 0 && -n <= k * n <= n
    ensures -1 <= k <= 1
    ensures k == 1 ==> k * n == n
    ensures k == -1 ==> k * n == -n
  {
    MulSign(k - 1, n);
    MulSign(k + 1, n);
    assert (k - 1) * n == k * n - n;
    assert (k + 1) * n == k * n + n;
  }

  /** There is only one integer that is a round-half-even of `x / n`. */
  lemma RoundHalfEvenUnique(x: int, n: int, r: int)
    requires n > 0
    requires 2 * (r * n - x) <= n && 2 * (x - r * n) <= n
    requires (2 * (r * n - x) == n || 2 * (x - r * n) == n) ==> r % 2 == 0
    ensures r == RoundHalfEven(x, n)
  {
    var s := RoundHalfEven(x, n);
    MulDifference(r, s, n, x);
    SmallMultiple(r - s, n);
    // Roundings one apart are both at a tie, so both would be even.
    assert (s + 1) % 2 != s % 2 && (s - 1) % 2 != s % 2;
  }

  /** An integer within half of `t / n` lies between `lo` and `hi` when `t / n` does. */
  lemma RoundedStaysWithin(t: int, n: int, r: int, lo: int, hi: int)
    requires n > 0
    requires 2 * (r * n - t) <= n && 2 * (t - r * n) <= n
    requires lo * n <= t <= hi * n
    ensures lo <= r <= hi
  {
    var a, b := r - lo + 1, hi + 1 - r;
    assert a * n == r * n - lo * n + n;
    assert b * n == hi * n + n - r * n;
    MulSign(a, n);
    MulSign(b, n);
  }

  /**
   * A written rating is the mean of the shown reviews rounded to a tenth, so
   * it lies between ten times their smallest and ten times their largest
   * rating.
   */
  lemma NewRatingBounds(ratings: seq<int>, lo: int, hi: int)
    requires NewRating(ratings).Some?
    requires forall i :: 0 <= i < |ratings| && i < ReviewWindow ==> lo <= ratings[i] <= hi
    ensures var shown := Take(ratings, ReviewWindow);
      2 * (NewRating(ratings).value * |shown| - 10 * Sum(shown)) <= |shown| &&
      2 * (10 * Sum(shown) - NewRating(ratings).value * |shown|) <= |shown|
    ensures 10 * lo <= NewRating(ratings).value <= 10 * hi
  {
    var shown := Take(ratings, ReviewWindow);
    var n, t := |shown|, 10 * Sum(shown);
    var r := RoundHalfEven(t, n);
    assert NewRating(ratings) == Some(r);
    SumBounds(shown, lo, hi);
    ScaleByTen(lo, n);
    ScaleByTen(hi, n);
    RoundedStaysWithin(t, n, r, 10 * lo, 10 * hi);
  }

  lemma ScaleByTen(a: int, n: int)
    ensures (10 * a) * n == 10 * (a * n)
  {
  }

  /** With at least one review and every rating in 1..5, a rating in 1.0..5.0 is always written. */
  lemma ValidReviewsWriteRating(ratings: seq<int>)
    requires |ratings| > 0
    requires forall i :: 0 <= i < |ratings| ==> 1 <= ratings[i] <= 5
    ensures NewRating(ratings).Some?
    ensures 10 <= NewRating(ratings).value <= 50
  {
    var shown := Take(ratings, ReviewWindow);
    SumBounds(shown, 1, 5);
    NewRatingBounds(ratings, 1, 5);
  }

  /** Reviews after the tenth never change the rating written. */
  lemma NewRatingIgnoresLaterReviews(ratings: seq<int>, later: seq<int>)
    requires |ratings| >= ReviewWindow
    ensures NewRating(ratings + later) == NewRating(ratings)
  {
    assert Take(ratings + later, ReviewWindow) == Take(ratings, ReviewWindow);
  }

  /** Halves of a tenth go to the even tenth: 1.25 reads 1.2, 1.75 reads 1.8; the eleventh review is ignored. */
  lemma NewRatingExamples()
    ensures NewRating([1, 1, 1, 2]) == Some(12)
    ensures NewRating([1, 2, 2, 2]) == Some(18)
    ensures NewRating([4, 5]) == Some(45)
    ensures NewRating([]) == None
    ensures NewRating([5, 5, 5, 5, 5, 5, 5, 5, 5, 5, 1]) == Some(50)
  {
    assert Sum([1, 1, 1, 2]) == 5;
    assert Sum([1, 2, 2, 2]) == 7;
    assert Sum([4, 5]) == 9;
    var eleven := [5, 5, 5, 5, 5, 5, 5, 5, 5, 5, 1];
    assert Take(eleven, ReviewWindow) == [5, 5, 5, 5, 5, 5, 5, 5, 5, 5];
    assert Sum([5, 5, 5, 5, 5, 5, 5, 5, 5, 5]) == 50;
  }
}
