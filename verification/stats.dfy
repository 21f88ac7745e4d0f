/** Order statistics of a numeric column as pandas computes them: the sample
    quantile with linear interpolation between order statistics (definition 7
    of Hyndman and Fan, numpy's default "linear" method) and the median, which
    for an even count is the mean of the two middle values. Missing values are
    skipped by the callers before these functions are reached. */
module Stats {

  /** `s` is in non-decreasing order. */
  predicate Sorted(s: seq<real>) {
    forall i, j :: 0 <= i <= j < |s| ==> s[i] <= s[j]
  }

  /** `s` with `x` inserted before the first element greater than or equal to it. */
  function Insert(x: real, s: seq<real>): (r: seq<real>)
    requires Sorted(s)
    ensures Sorted(r)
    ensures multiset(r) == multiset(s) + multiset{x}
    ensures |r| == |s| + 1
  {
    if s == [] || x <= s[0] then [x] + s
    else
      var rest := Insert(x, s[1..]);
      assert s == [s[0]] + s[1..];
      forall i | 0 <= i < |rest| ensures s[0] <= rest[i] {
        assert rest[i] in multiset(rest);
        assert rest[i] == x || rest[i] in multiset(s[1..]);
      }
      [s[0]] + rest
  }

  /** The values of `s` in non-decreasing order (insertion sort). */
  function SortReals(s: seq<real>): (r: seq<real>)
    ensures Sorted(r)
    ensures multiset(r) == multiset(s)
    ensures |r| == |s|
  {
    if s == [] then []
    else
      assert s == [s[0]] + s[1..];
      Insert(s[0], SortReals(s[1..]))
  }

  /** The point a fraction `t` of the way from `a` to `b`. */
  function Lerp(a: real, b: real, t: real): real {
    a + t * (b - a)
  }

  /** Interpolating between ordered endpoints stays between them and grows with `t`. */
  lemma LerpBetween(a: real, b: real, t: real, t': real)
    requires a <= b && 0.0 <= t <= t' <= 1.0
    ensures a <= Lerp(a, b, t) <= Lerp(a, b, t') <= b
  {
    var d := b - a;
    assert 0.0 <= t * d by { MulNonNegative(t, d); }
    assert t * d <= t' * d by {
      MulNonNegative(t' - t, d);
      assert (t' - t) * d == t' * d - t * d;
    }
    assert t' * d <= d by {
      MulNonNegative(1.0 - t', d);
      assert (1.0 - t') * d == d - t' * d;
    }
    assert Lerp(a, b, t) == a + t * d;
    assert Lerp(a, b, t') == a + t' * d;
  }

  lemma MulNonNegative(a: real, b: real)
    requires 0.0 <= a && 0.0 <= b
    ensures 0.0 <= a * b
  {
  }

  /** The interpolation position `(n - 1) * p` of the `p`-quantile in the
      sorted data, which lies in [0, n - 1]. */
  function Position(n: nat, p: real): (h: real)
    requires 0 < n && 0.0 <= p <= 1.0
    ensures 0.0 <= h <= (n - 1) as real
  {
    MulNonNegative((n - 1) as real, p);
    MulNonNegative((n - 1) as real, 1.0 - p);
    (n - 1) as real * p
  }

  /** The `p`-quantile of the non-empty sample `s`, linearly interpolated
      between the order statistics around position `(n - 1) * p`. It always
      lies between the least and the greatest value of the sample. */
  function Quantile(s: seq<real>, p: real): (q: real)
    requires |s| > 0 && 0.0 <= p <= 1.0
    ensures SortReals(s)[0] <= q <= SortReals(s)[|s| - 1]
  {
    var x := SortReals(s);
    var h := Position(|s|, p);
    var j := h.Floor;
    var t := h - j as real;
    if j + 1 < |x| then
      LerpBetween(x[j], x[j + 1], t, t);
      Lerp(x[j], x[j + 1], t)
    else
      x[j]
  }

  /** The median of the non-empty sample `s`: the middle order statistic for
      an odd count and the mean of the two middle ones for an even count. */
  function Median(s: seq<real>): (m: real)
    requires |s| > 0
    ensures SortReals(s)[0] <= m <= SortReals(s)[|s| - 1]
  {
    var x := SortReals(s);
    var n := |s|;
    if n % 2 == 1 then x[n / 2] else (x[n / 2 - 1] + x[n / 2]) / 2.0
  }

  /** Quantiles are monotone in the probability: a lower `p` never gives a
      larger quantile. In particular the first quartile never exceeds the third. */
  lemma {:induction false} QuantileMonotone(s: seq<real>, p: real, p': real)
    requires |s| > 0 && 0.0 <= p <= p' <= 1.0
    ensures Quantile(s, p) <= Quantile(s, p')
  {
    var x := SortReals(s);
    var n := |s|;
    var h, h' := Position(n, p), Position(n, p');
    assert h <= h' by { MulNonNegative((n - 1) as real, p' - p); }
    var j, j' := h.Floor, h'.Floor;
    var t, t' := h - j as real, h' - j' as real;
    assert j <= j';
    if j == j' {
      if j + 1 < n {
        LerpBetween(x[j], x[j + 1], t, t');
      }
    } else {
      assert j + 1 < n;
      LerpBetween(x[j], x[j + 1], t, 1.0);
      if j' + 1 < n {
        LerpBetween(x[j'], x[j' + 1], 0.0, t');
      }
      assert x[j + 1] <= x[j'];
    }
  }

  /** The median is the 0.5-quantile, which is why pandas' `median()` and
      `quantile(0.5)` agree. */
  lemma MedianIsHalfQuantile(s: seq<real>)
    requires |s| > 0
    ensures Median(s) == Quantile(s, 0.5)
  {
    var n := |s|;
    var h := Position(n, 0.5);
    if n % 2 == 1 {
      assert h == (n / 2) as real;
      assert h.Floor == n / 2;
    } else {
      assert h == (n / 2 - 1) as real + 0.5;
      assert h.Floor == n / 2 - 1;
    }
  }

  /** The quantile hits the order statistics exactly at the probabilities
      `k / (n - 1)`, pandas' default `linear` method (definition 7 of
      Hyndman and Fan): the knots of the interpolation are the sorted values
      themselves. */
  lemma QuantileAtKnot(s: seq<real>, k: nat)
    requires 2 <= |s| && k < |s|
    ensures var p := k as real / (|s| - 1) as real;
      0.0 <= p <= 1.0 && Quantile(s, p) == SortReals(s)[k]
  {
    var m := (|s| - 1) as real;
    var p := k as real / m;
    KnotPosition(k as real, m);
    assert Position(|s|, p) == k as real;
    assert (k as real).Floor == k;
  }

  /** `m * (k / m)` is `k` again, and `k / m` is a probability when `k <= m`. */
  lemma KnotPosition(k: real, m: real)
    requires 0.0 <= k && 0.0 < m
    ensures m * (k / m) == k && 0.0 <= k / m
    ensures k <= m ==> k / m <= 1.0
  {
  }

  /** Sorting an already sorted sample leaves it as it is. */
  lemma {:induction false} SortSortedIsIdentity(s: seq<real>)
    requires Sorted(s)
    ensures SortReals(s) == s
  {
    if s != [] {
      assert Sorted(s[1..]);
      SortSortedIsIdentity(s[1..]);
      assert s == [s[0]] + s[1..];
    }
  }

  /** Between two knots the quantile interpolates linearly: at position
      `(n - 1) p` between `j` and `j + 1` it is the point that fraction of
      the way from the `j`-th to the `(j + 1)`-th order statistic. */
  lemma QuantileInterpolates(s: seq<real>, p: real, j: nat)
    requires |s| > 0 && 0.0 <= p <= 1.0 && j + 1 < |s|
    requires j as real <= Position(|s|, p) < (j + 1) as real
    ensures Quantile(s, p) == Lerp(SortReals(s)[j], SortReals(s)[j + 1], Position(|s|, p) - j as real)
  {
    var h := Position(|s|, p);
    FloorBetween(h, j);
  }

  lemma FloorBetween(h: real, j: int)
    requires j as real <= h < (j + 1) as real
    ensures h.Floor == j
  {
  }

  /** pandas' first quartile of 1, 2, 3, 4 is 1.75: position 0.75, three
      quarters of the way from 1 to 2 (at position `(n + 1) p` it would be 1.25). */
  lemma FirstQuartileExample()
    ensures Quantile([1.0, 2.0, 3.0, 4.0], 0.25) == 1.75
  {
    var s := [1.0, 2.0, 3.0, 4.0];
    var x := SortReals(s);
    assert x[0] == 1.0 && x[1] == 2.0 by {
      SortSortedIsIdentity(s);
    }
    assert Quantile(s, 0.25) == Lerp(x[0], x[1], 0.75) by {
      assert Position(|s|, 0.25) == 0.75;
      QuantileInterpolates(s, 0.25, 0);
    }
  }

  /** Tukey's fences around a sample: the first and third quartiles, and the
      bounds 1.5 interquartile ranges beyond them. */
  datatype Fences = Fences(q1: real, q3: real, lower: real, upper: real)

  /** The 1.5·IQR fences of the non-empty sample `s`. The bounds enclose the
      quartiles and are four interquartile ranges apart. */
  function TukeyFences(s: seq<real>): (f: Fences)
    requires |s| > 0
    ensures f.q1 == Quantile(s, 0.25) && f.q3 == Quantile(s, 0.75)
    ensures f.lower <= f.q1 <= f.q3 <= f.upper
    ensures f.upper - f.lower == 4.0 * (f.q3 - f.q1)
    ensures f.q1 - f.lower == 1.5 * (f.q3 - f.q1) == f.upper - f.q3
  {
    var q1 := Quantile(s, 0.25);
    var q3 := Quantile(s, 0.75);
    QuantileMonotone(s, 0.25, 0.75);
    var iqr := q3 - q1;
    Fences(q1, q3, q1 - 1.5 * iqr, q3 + 1.5 * iqr)
  }
}
