/** Real-valued reductions that numpy and pandas provide to the analysis code:
    sum, mean, population and sample variance, min and max, and squared
    Euclidean distance. Square roots are supplied by the caller as a function
    that satisfies IsSqrt. */
module Stats {
  import opened Errors

  function Abs(x: real): (r: real)
    ensures r >= 0.0 && (r == x || r == -x)
  {
    if x < 0.0 then -x else x
  }

  function Square(x: real): real {
    x * x
  }

  /** A square is never negative and is positive for every non-zero base. */
  lemma SquareSign(d: real)
    ensures Square(d) >= 0.0
    ensures d != 0.0 ==> Square(d) > 0.0
    ensures d == 0.0 ==> Square(d) == 0.0
  {
    if d > 0.0 {
      calc { Square(d); == d * d; > 0.0; }
    } else if d < 0.0 {
      calc { Square(d); == d * d; == (-d) * (-d); > 0.0; }
    } else {
      calc { Square(d); == 0.0 * 0.0; }
    }
  }

  /** A function that maps every non-negative real to its non-negative square root. */
  ghost predicate IsSqrt(sqrt: real -> real) {
    forall x :: 0.0 <= x ==> 0.0 <= sqrt(x) && Square(sqrt(x)) == x
  }

  lemma SqrtZero(sqrt: real -> real, x: real)
    requires IsSqrt(sqrt) && 0.0 <= x
    ensures 0.0 <= sqrt(x)
    ensures x == 0.0 ==> sqrt(x) == 0.0
    ensures x > 0.0 ==> sqrt(x) > 0.0
  {
    SquareSign(sqrt(x));
  }

  /** The square root of x lies below c whenever x lies below c squared. */
  lemma SqrtBelow(sqrt: real -> real, x: real, c: real)
    requires IsSqrt(sqrt) && 0.0 <= x && 0.0 <= c && x < c * c
    ensures sqrt(x) < c
  {
    var a := sqrt(x);
    assert Square(a) == x;
    if a >= c {
      calc { a * a; >= c * a; >= c * c; }
    }
  }

  /** The square root of x lies above c whenever c squared lies below x. */
  lemma SqrtAbove(sqrt: real -> real, x: real, c: real)
    requires IsSqrt(sqrt) && 0.0 <= c && c * c < x
    ensures sqrt(x) > c
  {
    var a := sqrt(x);
    assert Square(a) == x && a >= 0.0;
    if a <= c {
      calc { a * a; <= c * a; <= c * c; }
    }
  }

  function Sum(s: seq<real>): real {
    if s == [] then 0.0 else s[0] + Sum(s[1..])
  }

  function Mean(s: seq<real>): real
    requires |s| > 0
  {
    Sum(s) / (|s| as real)
  }

  /** The squared deviations (s[i] - m)^2 of s around m. */
  function SquaredDeviations(s: seq<real>, m: real): (r: seq<real>)
    ensures |r| == |s|
    ensures forall i :: 0 <= i < |s| ==> r[i] == Square(s[i] - m)
  {
    seq(|s|, i requires 0 <= i < |s| => Square(s[i] - m))
  }

  /** np.var(s): the population variance, divisor n. */
  function PopVariance(s: seq<real>): real
    requires |s| > 0
  {
    Sum(SquaredDeviations(s, Mean(s))) / (|s| as real)
  }

  /** pandas Series.var(): the sample variance, divisor n - 1. */
  function SampleVariance(s: seq<real>): real
    requires |s| >= 2
  {
    Sum(SquaredDeviations(s, Mean(s))) / ((|s| - 1) as real)
  }

  /** Summation is linear: if z[i] == a*x[i] + b*y[i] + c at every index, then
      the sums are related the same way. */
  lemma {:induction false} SumCombine(x: seq<real>, y: seq<real>, z: seq<real>, a: real, b: real, c: real)
    requires |x| == |y| == |z|
    requires forall i :: 0 <= i < |z| ==> z[i] == a * x[i] + b * y[i] + c
    ensures Sum(z) == a * Sum(x) + b * Sum(y) + (|x| as real) * c
  {
    if z != [] {
      SumCombine(x[1..], y[1..], z[1..], a, b, c);
      assert (|x| as real) * c == c + ((|x| - 1) as real) * c;
    }
  }

  lemma SumAffine(x: seq<real>, z: seq<real>, a: real, c: real)
    requires |x| == |z|
    requires forall i :: 0 <= i < |z| ==> z[i] == a * x[i] + c
    ensures Sum(z) == a * Sum(x) + (|x| as real) * c
  {
    SumCombine(x, x, z, a, 0.0, c);
  }

  lemma {:induction false} SumScale(x: seq<real>, z: seq<real>, a: real)
    requires |x| == |z|
    requires forall i :: 0 <= i < |z| ==> z[i] == a * x[i]
    ensures Sum(z) == a * Sum(x)
  {
    if z != [] {
      SumScale(x[1..], z[1..], a);
    }
  }

  lemma {:induction false} SumNonNegative(s: seq<real>)
    requires forall i :: 0 <= i < |s| ==> s[i] >= 0.0
    ensures Sum(s) >= 0.0
  {
    if s != [] {
      SumNonNegative(s[1..]);
    }
  }

  /** A sum of non-negative terms is zero only when every term is zero. */
  lemma {:induction false} SumZero(s: seq<real>)
    requires forall i :: 0 <= i < |s| ==> s[i] >= 0.0
    ensures Sum(s) == 0.0 <==> forall i :: 0 <= i < |s| ==> s[i] == 0.0
  {
    if s != [] {
      SumZero(s[1..]);
      SumNonNegative(s[1..]);
      if Sum(s) == 0.0 {
        forall i | 0 <= i < |s| ensures s[i] == 0.0 {
          if i > 0 { assert s[i] == s[1..][i - 1]; }
        }
      }
    }
  }

  /** Deviations from the mean cancel out. */
  lemma DeviationsSumToZero(s: seq<real>, d: seq<real>)
    requires |s| > 0 && |d| == |s|
    requires forall i :: 0 <= i < |s| ==> d[i] == s[i] - Mean(s)
    ensures Sum(d) == 0.0
  {
    SumAffine(s, d, 1.0, -Mean(s));
  }

  lemma SquareScale(a: real, d: real)
    ensures Square(a * d) == Square(a) * Square(d)
  {
    calc {
      Square(a * d);
      == (a * d) * (a * d);
      == (a * a) * (d * d);
      == Square(a) * Square(d);
    }
  }

  lemma MeanTimesLength(s: seq<real>)
    requires |s| > 0
    ensures Mean(s) * (|s| as real) == Sum(s)
  {
  }

  lemma AffineMean(x: seq<real>, r: seq<real>, a: real, b: real)
    requires |x| > 0 && |r| == |x|
    requires forall i :: 0 <= i < |x| ==> r[i] == a * x[i] + b
    ensures Mean(r) == a * Mean(x) + b
  {
    hide Sum;
    var n := |x| as real;
    var m := Mean(x);
    SumAffine(x, r, a, b);
    MeanTimesLength(x);
    assert Sum(r) == (a * m + b) * n by {
      calc {
        Sum(r);
        == a * Sum(x) + n * b;
        == a * (m * n) + n * b;
        == (a * m + b) * n;
      }
    }
    DivideProduct(a * m + b, n);
  }

  lemma DivideProduct(c: real, n: real)
    requires n != 0.0
    ensures (c * n) / n == c
  {
  }

  lemma AffineSquaredDeviations(x: seq<real>, r: seq<real>, a: real, b: real, mx: real, mr: real)
    requires |r| == |x|
    requires forall i :: 0 <= i < |x| ==> r[i] == a * x[i] + b
    requires mr == a * mx + b
    ensures Sum(SquaredDeviations(r, mr)) == Square(a) * Sum(SquaredDeviations(x, mx))
  {
    hide Sum, Square;
    var dx := SquaredDeviations(x, mx);
    var dr := SquaredDeviations(r, mr);
    forall i | 0 <= i < |x| ensures dr[i] == Square(a) * dx[i] {
      AffineDeviation(x[i], r[i], a, b, mx, mr);
    }
    var k := Square(a);
    assert forall i :: 0 <= i < |x| ==> dr[i] == k * dx[i];
    SumScale(dx, dr, k);
    assert Sum(dr) == k * Sum(dx);
  }

  /** An affine map r[i] == a*x[i] + b moves the mean the same way and scales
      the population variance by a^2. */
  lemma AffineMoments(x: seq<real>, r: seq<real>, a: real, b: real)
    requires |x| > 0 && |r| == |x|
    requires forall i :: 0 <= i < |x| ==> r[i] == a * x[i] + b
    ensures Mean(r) == a * Mean(x) + b
    ensures PopVariance(r) == Square(a) * PopVariance(x)
  {
    hide Sum, Mean, PopVariance, Square;
    AffineMean(x, r, a, b);
    AffineSquaredDeviations(x, r, a, b, Mean(x), Mean(r));
    ScaledVariance(x, r, Square(a));
  }

  lemma ScaledVariance(x: seq<real>, r: seq<real>, k: real)
    requires |x| > 0 && |r| == |x|
    requires Sum(SquaredDeviations(r, Mean(r))) == k * Sum(SquaredDeviations(x, Mean(x)))
    ensures PopVariance(r) == k * PopVariance(x)
  {
    var sr := Sum(SquaredDeviations(r, Mean(r)));
    ScaledQuotient(x, k, sr);
    assert PopVariance(r) == sr / (|x| as real);
  }

  lemma ScaledQuotient(x: seq<real>, k: real, sr: real)
    requires |x| > 0
    requires sr == k * Sum(SquaredDeviations(x, Mean(x)))
    ensures sr / (|x| as real) == k * PopVariance(x)
  {
    QuotientOfMultiple(sr / (|x| as real), PopVariance(x), sr, Sum(SquaredDeviations(x, Mean(x))), k, |x| as real);
  }

  lemma QuotientOfMultiple(p: real, q: real, a: real, b: real, k: real, n: real)
    requires n != 0.0 && p == a / n && q == b / n && a == k * b
    ensures p == k * q
  {
  }

  lemma AffineDeviation(xi: real, ri: real, a: real, b: real, mx: real, mr: real)
    requires ri == a * xi + b && mr == a * mx + b
    ensures Square(ri - mr) == Square(a) * Square(xi - mx)
  {
    assert ri - mr == a * (xi - mx);
    SquareScale(a, xi - mx);
  }


  /** The population variance is never negative. */
  lemma PopVarianceNonNegative(s: seq<real>)
    requires |s| > 0
    ensures PopVariance(s) >= 0.0
  {
    var t := SquaredDeviations(s, Mean(s));
    forall i | 0 <= i < |t| ensures t[i] >= 0.0 { SquareSign(s[i] - Mean(s)); }
    SumNonNegative(t);
  }

  /** The sample variance is never negative. */
  lemma SampleVarianceNonNegative(s: seq<real>)
    requires |s| >= 2
    ensures SampleVariance(s) >= 0.0
  {
    var t := SquaredDeviations(s, Mean(s));
    forall i | 0 <= i < |t| ensures t[i] >= 0.0 { SquareSign(s[i] - Mean(s)); }
    SumNonNegative(t);
  }

  /** np.min: the smallest element; raises ValueError on an empty array. */
  function MinOf(s: seq<real>): (r: Result<real>)
    ensures r.Ok? <==> |s| > 0
    ensures r.Err? ==> r.error == ValueError
    ensures r.Ok? ==> r.value in s && forall i :: 0 <= i < |s| ==> r.value <= s[i]
  {
    if s == [] then Err(ValueError)
    else if |s| == 1 then Ok(s[0])
    else
      var m := MinOf(s[1..]).value;
      Ok(if s[0] <= m then s[0] else m)
  }

  /** np.max: the largest element; raises ValueError on an empty array. */
  function MaxOf(s: seq<real>): (r: Result<real>)
    ensures r.Ok? <==> |s| > 0
    ensures r.Err? ==> r.error == ValueError
    ensures r.Ok? ==> r.value in s && forall i :: 0 <= i < |s| ==> s[i] <= r.value
  {
    if s == [] then Err(ValueError)
    else if |s| == 1 then Ok(s[0])
    else
      var m := MaxOf(s[1..]).value;
      Ok(if s[0] >= m then s[0] else m)
  }

  /** The squared Euclidean distance between two vectors of one length. */
  function SquaredDistance(a: seq<real>, b: seq<real>): real
    requires |a| == |b|
  {
    Sum(SquaredDifferences(a, b))
  }

  function SquaredDifferences(a: seq<real>, b: seq<real>): (t: seq<real>)
    requires |a| == |b|
    ensures |t| == |a| && forall i :: 0 <= i < |a| ==> t[i] == Square(a[i] - b[i])
  {
    seq(|a|, i requires 0 <= i < |a| => Square(a[i] - b[i]))
  }

  /** The squared distance is never negative and is zero exactly on equal vectors. */
  lemma SquaredDistanceZero(a: seq<real>, b: seq<real>)
    requires |a| == |b|
    ensures SquaredDistance(a, b) >= 0.0
    ensures SquaredDistance(a, b) == 0.0 <==> a == b
  {
    var t := SquaredDifferences(a, b);
    forall i | 0 <= i < |t| ensures t[i] >= 0.0 && (t[i] == 0.0 <==> a[i] == b[i]) {
      SquareSign(a[i] - b[i]);
    }
    SumNonNegative(t);
    SumZero(t);
    if SquaredDistance(a, b) == 0.0 {
      assert forall i :: 0 <= i < |a| ==> a[i] == b[i];
    }
  }

  function Dot(a: seq<real>, b: seq<real>): real
    requires |a| == |b|
  {
    Sum(seq(|a|, i requires 0 <= i < |a| => a[i] * b[i]))
  }

  /** The column j of a table of rows. */
  function Column(rows: seq<seq<real>>, j: nat): (c: seq<real>)
    requires forall i :: 0 <= i < |rows| ==> j < |rows[i]|
    ensures |c| == |rows| && forall i :: 0 <= i < |rows| ==> c[i] == rows[i][j]
  {
    seq(|rows|, i requires 0 <= i < |rows| => rows[i][j])
  }

  /** The mean of every column of a non-empty table of rows of width w
      (np.mean(rows, axis=0), DataFrame.mean()). */
  function ColumnMeans(rows: seq<seq<real>>, w: nat): (m: seq<real>)
    requires |rows| > 0
    requires forall i :: 0 <= i < |rows| ==> |rows[i]| == w
    ensures |m| == w
    ensures forall j :: 0 <= j < w ==> m[j] == Mean(Column(rows, j))
  {
    seq(w, j requires 0 <= j < w => Mean(Column(rows, j)))
  }

  /** Summing s copies of the same value x gives |s| * x. */
  lemma SumConstant(s: seq<real>, x: real)
    requires forall i :: 0 <= i < |s| ==> s[i] == x
    ensures Sum(s) == (|s| as real) * x
  {
    SumAffine(s, s, 0.0, x);
  }
}
