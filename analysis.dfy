/** The preprocessing transforms and the PCA wrapper of NIRScanNano/analysis.py.
    Library numerics are parameters: sqrt for the square root behind np.std,
    filter for scipy's savgol_filter and fit for sklearn's PCA fitting. The
    degree-1 np.polyfit is the closed-form least-squares line. */
module Analysis {
  import opened Errors
  import opened Text
  import opened Stats
  import opened Spectra

  // ---------------------------------------------------------------------------
  // Pure real algebra used by the proofs below (kept free of sequences)

  lemma DivisionAsAffine(x: real, c: real, sd: real)
    requires sd != 0.0
    ensures (x - c) / sd == (1.0 / sd) * x + (-c / sd)
  {
  }

  lemma QuotientUndone(x: real, c: real, sd: real)
    requires sd != 0.0
    ensures ((x - c) / sd) * sd + c == x
  {
  }

  lemma InverseSquareCancels(sd: real, v: real)
    requires sd != 0.0 && Square(sd) == v
    ensures Square(1.0 / sd) * v == 1.0
  {
    SquareScale(1.0 / sd, sd);
    assert (1.0 / sd) * sd == 1.0;
  }

  lemma CenteredMeanVanishes(m: real, sd: real)
    requires sd != 0.0
    ensures (1.0 / sd) * m + (-m / sd) == 0.0
  {
  }

  lemma QuotientOrder(a: real, b: real, c: real, sd: real)
    requires sd > 0.0
    ensures (a - c) / sd <= (b - c) / sd <==> a <= b
  {
    if a <= b {
      assert b - c - (a - c) >= 0.0;
      assert (b - c) / sd - (a - c) / sd == (b - a) / sd;
    } else {
      assert (a - c) / sd - (b - c) / sd == (a - b) / sd;
    }
  }

  // ---------------------------------------------------------------------------
  // Standard normal variate

  /** np.std(x): the population standard deviation, through the supplied sqrt. */
  function StdDev(x: seq<real>, sqrt: real -> real): (sd: real)
    requires |x| > 0
    ensures IsSqrt(sqrt) ==> sd >= 0.0 && Square(sd) == PopVariance(x)
  {
    PopVarianceNonNegative(x);
    sqrt(PopVariance(x))
  }

  /** _snv(x, norm): x centred on its mean (on 0 when norm is set) and divided
      by its standard deviation. An empty array stays empty. */
  function Snv(x: seq<real>, norm: bool, sqrt: real -> real): (r: seq<real>)
    requires |x| > 0 ==> StdDev(x, sqrt) != 0.0
    ensures |r| == |x|
  {
    if x == [] then []
    else
      var m := if norm then 0.0 else Mean(x);
      var sd := StdDev(x, sqrt);
      seq(|x|, i requires 0 <= i < |x| => (x[i] - m) / sd)
  }

  /** The SNV output is an affine image of x with scale 1/sd. */
  lemma SnvIsAffine(x: seq<real>, norm: bool, sqrt: real -> real)
    requires |x| > 0 && StdDev(x, sqrt) != 0.0
    ensures var sd, c := StdDev(x, sqrt), if norm then 0.0 else Mean(x);
            forall i :: 0 <= i < |x| ==> Snv(x, norm, sqrt)[i] == (1.0 / sd) * x[i] + (-c / sd)
  {
    hide Sum, Mean, PopVariance, SquaredDeviations;
    var sd, c := StdDev(x, sqrt), if norm then 0.0 else Mean(x);
    forall i | 0 <= i < |x| ensures Snv(x, norm, sqrt)[i] == (1.0 / sd) * x[i] + (-c / sd) {
      DivisionAsAffine(x[i], c, sd);
    }
  }

  /** Without norm, SNV standardises: the output has mean 0 and population variance 1. */
  lemma SnvStandardizes(x: seq<real>, sqrt: real -> real)
    requires IsSqrt(sqrt) && |x| > 0 && StdDev(x, sqrt) != 0.0
    ensures Mean(Snv(x, false, sqrt)) == 0.0
    ensures PopVariance(Snv(x, false, sqrt)) == 1.0
  {
    hide Sum, Mean, PopVariance;
    var sd := StdDev(x, sqrt);
    PopVarianceNonNegative(x);
    SnvIsAffine(x, false, sqrt);
    AffineMoments(x, Snv(x, false, sqrt), 1.0 / sd, -Mean(x) / sd);
    CenteredMeanVanishes(Mean(x), sd);
    InverseSquareCancels(sd, PopVariance(x));
  }

  /** With norm, SNV only rescales: the output has population variance 1 and
      mean Mean(x)/sd. */
  lemma SnvNormRescales(x: seq<real>, sqrt: real -> real)
    requires IsSqrt(sqrt) && |x| > 0 && StdDev(x, sqrt) != 0.0
    ensures Mean(Snv(x, true, sqrt)) == Mean(x) / StdDev(x, sqrt)
    ensures PopVariance(Snv(x, true, sqrt)) == 1.0
  {
    hide Sum, Mean, PopVariance;
    var sd := StdDev(x, sqrt);
    PopVarianceNonNegative(x);
    SnvIsAffine(x, true, sqrt);
    AffineMoments(x, Snv(x, true, sqrt), 1.0 / sd, -0.0 / sd);
    InverseSquareCancels(sd, PopVariance(x));
  }

  /** SNV preserves the order of the absorbance values. */
  lemma SnvPreservesOrder(x: seq<real>, norm: bool, sqrt: real -> real, i: nat, j: nat)
    requires IsSqrt(sqrt) && |x| > 0 && StdDev(x, sqrt) != 0.0
    requires i < |x| && j < |x|
    ensures Snv(x, norm, sqrt)[i] <= Snv(x, norm, sqrt)[j] <==> x[i] <= x[j]
  {
    PopVarianceNonNegative(x);
    SqrtZero(sqrt, PopVariance(x));
    QuotientOrder(x[i], x[j], if norm then 0.0 else Mean(x), StdDev(x, sqrt));
  }

  // ---------------------------------------------------------------------------
  // Copies of spectra

  /** b holds the same keys, in the same order, with the same values as a. */
  predicate SameHeader(a: Header?, b: Header?)
    reads a, b
  {
    (a == null <==> b == null) &&
    (a != null ==> b.storage == a.storage && b.order == a.order)
  }

  /** snv: a new spectrum with a copy of the wavelengths, the SNV of the
      absorbance, a deep copy of the header and no signals. The input is not
      modified. */
  method SnvSpectrum(s: NIRSpectrum, norm: bool, sqrt: real -> real) returns (r: NIRSpectrum)
    requires |s.absorbance.data| > 0 ==> StdDev(s.absorbance.data, sqrt) != 0.0
    requires s.header != null ==> s.header.Valid()
    ensures r.wavelength == s.wavelength
    ensures r.absorbance.data == Snv(s.absorbance.data, norm, sqrt)
    ensures r.referenceSignal.None? && r.sampleSignal.None?
    ensures SameHeader(s.header, r.header) && (r.header != null ==> fresh(r.header) && r.header.Valid())
  {
    var wavelength := Copy(s.wavelength);
    var data := Snv(s.absorbance.data, norm, sqrt);
    var header := DeepCopy(s.header);
    r := Spectrum(wavelength, DataContainer(AbsorbanceKind, data), None, None, header);
  }

  /** savgol: the filtered absorbance on a copy of the wavelengths. The
      filter's own errors propagate, and an output of another length fails
      the NIRSpectrum length check. */
  method SavgolSpectrum(s: NIRSpectrum, window: int, order: int, deriv: int,
                        filter: (seq<real>, int, int, int) -> Result<seq<real>>) returns (r: Result<NIRSpectrum>)
    requires s.header != null ==> s.header.Valid()
    ensures var f := filter(s.absorbance.data, window, order, deriv);
      && (f.Err? ==> r == Err(f.error))
      && (f.Ok? && |f.value| != Length(s) ==> r == Err(DimensionError))
      && (r.Ok? <==> f.Ok? && |f.value| == Length(s))
      && (r.Ok? ==> r.value.wavelength == s.wavelength && r.value.absorbance.data == f.value
                    && r.value.referenceSignal.None? && r.value.sampleSignal.None?)
    ensures r.Ok? ==> SameHeader(s.header, r.value.header) &&
                      (r.value.header != null ==> fresh(r.value.header) && r.value.header.Valid())
  {
    var wavelength := Copy(s.wavelength);
    var filtered := filter(s.absorbance.data, window, order, deriv);
    if filtered.Err? {
      return Err(filtered.error);
    }
    var header := DeepCopy(s.header);
    r := NewSpectrum(wavelength, DataContainer(AbsorbanceKind, filtered.value), None, None, header);
  }

  // ---------------------------------------------------------------------------
  // Multiplicative scatter correction

  /** The sum of squared deviations of ref from its mean. */
  function Sxx(ref: seq<real>): real
    requires |ref| > 0
  {
    Sum(SquaredDeviations(ref, Mean(ref)))
  }

  function CrossDeviations(ref: seq<real>, data: seq<real>): (t: seq<real>)
    requires |ref| == |data| > 0
    ensures |t| == |ref|
    ensures forall i :: 0 <= i < |ref| ==> t[i] == (ref[i] - Mean(ref)) * (data[i] - Mean(data))
  {
    seq(|ref|, i requires 0 <= i < |ref| => (ref[i] - Mean(ref)) * (data[i] - Mean(data)))
  }

  /** The sum of cross deviations of ref and data from their means. */
  function Sxy(ref: seq<real>, data: seq<real>): real
    requires |ref| == |data| > 0
  {
    Sum(CrossDeviations(ref, data))
  }

  datatype Line = Line(slope: real, intercept: real)

  /** np.polyfit(ref, data, 1) in closed form: the least-squares line. */
  function FitLine(ref: seq<real>, data: seq<real>): (line: Line)
    requires |ref| == |data| > 0 && Sxx(ref) > 0.0
    ensures line.slope * Sxx(ref) == Sxy(ref, data)
    ensures Mean(data) == line.slope * Mean(ref) + line.intercept
  {
    var sxy, sxx := Sxy(ref, data), Sxx(ref);
    var slope := sxy / sxx;
    assert slope * sxx == sxy;
    Line(slope, Mean(data) - slope * Mean(ref))
  }

  function Residuals(ref: seq<real>, data: seq<real>, line: Line): (e: seq<real>)
    requires |ref| == |data|
    ensures |e| == |ref|
    ensures forall i :: 0 <= i < |ref| ==> e[i] == data[i] - (line.slope * ref[i] + line.intercept)
  {
    seq(|ref|, i requires 0 <= i < |ref| => data[i] - (line.slope * ref[i] + line.intercept))
  }

  lemma ResidualSumAlgebra(se: real, sd: real, sr: real, n: real, nr: real, slope: real, ic: real, md: real, mr: real)
    requires se == 1.0 * sd + (-slope) * sr + n * (-ic)
    requires ic == md - slope * mr && sd == md * n && sr == mr * nr && n == nr
    ensures se == 0.0
  {
  }

  lemma ResidualAsCombination(d: real, r: real, slope: real, ic: real)
    ensures d - (slope * r + ic) == 1.0 * d + (-slope) * r + (-ic)
  {
  }

  lemma SlopeCancels(sz: real, sxy: real, sxx: real, slope: real)
    requires sxx > 0.0 && slope == sxy / sxx
    requires sz == 1.0 * sxy + (-slope) * sxx + 0.0
    ensures sz == 0.0
  {
  }

  lemma ResidualTerm(r: real, d: real, mr: real, md: real, slope: real)
    ensures (d - (slope * r + (md - slope * mr))) * (r - mr)
            == 1.0 * ((r - mr) * (d - md)) + (-slope) * Square(r - mr) + 0.0
  {
    calc {
      (d - (slope * r + (md - slope * mr))) * (r - mr);
      == ((d - md) - slope * (r - mr)) * (r - mr);
      == (r - mr) * (d - md) - slope * ((r - mr) * (r - mr));
    }
  }

  lemma ResidualAt(ref: seq<real>, data: seq<real>, line: Line, i: int)
    requires |ref| == |data| && 0 <= i < |ref|
    ensures Residuals(ref, data, line)[i] == 1.0 * data[i] + (-line.slope) * ref[i] + (-line.intercept)
  {
    hide *;
    var e := Residuals(ref, data, line);
    ResidualAsCombination(data[i], ref[i], line.slope, line.intercept);
  }

  /** The residual sum of any line, as a combination of the sums of the data. */
  lemma WeightedTerm(z: real, e: real, p: real, q: real, r: real, d: real, mr: real, md: real, slope: real, ic: real)
    requires e == d - (slope * r + ic) && ic == md - slope * mr
    requires z == e * (r - mr) && p == (r - mr) * (d - md) && q == Square(r - mr)
    ensures z == 1.0 * p + (-slope) * q + 0.0
  {
    ResidualTerm(r, d, mr, md, slope);
  }

  lemma ResidualsPointwise(ref: seq<real>, data: seq<real>, line: Line)
    requires |ref| == |data|
    ensures forall i :: 0 <= i < |ref| ==>
      Residuals(ref, data, line)[i] == 1.0 * data[i] + (-line.slope) * ref[i] + (-line.intercept)
  {
    hide *;
    forall i | 0 <= i < |ref|
      ensures Residuals(ref, data, line)[i] == 1.0 * data[i] + (-line.slope) * ref[i] + (-line.intercept)
    {
      ResidualAt(ref, data, line, i);
    }
  }

  lemma ResidualsCombination(ref: seq<real>, data: seq<real>, line: Line)
    requires |ref| == |data|
    ensures Sum(Residuals(ref, data, line)) == 1.0 * Sum(data) + (-line.slope) * Sum(ref) + (|data| as real) * (-line.intercept)
  {
    hide Residuals, Sum;
    var e := Residuals(ref, data, line);
    var a, b, c := 1.0, -line.slope, -line.intercept;
    assert |e| == |data| == |ref|;
    ResidualsPointwise(ref, data, line);
    assert forall i :: 0 <= i < |e| ==> e[i] == a * data[i] + b * ref[i] + c;
    SumCombine(data, ref, e, a, b, c);
  }

  /** Any line through the point of means leaves residuals that sum to zero. */
  lemma ResidualsThroughMeans(ref: seq<real>, data: seq<real>, line: Line)
    requires |ref| == |data| > 0
    requires line.intercept == Mean(data) - line.slope * Mean(ref)
    ensures Sum(Residuals(ref, data, line)) == 0.0
  {
    ResidualsCombination(ref, data, line);
    MeanTimesLength(data);
    MeanTimesLength(ref);
    ResidualSumAlgebra(Sum(Residuals(ref, data, line)), Sum(data), Sum(ref), |data| as real, |ref| as real,
                       line.slope, line.intercept, Mean(data), Mean(ref));
  }

  /** The residuals of the fitted line sum to zero. */
  lemma ResidualsSumToZero(ref: seq<real>, data: seq<real>)
    requires |ref| == |data| > 0 && Sxx(ref) > 0.0
    ensures Sum(Residuals(ref, data, FitLine(ref, data))) == 0.0
  {
    ResidualsThroughMeans(ref, data, FitLine(ref, data));
  }

  /** The residuals of a line weighted by the deviations of the reference. */
  function WeightedResiduals(ref: seq<real>, data: seq<real>, line: Line): (z: seq<real>)
    requires |ref| == |data| > 0
    ensures |z| == |ref|
    ensures forall i :: 0 <= i < |ref| ==> z[i] == Residuals(ref, data, line)[i] * (ref[i] - Mean(ref))
  {
    var e := Residuals(ref, data, line);
    seq(|ref|, i requires 0 <= i < |ref| => e[i] * (ref[i] - Mean(ref)))
  }

  lemma WeightedAt(ref: seq<real>, data: seq<real>, line: Line, i: int)
    requires |ref| == |data| > 0 && 0 <= i < |ref|
    requires line.intercept == Mean(data) - line.slope * Mean(ref)
    ensures WeightedResiduals(ref, data, line)[i]
            == 1.0 * CrossDeviations(ref, data)[i] + (-line.slope) * SquaredDeviations(ref, Mean(ref))[i] + 0.0
  {
    hide *;
    var mr, md := Mean(ref), Mean(data);
    WeightedTerm(WeightedResiduals(ref, data, line)[i], Residuals(ref, data, line)[i],
                 CrossDeviations(ref, data)[i], SquaredDeviations(ref, mr)[i],
                 ref[i], data[i], mr, md, line.slope, line.intercept);
  }

  /** For a line through the point of means, the weighted residuals sum to Sxy - slope * Sxx. */
  lemma WeightedCombination(ref: seq<real>, data: seq<real>, line: Line)
    requires |ref| == |data| > 0
    requires line.intercept == Mean(data) - line.slope * Mean(ref)
    ensures Sum(WeightedResiduals(ref, data, line))
            == 1.0 * Sum(CrossDeviations(ref, data)) + (-line.slope) * Sum(SquaredDeviations(ref, Mean(ref))) + 0.0
  {
    hide *;
    var p := CrossDeviations(ref, data);
    var q := SquaredDeviations(ref, Mean(ref));
    var z := WeightedResiduals(ref, data, line);
    forall i | 0 <= i < |ref| ensures z[i] == 1.0 * p[i] + (-line.slope) * q[i] + 0.0 {
      WeightedAt(ref, data, line, i);
    }
    SumCombine(p, q, z, 1.0, -line.slope, 0.0);
  }

  /** The residuals of the fitted line are uncorrelated with the reference. */
  lemma ResidualsOrthogonal(ref: seq<real>, data: seq<real>)
    requires |ref| == |data| > 0 && Sxx(ref) > 0.0
    ensures Sum(WeightedResiduals(ref, data, FitLine(ref, data))) == 0.0
  {
    var line := FitLine(ref, data);
    var sxy, sxx := Sxy(ref, data), Sxx(ref);
    assert line.slope == sxy / sxx && line.intercept == Mean(data) - line.slope * Mean(ref);
    assert sxy == Sum(CrossDeviations(ref, data)) && sxx == Sum(SquaredDeviations(ref, Mean(ref)));
    hide *;
    WeightedCombination(ref, data, line);
    SlopeCancels(Sum(WeightedResiduals(ref, data, line)), sxy, sxx, line.slope);
  }

  /** The inputs on which _msc is defined over the reals: when np.polyfit
      accepts the arrays, the reference is not constant and the slope is not 0. */
  predicate MscDefined(data: seq<real>, ref: seq<real>) {
    |ref| == |data| > 0 ==> Sxx(ref) > 0.0 && Sxy(ref, data) != 0.0
  }

  /** _msc(data, ref): data with the fitted offset removed and the fitted
      slope divided out. np.polyfit raises TypeError on empty input or on
      arrays of different lengths. */
  function Msc(data: seq<real>, ref: seq<real>): (r: Result<seq<real>>)
    requires MscDefined(data, ref)
    ensures r.Err? <==> |ref| == 0 || |ref| != |data|
    ensures r.Err? ==> r.error == TypeError
    ensures r.Ok? ==> |r.value| == |data|
  {
    if |ref| == 0 || |ref| != |data| then Err(TypeError)
    else
      var line := FitLine(ref, data);
      assert line.slope != 0.0;
      Ok(seq(|data|, i requires 0 <= i < |data| => (data[i] - line.intercept) / line.slope))
  }

  /** Each corrected value, put back through the fitted line, gives the
      original value: _msc inverts the least-squares line of data on ref. */
  lemma MscInvertsFit(data: seq<real>, ref: seq<real>)
    requires MscDefined(data, ref) && Msc(data, ref).Ok?
    ensures var line := FitLine(ref, data);
            forall i :: 0 <= i < |data| ==> Msc(data, ref).value[i] * line.slope + line.intercept == data[i]
  {
    hide FitLine, Sxx, Sxy, Mean, Sum;
    var line := FitLine(ref, data);
    var out := Msc(data, ref).value;
    assert line.slope != 0.0;
    forall i | 0 <= i < |data| ensures out[i] * line.slope + line.intercept == data[i] {
      assert out[i] == (data[i] - line.intercept) / line.slope;
      QuotientUndone(data[i], line.intercept, line.slope);
    }
  }

  lemma CrossOfAffine(ref: seq<real>, data: seq<real>, a: real, b: real)
    requires |ref| == |data| > 0
    requires forall i :: 0 <= i < |ref| ==> data[i] == a * ref[i] + b
    requires Mean(data) == a * Mean(ref) + b
    ensures Sxy(ref, data) == a * Sxx(ref)
  {
    hide Sum, Mean, Square;
    var p := CrossDeviations(ref, data);
    var q := SquaredDeviations(ref, Mean(ref));
    forall i | 0 <= i < |ref| ensures p[i] == a * q[i] {
      AffineCross(ref[i], data[i], a, b, Mean(ref), Mean(data));
    }
    SumScale(q, p, a);
  }

  lemma AffineCross(r: real, d: real, a: real, b: real, mr: real, md: real)
    requires d == a * r + b && md == a * mr + b
    ensures (r - mr) * (d - md) == a * Square(r - mr)
  {
    assert d - md == a * (r - mr);
  }

  lemma FitOfAffineAlgebra(slope: real, ic: real, sxy: real, sxx: real, md: real, mr: real, a: real, b: real)
    requires sxx > 0.0 && sxy == a * sxx && slope == sxy / sxx
    requires ic == md - slope * mr && md == a * mr + b
    ensures slope == a && ic == b
  {
    assert slope == a;
  }

  lemma UndoAffine(d: real, r: real, a: real, b: real)
    requires a != 0.0 && d == a * r + b
    ensures (d - b) / a == r
  {
  }

  /** An exact affine distortion data == a*ref + b is fitted exactly. */
  lemma FitOfAffine(data: seq<real>, ref: seq<real>, a: real, b: real)
    requires |ref| == |data| > 0 && Sxx(ref) > 0.0
    requires forall i :: 0 <= i < |ref| ==> data[i] == a * ref[i] + b
    ensures FitLine(ref, data) == Line(a, b)
  {
    hide Sum, Mean, Sxx, Sxy, Square;
    AffineMean(ref, data, a, b);
    CrossOfAffine(ref, data, a, b);
    var line := FitLine(ref, data);
    FitOfAffineAlgebra(line.slope, line.intercept, Sxy(ref, data), Sxx(ref), Mean(data), Mean(ref), a, b);
  }

  /** An exact affine distortion data == a*ref + b (a != 0) is fitted exactly
      and MSC undoes it, recovering the reference. */
  lemma MscUndoesAffineDistortion(data: seq<real>, ref: seq<real>, a: real, b: real)
    requires |ref| == |data| > 0 && Sxx(ref) > 0.0 && a != 0.0
    requires forall i :: 0 <= i < |ref| ==> data[i] == a * ref[i] + b
    ensures FitLine(ref, data) == Line(a, b)
    ensures MscDefined(data, ref) && Msc(data, ref) == Ok(ref)
  {
    hide Sum, Mean, Square;
    FitOfAffine(data, ref, a, b);
    assert Sxy(ref, data) != 0.0 by {
      CrossOfAffine(ref, data, a, b) by { AffineMean(ref, data, a, b); }
    }
    var r := Msc(data, ref).value;
    forall i | 0 <= i < |ref| ensures r[i] == ref[i] {
      assert r[i] == (data[i] - b) / a;
      UndoAffine(data[i], ref[i], a, b);
    }
    assert r == ref;
  }

  /** Correcting a non-constant spectrum against itself changes nothing. */
  lemma MscAgainstItself(data: seq<real>)
    requires |data| > 0 && Sxx(data) > 0.0
    ensures MscDefined(data, data) && Msc(data, data) == Ok(data)
  {
    MscUndoesAffineDistortion(data, data, 1.0, 0.0);
  }

  /** msc: DimensionError when the wavelengths do not compare equal (the
      comparison's own broadcasting ValueError propagates), checked before
      any fitting; otherwise the MSC of the absorbance against the
      reference's, on a copy of the wavelengths, with a deep copy of the header. */
  method MscSpectrum(s: NIRSpectrum, reference: NIRSpectrum) returns (r: Result<NIRSpectrum>)
    requires s.header != null ==> s.header.Valid()
    requires Equal(s.wavelength, reference.wavelength) == Ok(true) ==>
             MscDefined(s.absorbance.data, reference.absorbance.data)
    ensures Equal(s.wavelength, reference.wavelength).Err? ==> r == Err(ValueError)
    ensures Equal(s.wavelength, reference.wavelength) == Ok(false) ==> r == Err(DimensionError)
    ensures Equal(s.wavelength, reference.wavelength) == Ok(true) ==>
      var m := Msc(s.absorbance.data, reference.absorbance.data);
      && (r.Err? <==> m.Err?)
      && (r.Err? ==> r.error == TypeError)
      && (r.Ok? ==> r.value.wavelength == s.wavelength && r.value.absorbance.data == m.value
                    && r.value.referenceSignal.None? && r.value.sampleSignal.None?)
    ensures r.Ok? ==> SameHeader(s.header, r.value.header) &&
                      (r.value.header != null ==> fresh(r.value.header) && r.value.header.Valid())
  {
    var same := Equal(s.wavelength, reference.wavelength);
    if same.Err? {
      return Err(same.error);
    }
    if !same.value {
      return Err(DimensionError);
    }
    var wavelength := Copy(s.wavelength);
    var corrected := Msc(s.absorbance.data, reference.absorbance.data);
    if corrected.Err? {
      return Err(corrected.error);
    }
    var header := DeepCopy(s.header);
    r := NewSpectrum(wavelength, DataContainer(AbsorbanceKind, corrected.value), None, None, header);
  }

  // ---------------------------------------------------------------------------
  // Principal component analysis

  type Matrix = seq<seq<real>>

  /** A fitted PCA estimator: the training mean and one row per component. */
  datatype PcaModel = PcaModel(mean: seq<real>, components: Matrix)

  /** k components over w features. */
  predicate Shaped(m: PcaModel, k: nat, w: nat) {
    |m.mean| == w && |m.components| == k &&
    forall n :: 0 <= n < k ==> |m.components[n]| == w
  }

  /** The number of columns of a matrix (0 for one without rows). */
  function Width(rows: Matrix): nat {
    if rows == [] then 0 else |rows[0]|
  }

  /** What every call of the estimator's fit is taken to satisfy: a model
      with the requested number of components over the input's columns. */
  ghost predicate FitShapes(fit: (Matrix, nat) -> Result<PcaModel>) {
    forall rows: Matrix, k: nat :: fit(rows, k).Ok? ==> Shaped(fit(rows, k).value, k, Width(rows))
  }

  /** PCA.transform of one sample x: its centred coordinates along each component. */
  function Project(m: PcaModel, x: seq<real>): (y: seq<real>)
    requires Shaped(m, |m.components|, |x|)
    ensures |y| == |m.components|
    ensures forall n :: 0 <= n < |y| ==>
      y[n] == Dot(m.components[n], seq(|x|, i requires 0 <= i < |x| => x[i] - m.mean[i]))
  {
    var centred := seq(|x|, i requires 0 <= i < |x| => x[i] - m.mean[i]);
    seq(|m.components|, n requires 0 <= n < |m.components| => Dot(m.components[n], centred))
  }

  /** The component scores of every row, as fit_transform returns them. */
  function ProjectRows(m: PcaModel, rows: Matrix): (t: Matrix)
    requires forall i :: 0 <= i < |rows| ==> Shaped(m, |m.components|, |rows[i]|)
    ensures |t| == |rows|
    ensures forall i :: 0 <= i < |rows| ==> t[i] == Project(m, rows[i])
  {
    seq(|rows|, i requires 0 <= i < |rows| => Project(m, rows[i]))
  }

  /** The transpose .T of a matrix whose rows all have k columns. */
  function Transpose(rows: Matrix, k: nat): (t: Matrix)
    requires forall i :: 0 <= i < |rows| ==> |rows[i]| == k
    ensures |t| == k
    ensures forall n :: 0 <= n < k ==> |t[n]| == |rows|
    ensures forall n, i :: 0 <= n < k && 0 <= i < |rows| ==> t[n][i] == rows[i][n]
  {
    seq(k, n requires 0 <= n < k => Column(rows, n))
  }

  function Scores(m: PcaModel, rows: Matrix, k: nat): Matrix
    requires |rows| > 0 && forall i :: 0 <= i < |rows| ==> |rows[i]| == |rows[0]|
    requires Shaped(m, k, Width(rows))
  {
    Transpose(ProjectRows(m, rows), k)
  }

  /** pandas-labelled or plain output of PCAnalysis.transform. */
  datatype Projection = Plain(values: seq<real>) | Labelled(index: seq<string>, values: seq<real>)

  /** The name of principal component n (counting from 0): "PC" then n+1. */
  function ComponentName(n: nat): string {
    "PC" + NatToString(n + 1)
  }

  lemma ComponentNamesDiffer(a: nat, b: nat)
    requires ComponentName(a) == ComponentName(b)
    ensures a == b
  {
    assert NatToString(a + 1) == ComponentName(a)[2..];
    assert NatToString(b + 1) == ComponentName(b)[2..];
    NatToStringInjective(a + 1, b + 1);
  }

  /** PCAnalysis: a list of spectra and a PCA estimator with a fixed number of
      components; transformed is None until run succeeds. */
  class PCAnalysis {
    const spectra: seq<NIRSpectrum>
    const ncomp: nat
    var model: Option<PcaModel>
    var transformed: Option<Matrix>

    ghost predicate Valid()
      reads this
    {
      && (model.Some? ==> |model.value.components| == ncomp &&
                          Shaped(model.value, ncomp, |model.value.mean|))
      && (transformed.Some? ==>
            && model.Some?
            && AbsorbanceMatrix(spectra).Ok? && |spectra| > 0
            && Shaped(model.value, ncomp, Length(spectra[0]))
            && transformed.value == Scores(model.value, AbsorbanceMatrix(spectra).value, ncomp))
    }

    constructor (spectra: seq<NIRSpectrum>, ncomp: nat)
      ensures Valid()
      ensures this.spectra == spectra && this.ncomp == ncomp
      ensures model.None? && transformed.None?
    {
      this.spectra := spectra;
      this.ncomp := ncomp;
      model := None;
      transformed := None;
    }

    /** n_components(): the number of components the estimator was configured with. */
    function NComponents(): (n: nat)
      ensures n == ncomp
    {
      ncomp
    }

    /** column_names(): "PC1" through "PCn" for n = n_components(). */
    function ColumnNames(): (names: seq<string>)
      ensures |names| == NComponents()
      ensures forall n :: 0 <= n < |names| ==> names[n] == ComponentName(n)
    {
      seq(NComponents(), n requires 0 <= n < NComponents() => ComponentName(n))
    }

    /** The column names are distinct and all start with "PC". */
    lemma ColumnNamesDistinct()
      ensures NoDuplicates(ColumnNames())
      ensures forall n :: 0 <= n < |ColumnNames()| ==> StartsWith(ColumnNames()[n], "PC")
    {
      var names := ColumnNames();
      forall i, j | 0 <= i < j < |names| ensures names[i] != names[j] {
        if names[i] == names[j] {
          ComponentNamesDiffer(i, j);
        }
      }
      forall n | 0 <= n < |names| ensures StartsWith(names[n], "PC") {
        assert names[n][..2] == "PC";
      }
    }

    /** run(): every spectrum's wavelengths must compare equal to the first's
        (the check comes before any update); then the estimator is fitted to
        the absorbance matrix and transformed holds the transposed scores:
        ncomp rows, one column per spectrum. On failure nothing changes. */
    method Run(fit: (Matrix, nat) -> Result<PcaModel>) returns (o: Outcome)
      requires Valid() && FitShapes(fit)
      modifies this
      ensures Valid()
      ensures GridCheck(spectra).Fail? ==> o == Fail(GridCheck(spectra).error)
      ensures |spectra| == 0 ==> o == Fail(ValueError)
      ensures GridCheck(spectra).Pass? && AbsorbanceMatrix(spectra).Err? ==> o == Fail(ValueError)
      ensures GridCheck(spectra).Pass? && AbsorbanceMatrix(spectra).Ok? && |spectra| > 0 ==>
        var f := fit(AbsorbanceMatrix(spectra).value, ncomp);
        && (f.Err? ==> o == Fail(f.error))
        && (f.Ok? ==> o == Pass && model == Some(f.value))
      ensures o.Fail? ==> model == old(model) && transformed == old(transformed)
      ensures o.Pass? ==> transformed.Some? && |transformed.value| == ncomp &&
                          forall n :: 0 <= n < ncomp ==> |transformed.value[n]| == |spectra|
    {
      var i := 0;
      while i < |spectra|
        invariant 0 <= i <= |spectra|
        invariant GridCheck(spectra) == GridCheckFrom(spectra, i)
      {
        var same := Equal(spectra[i].wavelength, spectra[0].wavelength);
        if same.Err? {
          return Fail(same.error);
        }
        if !same.value {
          return Fail(DimensionError);
        }
        i := i + 1;
      }
      var matrix := AbsorbanceMatrix(spectra);
      if matrix.Err? {
        return Fail(matrix.error);
      }
      if |spectra| == 0 {
        // np.array([]) is one-dimensional, which the estimator rejects
        return Fail(ValueError);
      }
      var f := fit(matrix.value, ncomp);
      if f.Err? {
        return Fail(f.error);
      }
      assert Shaped(f.value, ncomp, Width(matrix.value));
      model := Some(f.value);
      transformed := Some(Scores(f.value, matrix.value, ncomp));
      o := Pass;
    }

    /** transform(s, as_pandas): the component scores of one spectrum, labelled
        with the column names when as_pandas is set. NotFittedError before a
        fit, ValueError when the spectrum has another number of features. */
    function Transform(s: NIRSpectrum, asPandas: bool): (r: Result<Projection>)
      reads this
      requires Valid()
      ensures model.None? ==> r == Err(NotFittedError)
      ensures model.Some? ==> (r.Err? <==> Length(s) != |model.value.mean|)
      ensures r.Err? && model.Some? ==> r.error == ValueError
      ensures r.Ok? ==> r.value.values == Project(model.value, s.absorbance.data) && |r.value.values| == ncomp
      ensures r.Ok? ==> (r.value.Labelled? <==> asPandas) && (r.value.Labelled? ==> r.value.index == ColumnNames())
    {
      match model
      case None => Err(NotFittedError)
      case Some(m) =>
        if Length(s) != |m.mean| then Err(ValueError)
        else
          var values := Project(m, s.absorbance.data);
          Ok(if asPandas then Labelled(ColumnNames(), values) else Plain(values))
    }

    /** After a successful run, transformed has ncomp rows of one score per spectrum. */
    lemma TransformedShape()
      requires Valid() && transformed.Some?
      ensures |transformed.value| == ncomp
      ensures forall n :: 0 <= n < ncomp ==> |transformed.value[n]| == |spectra|
    {
      var rows := AbsorbanceMatrix(spectra).value;
      assert forall i :: 0 <= i < |rows| ==> |rows[i]| == |rows[0]|;
    }

    /** Transforming a training spectrum after run reproduces its column of
        transformed. */
    lemma TransformReproducesRun(i: nat, asPandas: bool)
      requires Valid() && transformed.Some? && i < |spectra|
      ensures Transform(spectra[i], asPandas).Ok?
      ensures forall n :: 0 <= n < ncomp ==>
                Transform(spectra[i], asPandas).value.values[n] == transformed.value[n][i]
    {
      var rows := AbsorbanceMatrix(spectra).value;
      assert rows[i] == spectra[i].absorbance.data;
      assert Length(spectra[i]) == |rows[i]| == Width(rows);
    }
  }
}
