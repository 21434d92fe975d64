# NIRScanNano toolkit core in Dafny

This project models the core of the NIRScanNano toolkit. The toolkit reads,
preprocesses and classifies near-infrared spectra from a handheld
spectrometer. The model has three parts.

- **Spectrum data model and header parser** (`spectrum.dfy`, module `Spectra`).
  - Array containers with min/max, copy and approximate (`np.allclose`) equality.
  - The `NIRSpectrum` aggregate and its length invariant, which fails with `DimensionError`.
  - The mutable string-keyed header, as a class `Header`.
  - The `read_spectrum` header loop. The loop is a method that builds the header line by line, and each line is classified by a pure function.
  - `average_spectra`.
- **Preprocessing and the PCA wrapper** (`analysis.dfy`, module `Analysis`).
  - SNV (standard normal variate).
  - MSC (multiplicative scatter correction), via the closed-form degree-1 least-squares fit.
  - The Savitzky–Golay wrapper.
  - `PCAnalysis`, as a class whose `transformed` field stays unset until `Run` succeeds.
- **Centroid classifier** (`course.dfy`, module `Course`).
  - The score table built from a PCA run, with one row per spectrum.
  - Per-label centroids and acceptance radii.
  - Nearest-centroid ranking.
  - The strict-inequality membership filter.

Three support modules:
- `errors.dfy` (`Errors`): the Python exceptions that the core raises, plus `Option`, `Result` and `Outcome`.
- `text.dfy` (`Text`): the Python string operations the header parser uses (`strip`, `replace`, `split`, `isdigit`, `int`).
- `stats.dfy` (`Stats`): sums, means, variances, min/max, distances and dot products over `real`.

All floating-point values are Dafny `real`s.

Several external routines are function parameters rather than fixed functions.
Each one comes with the contract that the lemmas rely on:
- **Square root** is a parameter `sqrt`. The lemmas that need its properties require `IsSqrt(sqrt)`, meaning non-negative and squaring back to its argument; monotonicity follows from them (lemmas SqrtBelow and SqrtAbove).
- **`float(v)`** is the parameter `toFloat`.
- **`scipy.signal.savgol_filter`** is the parameter `filter`.
- **sklearn's `PCA.fit`** is the parameter `fit`, constrained by `FitShapes`: a model of the requested shape.

sklearn's `transform` is modelled concretely as `components · (x − mean)`, which is what a non-whitened PCA computes. `fit_transform` is the fit followed by that projection of every row, then transposed.

## Model

| member | source | states |
|---|---|---|
| Spectra.Min | NIRScanNano/spectrum.py:16-17 | ValueError exactly on an empty container; otherwise an element of the data that is ≤ every element |
| Spectra.Max | NIRScanNano/spectrum.py:19-20 | ValueError exactly on an empty container; otherwise an element of the data that is ≥ every element |
| Spectra.AllClose | NIRScanNano/spectrum.py:25-26 | np.allclose with broadcasting: ValueError exactly when the lengths neither match nor include a 1. Otherwise true iff every broadcast pair satisfies the asymmetric tolerance; for equal lengths, iff every pair does |
| Spectra.AllCloseReflexive | NIRScanNano/spectrum.py:25-26 | every array compares equal to itself |
| Spectra.AllCloseIsAsymmetric | NIRScanNano/spectrum.py:25-26 | a concrete pair where a == b holds but b == a does not, because the relative tolerance scales with the second argument |
| Spectra.Copy | NIRScanNano/spectrum.py:28-29 | the copy has the same container kind and the same data |
| Spectra.Equal | NIRScanNano/spectrum.py:25-26 | __eq__ is np.allclose on the data: ValueError exactly when the lengths cannot broadcast. Otherwise true iff every broadcast pair is close (for equal lengths, every pair); identical data compares equal |
| Spectra.CopyIsEqual | NIRScanNano/spectrum.py:25-29 | a copy compares == to its original |
| Spectra.ZeroFromWavelength | NIRScanNano/spectrum.py:47-49 | an Absorbance as long as the wavelength axis, all entries 0 |
| Spectra.Header.constructor | NIRScanNano/spectrum.py:58-59 | a new header is empty and well formed |
| Spectra.Header.Set | NIRScanNano/spectrum.py:61-62 | h[k] = v maps k to v and leaves every other key unchanged. A new key is appended to the insertion order; an existing key keeps its place |
| Spectra.Header.Get | NIRScanNano/spectrum.py:64-65 | h[k] succeeds exactly for a stored key and returns its value; otherwise KeyError |
| Spectra.Header.GetOr | NIRScanNano/course.py:55 | Mapping.get(k, default): the stored value for a present key, the default for an absent key or for None |
| Spectra.Header.Len | NIRScanNano/spectrum.py:67-68 | len counts the distinct stored keys |
| Spectra.Header.Keys | NIRScanNano/spectrum.py:70-71 | iteration yields every stored key exactly once and nothing else, in insertion order (the order Set maintains) |
| Spectra.Header.Clone | NIRScanNano/analysis.py:20 | the object half of deepcopy: a fresh, valid header with the same mapping and the same insertion order |
| Spectra.DeepCopy | NIRScanNano/analysis.py:20 | deepcopy of a header: a fresh header with the same entries, in the same order; None stays None |
| Spectra.NewSpectrum | NIRScanNano/spectrum.py:75-87 | construction fails with DimensionError exactly when the wavelength and absorbance lengths differ; otherwise it holds the given parts |
| Spectra.Length | NIRScanNano/spectrum.py:108-109 | len(spectrum) equals both the wavelength length and the absorbance length |
| Text.Strip | NIRScanNano/spectrum.py:120-121 | str.strip(): the middle slice, empty iff the string is all whitespace, otherwise neither starting nor ending with whitespace, with only whitespace cut off around it |
| Text.RemoveChar | NIRScanNano/spectrum.py:120 | str.replace(c, ""): no c remains, and every other character keeps its count |
| Text.JoinSplit | NIRScanNano/spectrum.py:118 | str.split loses nothing: joining the pieces with the separator restores the line |
| Text.ParseNatToString | NIRScanNano/spectrum.py:128-129 | int() inverts the decimal form of a natural number |
| Spectra.HeaderKey | NIRScanNano/spectrum.py:120 | the key field, stripped and with every ':' removed, contains no ':' |
| Spectra.KeyFieldParses | NIRScanNano/spectrum.py:120 | a "key:" field whose key has no surrounding space, ':' or delimiter gives back exactly that key |
| Spectra.NonBlank | NIRScanNano/spectrum.py:121 | keeps exactly the value fields that are not blank after stripping |
| Spectra.NonBlankCount | NIRScanNano/spectrum.py:121 | a field that is not blank is kept as often as it occurs, and a blank one never is |
| Spectra.NonBlankAppend | NIRScanNano/spectrum.py:121 | the comprehension works field by field in order: filtering a concatenation is concatenating the filtered parts |
| Spectra.NonBlankFirst | NIRScanNano/spectrum.py:121-127 | values[0] is the first field that is not blank |
| Spectra.ToFloats | NIRScanNano/spectrum.py:125 | [float(v) for v in values]: ValueError iff some field does not convert; otherwise one converted value per field, in order |
| Spectra.ScalarValue | NIRScanNano/spectrum.py:127-129 | the value becomes an integer exactly when it is all digits, and that integer is int(v), the decimal value of the digits; otherwise the unchanged string is kept. A scalar is never a float array |
| Spectra.ParseHeaderLine | NIRScanNano/spectrum.py:118-131 | a line fails only with ValueError or IndexError. A parsed line needs a non-empty delimiter and has the stripped, ':'-free first field as key; its value is a float array exactly for a Pixel/Shift key |
| Spectra.ArrayLineParses | NIRScanNano/spectrum.py:121-125 | for a Pixel/Shift key whose non-blank fields all convert, the value is the float array of those fields, one float(v) per field in order |
| Spectra.ScalarLineFirstValue | NIRScanNano/spectrum.py:121-129 | for any other key, the value is the first non-blank field after the key, classified as integer or string |
| Text.SplitPiecesFree | NIRScanNano/spectrum.py:118 | no piece of str.split contains a one-character separator |
| Spectra.HeaderLineKey | NIRScanNano/spectrum.py:118-120 | an empty delimiter is a ValueError, and a parsed key never contains ':' |
| Spectra.ScalarHeaderLineFails | NIRScanNano/spectrum.py:121-129 | for a key not starting with Pixel/Shift, the line fails exactly when every value field is blank, and the failure is IndexError |
| Spectra.ArrayHeaderLineFails | NIRScanNano/spectrum.py:121-125 | for a Pixel/Shift key, the line fails exactly when some non-blank field is not a float, and the failure is ValueError |
| Spectra.ScalarLineParses | NIRScanNano/spectrum.py:118-131 | a line "key:", value, … with a non-blank first value yields that key and the classified first value |
| Spectra.IntegerLineRoundTrip | NIRScanNano/spectrum.py:118-131 | a written line "key:<d>n<d>\n" (d the delimiter) parses back to the key and the integer n |
| Spectra.TrailingNewlineKeepsString | NIRScanNano/spectrum.py:126-129 | when the number is the last field, the unstripped trailing newline defeats isdigit and the value stays a string |
| Spectra.ParseLinesOutcome | NIRScanNano/spectrum.py:116-131 | the nhead-line loop succeeds iff there are nhead lines, all of which parse. It then yields one entry per line, in order; running out of lines is StopIteration |
| Spectra.ParseLinesFirstError | NIRScanNano/spectrum.py:116-131 | the first failing line's error is the loop's error |
| Spectra.LastEntryWins | NIRScanNano/spectrum.py:131 | a key is stored iff some line produced it, and it holds the value of the last line that produced it |
| Spectra.ReadEntries | NIRScanNano/spectrum.py:115-131 | the header loop method fails iff the line-by-line parse fails, with the same error. Otherwise it returns a fresh header holding exactly the entries' final values in first-insertion order |
| Spectra.ReadHeader | NIRScanNano/spectrum.py:115-131 | the same, with read_spectrum's own line classification |
| Spectra.GridCheckFrom | NIRScanNano/spectrum.py:146-148 | the all(...) grid check passes iff every spectrum's wavelengths compare equal to the first's. Otherwise the first failing comparison decides the error: a numpy broadcast error or DimensionError |
| Spectra.GridCheck | NIRScanNano/spectrum.py:146-148 | the check passes iff every spectrum's wavelengths compare equal to the first's; a failure comes from the first spectrum that does not compare equal, with a numpy broadcast error or DimensionError |
| Spectra.GridCheckSameLengths | NIRScanNano/spectrum.py:146-148 | with equal axis lengths, the check fails exactly when some wavelength is not close to the first spectrum's, and then with DimensionError |
| Spectra.AbsorbanceMatrix | NIRScanNano/spectrum.py:151 | stacking succeeds iff all absorbance arrays have the first one's length, and then holds them in order |
| Spectra.AverageSpectra | NIRScanNano/spectrum.py:145-153 | a failed grid check gives its error; an empty list gives IndexError; absorbance arrays of differing lengths (possible once the grid check passes, since allclose broadcasts a length-1 axis) give np.mean's ValueError. Otherwise the result has the first wavelengths, no header or signals, and absorbance[j] is the mean over the inputs of absorbance[j] |
| Spectra.AverageOfIdenticalAbsorbance | NIRScanNano/spectrum.py:145-153 | averaging spectra that share one absorbance array gives that array back |
| Spectra.AverageSingle | NIRScanNano/spectrum.py:145-153 | averaging a single spectrum gives its own wavelengths and absorbance |
| Analysis.StdDev | NIRScanNano/analysis.py:14 | np.std: a non-negative value whose square is the population variance |
| Analysis.Snv | NIRScanNano/analysis.py:12-14 | _snv preserves the length |
| Analysis.SnvIsAffine | NIRScanNano/analysis.py:12-14 | output[i] = (x[i] − m)/sd with m = 0 under norm and the mean otherwise, sd the population standard deviation |
| Analysis.SnvStandardizes | NIRScanNano/analysis.py:12-14 | without norm the output has mean 0 and population variance 1 |
| Analysis.SnvNormRescales | NIRScanNano/analysis.py:12-14 | with norm the output has mean mean(x)/sd and population variance 1 |
| Analysis.SnvPreservesOrder | NIRScanNano/analysis.py:12-14 | SNV keeps the order between any two absorbance values |
| Analysis.SnvSpectrum | NIRScanNano/analysis.py:17-23 | snv returns a new spectrum with the same wavelengths and the SNV absorbance. The header is a fresh copy with the same entries, there are no signals, and the input is untouched |
| Analysis.SavgolSpectrum | NIRScanNano/analysis.py:26-35 | savgol passes on the filter's error. A filter result of the wrong length is DimensionError. Otherwise the result has the same wavelengths, the filtered absorbance, a fresh header copy, and no signals |
| Analysis.FitLine | NIRScanNano/analysis.py:39 | np.polyfit(ref, data, 1): the slope solves slope·Sxx = Sxy, and the line passes through the point of means |
| Analysis.ResidualsSumToZero | NIRScanNano/analysis.py:39 | the fitted line leaves residuals that sum to zero (first normal equation) |
| Analysis.ResidualsOrthogonal | NIRScanNano/analysis.py:39 | the residuals are orthogonal to the centred reference (second normal equation), so the closed form is the least-squares fit |
| Analysis.FitOfAffine | NIRScanNano/analysis.py:39 | data that is exactly a·ref + b is fitted by slope a and intercept b |
| Analysis.Msc | NIRScanNano/analysis.py:38-40 | _msc fails with TypeError exactly for an empty input or mismatched lengths; otherwise it keeps the data's length |
| Analysis.MscInvertsFit | NIRScanNano/analysis.py:38-40 | for every input, each output value put back through the fitted least-squares line (slope · out[i] + intercept) is data[i], so out[i] = (data[i] − intercept)/slope |
| Analysis.MscUndoesAffineDistortion | NIRScanNano/analysis.py:38-40 | MSC of a·ref + b against ref (a ≠ 0) gives ref back |
| Analysis.MscAgainstItself | NIRScanNano/analysis.py:38-40 | MSC of non-constant data against itself gives the data back |
| Analysis.MscSpectrum | NIRScanNano/analysis.py:43-52 | msc fails with DimensionError when the wavelengths compare unequal, before any fitting; a broadcast failure is ValueError; a failed fit is TypeError. Otherwise the result has the same wavelengths, the MSC absorbance, a fresh header copy and no signals |
| Analysis.Project | NIRScanNano/analysis.py:80 | one coordinate per component: the dot product of that component with the centred sample |
| Analysis.ProjectRows | NIRScanNano/analysis.py:76 | the projection of every row, in order |
| Analysis.Transpose | NIRScanNano/analysis.py:76 | .T: entry [n][i] is row i's entry n |
| Analysis.ComponentNamesDiffer | NIRScanNano/analysis.py:65 | different component numbers give different "PC" names |
| Analysis.PCAnalysis.constructor | NIRScanNano/analysis.py:56-59 | stores the spectra and the component count; no model, and transformed is None |
| Analysis.PCAnalysis.NComponents | NIRScanNano/analysis.py:61-62 | the component count given at construction |
| Analysis.PCAnalysis.ColumnNames | NIRScanNano/analysis.py:64-66 | n_components names, the n-th being "PC" followed by n+1 |
| Analysis.PCAnalysis.ColumnNamesDistinct | NIRScanNano/analysis.py:64-66 | the names are pairwise distinct and each starts with "PC" |
| Analysis.PCAnalysis.Run | NIRScanNano/analysis.py:71-76 | A grid mismatch fails with the check's error. Beyond it: no spectra, or ragged data, is ValueError; a fit error is passed on. Any failure leaves model and transformed unchanged. Success stores the fit and a transformed matrix of n_components rows by len(spectra) columns |
| Analysis.PCAnalysis.Transform | NIRScanNano/analysis.py:78-84 | NotFittedError before a run. ValueError for a sample of the wrong length. Otherwise n_components projected values, labelled with the column names exactly when as_pandas is set |
| Analysis.PCAnalysis.TransformedShape | NIRScanNano/analysis.py:76 | transformed always has n_components rows of len(spectra) entries |
| Analysis.PCAnalysis.TransformReproducesRun | NIRScanNano/analysis.py:76-84 | transforming a training spectrum reproduces its column of the transformed matrix |
| Course.CopyName | NIRScanNano/course.py:18-19 | sets header "Name" to the name and leaves every other key unchanged; a spectrum without a header is a TypeError |
| Course.Columns | NIRScanNano/course.py:48-49 | the table's column names are its score names followed by "Label" |
| Course.ScoreColumn | NIRScanNano/course.py:53-54 | entry n is transformed[n, i], for each of the n_components components |
| Course.PcaToPandas | NIRScanNano/course.py:47-60 | TypeError when a score must be read before a run (some spectrum and some component exist). AttributeError when some spectrum has no header. Otherwise the columns are PC1..PCn plus "Label", with one row per spectrum in order: the spectrum's scores, then header.get(label, "") |
| Course.ScoreColumnsDistinct | NIRScanNano/course.py:48-49 | the table's column names are pairwise distinct |
| Course.Distinct | NIRScanNano/course.py:75 | the group keys: each label once, and exactly the labels that occur |
| Course.Members | NIRScanNano/course.py:75 | a group: exactly the rows with that label |
| Course.MembersCount | NIRScanNano/course.py:75 | a row of the label appears in its group as often as in the frame, and no other row appears |
| Course.MembersAppend | NIRScanNano/course.py:75 | grouping works row by row: the group of a concatenation is the concatenation of the groups |
| Course.SelectColumns | NIRScanNano/course.py:75 | selecting columns fails with KeyError iff some requested column is missing; otherwise it gives the position of each |
| Course.Distances | NIRScanNano/course.py:64 | one Euclidean distance from each member to the centre |
| Course.DistancesNonNegative | NIRScanNano/course.py:64 | those distances are never negative |
| Course.GroupRadius | NIRScanNano/course.py:63-66 | a radius exists exactly for two or more distances; with fewer, the sample deviation is NaN. The radius is the largest distance plus DistanceBuffer (0.25) times the ddof=1 sample deviation: take that term away and what remains is a distance that is ≥ every distance |
| Course.RadiusCoversDistances | NIRScanNano/course.py:63-66 | the radius (max + 0.25 × sample deviation) is at least every distance, and is non-negative for non-negative distances |
| Course.GroupSummary | NIRScanNano/course.py:75-78 | a label's summary carries that label, one mean per selected column, and a radius exactly when the label has two or more rows |
| Course.PcaCentroids | NIRScanNano/course.py:73-80 | KeyError when a requested column is missing; otherwise TypeError exactly when some label is a float array (an unhashable list, so groupby's mean fails). Otherwise there is exactly one centroid per distinct label, no label twice, and the radii are aligned with the centroids |
| Course.CentroidIsGroupMean | NIRScanNano/course.py:75-77 | coordinate j of a label's centroid is the mean, over that label's rows, of the column named dataColumns[j] |
| Course.RadiusCoversMembers | NIRScanNano/course.py:63-78 | a label's radius exists iff it has two or more rows; it is then ≥ 0 and ≥ every member's distance to the centroid |
| Course.AlignedSquares | NIRScanNano/course.py:69-70 | df.sub(s).pow(2), aligned by column name; a column the query lacks contributes nothing to the sum, as pandas skips NaN |
| Course.AlignedDistance | NIRScanNano/course.py:69-70 | the distance is non-negative and its square is the sum of the aligned squared differences |
| Course.AlignedDistanceZero | NIRScanNano/course.py:69-70 | the distance is ≥ 0, and is 0 iff the centroid agrees with the query on every shared column |
| Course.SameColumnsDistanceZero | NIRScanNano/course.py:69-70 | over identical distinct columns, the distance is 0 iff the query equals the centroid |
| Course.CentroidDistances | NIRScanNano/course.py:86-87 | one distance per centroid row, keyed by that row's label |
| Course.SortByDistance | NIRScanNano/course.py:89 | sort_values: ascending by distance and a permutation of the input |
| Course.Head | NIRScanNano/course.py:89 | Python's [:n], including negative n |
| Course.HeadOfSorted | NIRScanNano/course.py:89 | the first n of the sorted distances: min(n, count) entries, ascending, drawn from the input, and no omitted entry is nearer |
| Course.NearestCentroids | NIRScanNano/course.py:83-89 | fails exactly when transform fails, with transform's error |
| Course.NearestCentroidsRanking | NIRScanNano/course.py:83-89 | min(n, #centroids) labelled distances, ascending and drawn from the query's distances to the centroids; every omitted centroid is at least as far as every returned one |
| Course.RadiusOf | NIRScanNano/course.py:93 | an aligned radius lookup returns a value only if that label has that radius |
| Course.CentroidRadiusLookup | NIRScanNano/course.py:78-93 | looking up a centroid's label in the radii from PcaCentroids gives that centroid's own radius |
| Course.EvalDistances | NIRScanNano/course.py:92-94 | every label whose distance is strictly below its radius is returned, and no more labels than distances |
| Course.EvalDistancesSound | NIRScanNano/course.py:92-94 | every returned label has an entry strictly inside its radius; labels without a radius never qualify |
| Course.EvalDistancesAppend | NIRScanNano/course.py:92-94 | the filter works entry by entry and keeps the input's order |
| Course.TwoGroupExample | NIRScanNano/course.py:83-94 | with centroids A=[0,0] and B=[10,10] and the query [1,1], the ranking is A then B; with radii 2 and 1, membership is exactly [A] |

## Left out

- File I/O in `read_spectrum` is not modelled: opening the file, `next` and `readlines`, the column-header line and the `np.genfromtxt` data block (NIRScanNano/spectrum.py:114, 133-142). The header lines arrive as a sequence of strings, and running out of them is StopIteration.
- `float(v)` is the parameter `toFloat`; Python's float syntax is not modelled.
- `DataReader` (NIRScanNano/course.py:22-44) is left out: it covers pandas CSV loading, path resolution and a random sample.
- NIRScanNano/visualization.py and NIRScanNano/__init__.py are not part of this model. The first is plotting and the second only re-exports names.
- `as_wavenumbers` and `as_reflectance` (powers of ten on floats) are left out.
- `scipy.signal.savgol_filter` is the parameter `filter`. Its window/order validation is whatever that parameter returns.
- sklearn's PCA fitting (the SVD) is the parameter `fit`; only the shape of its model is assumed.
- Square root is the parameter `sqrt`; only `IsSqrt` is assumed of it.
- Floating point is modelled as exact reals: no rounding, NaN or infinity.
  - NaN appears only where the source produces it on purpose: a group with fewer than two members has no radius (`None`).
  - A radius entry that is missing or NaN fails the `<` test.
- Analysis.Snv: the population standard deviation must be non-zero (precondition), because constant data divides by zero.
- Analysis.Msc: a constant reference is excluded by precondition. The model fits by the closed form, which needs Sxx > 0; np.polyfit solves by lstsq and returns a finite rank-deficient fit there, which the model does not capture. A zero fitted slope is excluded too, because the division by it would not be finite.
- `np.polyfit` is replaced by the closed-form least-squares line. Its numerical conditioning is not modelled.
- Unicode: `isdigit` is over ASCII digits only. `strip` uses Python's whitespace set, without normalisation.
- The scalar header values are integers and strings, and arrays hold floats. The source never produces a float scalar, so none is modelled.
- pandas `groupby` sorts the group labels. The model keeps labels in order of first appearance, because `HeaderValue` has no ordering. The set of centroids and each centroid's values do not depend on this order.
- pandas `sort_values` does not promise an order for tied distances. The model's insertion sort is stable, and the proved properties do not depend on tie order.
- In pca_centroids the model treats any selected column that is not a score column as KeyError. Selecting "Label" or another non-numeric column is not modelled.
- Course.RadiusOf: when a label appears twice in the radius series, the first entry is used, and pandas' duplicate-index alignment is not modelled. Radii returned by pca_centroids never repeat a label.
- Object identity and aliasing are not modelled. The model does not capture that `Wavelength.copy()` and the spectrum arrays are separate numpy buffers: spectra and containers are values, and only headers are objects.
- In `read_spectrum`, the construction of the final spectrum from the data block is not modelled (it depends on the file data).
- Spectra.Header.constructor: `NIRSpectrumHeader.__init__` forwards `*args, **kwargs` to `dict`; only the no-argument construction, the one the core performs, is modelled.
- Analysis.PCAnalysis.constructor: `ncomp` is a `nat` given explicitly. Its default of 5 is the caller's to pass, and sklearn's other `n_components` forms (a float fraction, "mle", None) are not modelled.
- Default arguments are not modelled as defaults: the model's callers always pass them. They are `read_spectrum`'s nhead=19 and delimiter=",", `_snv` and `snv`'s norm=False, `transform`'s as_pandas=False, `nearest_centroids`'s n_centroids=5 and `pca_to_pandas`'s label=None.
- A group with fewer than two members has no radius: pandas `std` with ddof=1 gives NaN, modelled as None. A transform of the wrong length fails with sklearn's ValueError.
