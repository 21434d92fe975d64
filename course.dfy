/** The centroid classifier of the course utilities: the table of component
    scores per spectrum, per-label centroids with an acceptance radius, the
    ranking of centroids by distance to a query spectrum, and the membership
    test against the radii. Square roots come from the caller as a function
    satisfying IsSqrt. */
module Course {
  import opened Errors
  import opened Text
  import opened Stats
  import opened Spectra
  import opened Analysis

  /** The share of the spread of member distances added to the largest one. */
  const DistanceBuffer: real := 0.25

  /** The header key that the group labels are copied under. */
  const NameKey: string := "Name"

  /** The name of the label column of a score table. */
  const LabelColumn: string := "Label"

  // ---------------------------------------------------------------------------
  // _copy_name

  /** spectrum.header["Name"] = name: the header gains or overwrites "Name"
      and nothing else changes; a spectrum without a header raises TypeError. */
  method CopyName(name: string, s: NIRSpectrum) returns (o: Outcome)
    requires s.header != null ==> s.header.Valid()
    modifies s.header
    ensures s.header == null <==> o == Fail(TypeError)
    ensures s.header != null ==>
      && o == Pass
      && s.header.Valid()
      && s.header.storage == old(s.header.storage)[NameKey := StrValue(name)]
      && s.header.order == if NameKey in old(s.header.storage) then old(s.header.order)
                           else old(s.header.order) + [NameKey]
  {
    if s.header == null {
      return Fail(TypeError);
    }
    s.header.Set(NameKey, StrValue(name));
    o := Pass;
  }

  // ---------------------------------------------------------------------------
  // pca_to_pandas

  /** One row of the score table: the component scores, then the label. */
  datatype Row = Row(coords: seq<real>, group: HeaderValue)

  /** A score table: the names of the numeric columns, followed by a label
      column named "Label", and rows with one score per numeric column. */
  datatype Table = Table(names: seq<string>, rows: seq<Row>)

  type Frame = t: Table | forall i :: 0 <= i < |t.rows| ==> |t.rows[i].coords| == |t.names|
    witness Table([], [])

  /** All the column names of a table, the label column last. */
  function Columns(t: Table): (cs: seq<string>)
    ensures |cs| == |t.names| + 1 && cs[|t.names|] == LabelColumn
    ensures cs[..|t.names|] == t.names
  {
    t.names + [LabelColumn]
  }

  /** The scores of spectrum i, one per component: column i of transformed. */
  function ScoreColumn(pca: PCAnalysis, i: nat): (c: seq<real>)
    reads pca
    requires pca.Valid() && pca.transformed.Some? && i < |pca.spectra|
    ensures |c| == pca.ncomp
    ensures forall n :: 0 <= n < pca.ncomp ==> c[n] == pca.transformed.value[n][i]
  {
    pca.TransformedShape();
    var t := pca.transformed.value;
    seq(pca.ncomp, n requires 0 <= n < pca.ncomp => t[n][i])
  }

  /** pca_to_pandas would index transformed while it is still None. */
  predicate NotTransformed(pca: PCAnalysis)
    reads pca
  {
    |pca.spectra| > 0 && pca.ncomp > 0 && pca.transformed.None?
  }

  /** pca_to_pandas(pca, label): one row per spectrum of pca.spectra, in order,
      holding its component scores and header.get(label, ""), under the columns
      PC1..PCn and "Label". Indexing transformed before run raises TypeError
      (on the first row, when there are components to index), and a spectrum
      without a header raises AttributeError. */
  method PcaToPandas(pca: PCAnalysis, labelKey: Option<string>) returns (r: Result<Frame>)
    requires pca.Valid()
    ensures NotTransformed(pca) ==> r == Err(TypeError)
    ensures !NotTransformed(pca) && (exists i :: 0 <= i < |pca.spectra| && pca.spectra[i].header == null) ==>
              r == Err(AttributeError)
    ensures r.Ok? <==> !NotTransformed(pca) && forall i :: 0 <= i < |pca.spectra| ==> pca.spectra[i].header != null
    ensures r.Ok? ==>
      && Columns(r.value) == pca.ColumnNames() + [LabelColumn]
      && |r.value.rows| == |pca.spectra|
      && forall i :: 0 <= i < |pca.spectra| ==>
           && r.value.rows[i].group == pca.spectra[i].header.GetOr(labelKey, StrValue(""))
           && |r.value.rows[i].coords| == pca.ncomp
           && (pca.ncomp > 0 ==> r.value.rows[i].coords == ScoreColumn(pca, i))
  {
    hide Columns, ScoreColumn, PCAnalysis.Valid, PCAnalysis.ColumnNames, Header.GetOr;
    var rows: seq<Row> := [];
    var i := 0;
    while i < |pca.spectra|
      invariant 0 <= i <= |pca.spectra|
      invariant i > 0 ==> !NotTransformed(pca)
      invariant forall j :: 0 <= j < i ==> pca.spectra[j].header != null
      invariant |rows| == i
      invariant forall j :: 0 <= j < i ==>
        && rows[j].group == pca.spectra[j].header.GetOr(labelKey, StrValue(""))
        && |rows[j].coords| == pca.ncomp
        && (pca.ncomp > 0 ==> rows[j].coords == ScoreColumn(pca, j))
    {
      var coords: seq<real> := [];
      if pca.ncomp > 0 {
        if pca.transformed.None? {
          return Err(TypeError);
        }
        coords := ScoreColumn(pca, i);
      }
      var header := pca.spectra[i].header;
      if header == null {
        return Err(AttributeError);
      }
      rows := rows + [Row(coords, header.GetOr(labelKey, StrValue("")))];
      i := i + 1;
    }
    var names := pca.ColumnNames();
    r := Ok(Table(names, rows));
  }

  /** The columns of a score table are distinct: the component names differ
      from each other and from "Label". */
  lemma ScoreColumnsDistinct(pca: PCAnalysis)
    requires pca.Valid()
    ensures NoDuplicates(pca.ColumnNames() + [LabelColumn])
  {
    pca.ColumnNamesDistinct();
    var names := pca.ColumnNames();
    var cs := names + [LabelColumn];
    forall i, j | 0 <= i < j < |cs| ensures cs[i] != cs[j] {
      if j == |names| {
        assert StartsWith(cs[i], "PC");
        assert cs[i][1] == 'C' && cs[j][1] == 'a';
      } else {
        assert cs[i] == names[i] && cs[j] == names[j];
      }
    }
  }

  // ---------------------------------------------------------------------------
  // pca_centroids

  /** The label of every row, in row order. */
  function Groups(rows: seq<Row>): (ls: seq<HeaderValue>)
    ensures |ls| == |rows| && forall i :: 0 <= i < |rows| ==> ls[i] == rows[i].group
  {
    seq(|rows|, i requires 0 <= i < |rows| => rows[i].group)
  }

  /** The distinct values of s, each once, in the order of first appearance. */
  function Distinct(s: seq<HeaderValue>): (r: seq<HeaderValue>)
    ensures NoDuplicates(r)
    ensures forall x :: x in r <==> x in s
    ensures |r| <= |s|
    decreases |s|
  {
    if s == [] then []
    else
      var d := Distinct(s[..|s| - 1]);
      var x := s[|s| - 1];
      assert s == s[..|s| - 1] + [x];
      if x in d then d else d + [x]
  }

  /** The rows carrying label l, in row order. */
  function Members(rows: seq<Row>, l: HeaderValue): (g: seq<Row>)
    ensures |g| <= |rows|
    ensures forall i :: 0 <= i < |g| ==> g[i].group == l
    ensures forall r :: r in g <==> r in rows && r.group == l
  {
    if rows == [] then []
    else (if rows[0].group == l then [rows[0]] else []) + Members(rows[1..], l)
  }

  /** A row of label l appears in the group as often as in the frame. */
  lemma {:induction false} MembersCount(rows: seq<Row>, l: HeaderValue)
    ensures forall r :: multiset(Members(rows, l))[r] == if r.group == l then multiset(rows)[r] else 0
  {
    if rows != [] {
      assert rows == [rows[0]] + rows[1..];
      MembersCount(rows[1..], l);
    }
  }

  /** The group is taken row by row, keeping the rows' order. */
  lemma {:induction false} MembersAppend(a: seq<Row>, b: seq<Row>, l: HeaderValue)
    ensures Members(a + b, l) == Members(a, l) + Members(b, l)
  {
    if a != [] {
      var h := if a[0].group == l then [a[0]] else [];
      assert (a + b)[1..] == a[1..] + b && (a + b)[0] == a[0];
      assert Members(a + b, l) == h + Members(a[1..] + b, l);
      assert Members(a, l) == h + Members(a[1..], l);
      hide Members;
      MembersAppend(a[1..], b, l);
      ConcatAssoc(h, Members(a[1..], l), Members(b, l));
    } else {
      assert a + b == b;
    }
  }

  /** Every label that occurs has at least one member. */
  lemma MembersOfOccurringLabel(rows: seq<Row>, l: HeaderValue)
    requires l in Groups(rows)
    ensures |Members(rows, l)| > 0
  {
    var i :| 0 <= i < |rows| && Groups(rows)[i] == l;
    assert rows[i] in Members(rows, l);
  }

  /** The first position of x in s. */
  function IndexOf(s: seq<string>, x: string): (k: Option<nat>)
    ensures k.None? <==> x !in s
    ensures k.Some? ==> k.value < |s| && s[k.value] == x && x !in s[..k.value]
  {
    if s == [] then None
    else if s[0] == x then Some(0)
    else
      var k := IndexOf(s[1..], x);
      assert s[1..][..if k.Some? then k.value else 0] == s[1..1 + if k.Some? then k.value else 0];
      if k.None? then None else Some(k.value + 1)
  }

  /** df[data_columns]: the position of each selected numeric column, or
      KeyError when one of them is not a numeric column of the table. */
  function SelectColumns(names: seq<string>, wanted: seq<string>): (r: Result<seq<nat>>)
    ensures r.Err? <==> exists j :: 0 <= j < |wanted| && wanted[j] !in names
    ensures r.Err? ==> r.error == KeyError
    ensures r.Ok? ==> |r.value| == |wanted|
    ensures r.Ok? ==> forall j :: 0 <= j < |wanted| ==> r.value[j] < |names| && names[r.value[j]] == wanted[j]
  {
    if forall j | 0 <= j < |wanted| :: wanted[j] in names
    then Ok(seq(|wanted|, j requires 0 <= j < |wanted| => IndexOf(names, wanted[j]).value))
    else Err(KeyError)
  }

  /** The selected coordinates of every row of a group. */
  function Points(rows: seq<Row>, cols: seq<nat>, w: nat): (p: seq<seq<real>>)
    requires forall i :: 0 <= i < |rows| ==> |rows[i].coords| == w
    requires forall j :: 0 <= j < |cols| ==> cols[j] < w
    ensures |p| == |rows|
    ensures forall i :: 0 <= i < |rows| ==> |p[i]| == |cols|
    ensures forall i, j :: 0 <= i < |rows| && 0 <= j < |cols| ==> p[i][j] == rows[i].coords[cols[j]]
  {
    seq(|rows|, i requires 0 <= i < |rows| =>
      seq(|cols|, j requires 0 <= j < |cols| => rows[i].coords[cols[j]]))
  }

  /** The Euclidean distance of every point to a centre (sub, pow(2), sum(axis=1), pow(1/2)). */
  function Distances(points: seq<seq<real>>, centre: seq<real>, sqrt: real -> real): (d: seq<real>)
    requires forall i :: 0 <= i < |points| ==> |points[i]| == |centre|
    ensures |d| == |points|
    ensures forall i :: 0 <= i < |points| ==> d[i] == sqrt(SquaredDistance(points[i], centre))
  {
    seq(|points|, i requires 0 <= i < |points| => sqrt(SquaredDistance(points[i], centre)))
  }

  /** _group_centroid_distance over the member distances: the largest distance
      plus DistanceBuffer times their sample standard deviation. With fewer than
      two members the deviation, and so the radius, is NaN, written None. */
  function GroupRadius(d: seq<real>, sqrt: real -> real): (r: Option<real>)
    ensures r.Some? <==> |d| >= 2
    ensures r.Some? ==> var m := r.value - sqrt(SampleVariance(d)) * DistanceBuffer;
                        m in d && forall i :: 0 <= i < |d| ==> d[i] <= m
  {
    if |d| < 2 then None
    else Some(MaxOf(d).value + sqrt(SampleVariance(d)) * DistanceBuffer)
  }

  /** The radius is at least every member distance; with distances that are
      never negative (Euclidean ones), it is never negative either. */
  lemma RadiusCoversDistances(d: seq<real>, sqrt: real -> real)
    requires IsSqrt(sqrt) && |d| >= 2
    ensures forall i :: 0 <= i < |d| ==> d[i] <= GroupRadius(d, sqrt).value
    ensures (forall i :: 0 <= i < |d| ==> d[i] >= 0.0) ==> GroupRadius(d, sqrt).value >= 0.0
  {
    SampleVarianceNonNegative(d);
    SqrtZero(sqrt, SampleVariance(d));
    var m := MaxOf(d).value;
    assert m in d;
  }

  /** Euclidean distances are never negative. */
  lemma DistancesNonNegative(points: seq<seq<real>>, centre: seq<real>, sqrt: real -> real)
    requires IsSqrt(sqrt)
    requires forall i :: 0 <= i < |points| ==> |points[i]| == |centre|
    ensures forall i :: 0 <= i < |points| ==> Distances(points, centre, sqrt)[i] >= 0.0
  {
    forall i | 0 <= i < |points| ensures Distances(points, centre, sqrt)[i] >= 0.0 {
      SquaredDistanceZero(points[i], centre);
      SqrtZero(sqrt, SquaredDistance(points[i], centre));
    }
  }

  /** One row of the centroid table: a label and its mean point. */
  datatype Centroid = Centroid(group: HeaderValue, mean: seq<real>)

  /** The centroid table: the selected column names and one centroid per label. */
  datatype CentroidTable = CentroidTable(columns: seq<string>, centroids: seq<Centroid>)

  type Centroids = c: CentroidTable | forall g :: 0 <= g < |c.centroids| ==> |c.centroids[g].mean| == |c.columns|
    witness CentroidTable([], [])

  /** One entry of the radius series, indexed by label. */
  datatype Radius = Radius(group: HeaderValue, radius: Option<real>)

  /** The two results of pca_centroids. */
  datatype CentroidModel = CentroidModel(table: Centroids, radii: seq<Radius>)

  /** The centroid and the radius of the rows labelled l over the selected columns. */
  function GroupSummary(t: Frame, cols: seq<nat>, l: HeaderValue, sqrt: real -> real): (r: (Centroid, Radius))
    requires forall j :: 0 <= j < |cols| ==> cols[j] < |t.names|
    requires l in Groups(t.rows)
    ensures r.0.group == l && r.1.group == l
    ensures |r.0.mean| == |cols|
    ensures r.1.radius.Some? <==> |Members(t.rows, l)| >= 2
  {
    var g := Members(t.rows, l);
    MembersOfOccurringLabel(t.rows, l);
    var p := Points(g, cols, |t.names|);
    var centre := ColumnMeans(p, |cols|);
    (Centroid(l, centre), Radius(l, GroupRadius(Distances(p, centre, sqrt), sqrt)))
  }

  /** Some row is labelled with a float array (a Pixel/Shift header value). */
  predicate HasArrayLabel(rows: seq<Row>) {
    exists i :: 0 <= i < |rows| && rows[i].group.FloatArray?
  }

  /** pca_centroids(df, data_columns): one centroid per distinct label, the
      mean of the label's rows over the selected columns, and beside it the
      label's acceptance radius. KeyError for a column that is not numeric;
      otherwise TypeError when some label is a float array, which is a list
      in the frame and so cannot be hashed for the grouping. */
  function PcaCentroids(t: Frame, dataColumns: seq<string>, sqrt: real -> real): (r: Result<CentroidModel>)
    ensures r.Err? <==> (exists j :: 0 <= j < |dataColumns| && dataColumns[j] !in t.names) || HasArrayLabel(t.rows)
    ensures (exists j :: 0 <= j < |dataColumns| && dataColumns[j] !in t.names) ==> r == Err(KeyError)
    ensures r.Err? && r.error != KeyError ==> r.error == TypeError
    ensures r.Ok? ==>
      && r.value.table.columns == dataColumns
      && |r.value.table.centroids| == |r.value.radii|
      && NoDuplicates(Labels(r.value.table))
      && (forall l :: l in Labels(r.value.table) <==> l in Groups(t.rows))
      && forall g :: 0 <= g < |r.value.radii| ==> r.value.radii[g].group == r.value.table.centroids[g].group
  {
    var cols :- SelectColumns(t.names, dataColumns);
    if HasArrayLabel(t.rows) then Err(TypeError) else
    var labels := Distinct(Groups(t.rows));
    var summaries := seq(|labels|, g requires 0 <= g < |labels| => GroupSummary(t, cols, labels[g], sqrt));
    var table := CentroidTable(dataColumns, seq(|labels|, g requires 0 <= g < |labels| => summaries[g].0));
    assert Labels(table) == labels;
    Ok(CentroidModel(table, seq(|labels|, g requires 0 <= g < |labels| => summaries[g].1)))
  }

  /** The labels of a centroid table, in its row order. */
  function Labels(c: CentroidTable): (ls: seq<HeaderValue>)
    ensures |ls| == |c.centroids| && forall g :: 0 <= g < |ls| ==> ls[g] == c.centroids[g].group
  {
    seq(|c.centroids|, g requires 0 <= g < |c.centroids| => c.centroids[g].group)
  }

  /** Coordinate k of every row. */
  function CoordinateColumn(rows: seq<Row>, k: nat): (c: seq<real>)
    requires forall i :: 0 <= i < |rows| ==> k < |rows[i].coords|
    ensures |c| == |rows| && forall i :: 0 <= i < |rows| ==> c[i] == rows[i].coords[k]
  {
    seq(|rows|, i requires 0 <= i < |rows| => rows[i].coords[k])
  }

  /** Entry g of pca_centroids is the summary of the g-th distinct label. */
  lemma PcaCentroidsAt(t: Frame, dataColumns: seq<string>, sqrt: real -> real, g: nat)
    requires PcaCentroids(t, dataColumns, sqrt).Ok?
    requires g < |PcaCentroids(t, dataColumns, sqrt).value.radii|
    ensures SelectColumns(t.names, dataColumns).Ok?
    ensures var m := PcaCentroids(t, dataColumns, sqrt).value;
            var cols := SelectColumns(t.names, dataColumns).value;
            && (forall j :: 0 <= j < |cols| ==> cols[j] < |t.names|)
            && m.radii[g].group in Groups(t.rows)
            && (m.table.centroids[g], m.radii[g]) == GroupSummary(t, cols, m.radii[g].group, sqrt)
  {
    var labels := Distinct(Groups(t.rows));
    assert labels[g] in Groups(t.rows);
  }

  /** The centre of a summary is the mean of each selected column over the
      label's rows. */
  lemma SummaryCentre(t: Frame, cols: seq<nat>, l: HeaderValue, sqrt: real -> real, j: nat)
    requires forall j :: 0 <= j < |cols| ==> cols[j] < |t.names|
    requires l in Groups(t.rows) && j < |cols|
    ensures |Members(t.rows, l)| > 0
    ensures GroupSummary(t, cols, l, sqrt).0.mean[j] == Mean(CoordinateColumn(Members(t.rows, l), cols[j]))
  {
    var members := Members(t.rows, l);
    MembersOfOccurringLabel(t.rows, l);
    hide Members;
    var p := Points(members, cols, |t.names|);
    assert Column(p, j) == CoordinateColumn(members, cols[j]);
  }

  /** The radius of a summary covers the distances of the label's rows. */
  lemma SummaryRadius(t: Frame, cols: seq<nat>, l: HeaderValue, sqrt: real -> real)
    requires IsSqrt(sqrt)
    requires forall j :: 0 <= j < |cols| ==> cols[j] < |t.names|
    requires l in Groups(t.rows)
    ensures var s := GroupSummary(t, cols, l, sqrt);
            var members := Members(t.rows, l);
            var points := Points(members, cols, |t.names|);
            && (s.1.radius.Some? <==> |members| >= 2)
            && (s.1.radius.Some? ==>
                  && s.1.radius.value >= 0.0
                  && forall i :: 0 <= i < |members| ==>
                       sqrt(SquaredDistance(points[i], s.0.mean)) <= s.1.radius.value)
  {
    var members := Members(t.rows, l);
    MembersOfOccurringLabel(t.rows, l);
    hide Members;
    var points := Points(members, cols, |t.names|);
    var centre := ColumnMeans(points, |cols|);
    var d := Distances(points, centre, sqrt);
    if |members| >= 2 {
      RadiusCoversDistances(d, sqrt);
      DistancesNonNegative(points, centre, sqrt);
    }
  }

  /** Each coordinate of a centroid is the mean of that column over the rows
      with the centroid's label. */
  lemma CentroidIsGroupMean(t: Frame, dataColumns: seq<string>, sqrt: real -> real, g: nat, j: nat)
    requires PcaCentroids(t, dataColumns, sqrt).Ok?
    requires g < |PcaCentroids(t, dataColumns, sqrt).value.table.centroids| && j < |dataColumns|
    ensures dataColumns[j] in t.names
    ensures var c := PcaCentroids(t, dataColumns, sqrt).value.table.centroids[g];
            var members := Members(t.rows, c.group);
            && |members| > 0
            && c.mean[j] == Mean(CoordinateColumn(members, IndexOf(t.names, dataColumns[j]).value))
  {
    PcaCentroidsAt(t, dataColumns, sqrt, g);
    var cols := SelectColumns(t.names, dataColumns).value;
    var m := PcaCentroids(t, dataColumns, sqrt).value;
    hide PcaCentroids, GroupSummary, Members, CoordinateColumn, Mean;
    SummaryCentre(t, cols, m.radii[g].group, sqrt, j);
  }

  /** The radius of a label with two or more rows is at least the distance of
      each of them to the centroid, and is never negative; a label with a single
      row has no radius. */
  lemma RadiusCoversMembers(t: Frame, dataColumns: seq<string>, sqrt: real -> real, g: nat)
    requires IsSqrt(sqrt)
    requires PcaCentroids(t, dataColumns, sqrt).Ok?
    requires g < |PcaCentroids(t, dataColumns, sqrt).value.radii|
    ensures SelectColumns(t.names, dataColumns).Ok?
    ensures var m := PcaCentroids(t, dataColumns, sqrt).value;
            var members := Members(t.rows, m.radii[g].group);
            var points := Points(members, SelectColumns(t.names, dataColumns).value, |t.names|);
            && (m.radii[g].radius.Some? <==> |members| >= 2)
            && (m.radii[g].radius.Some? ==>
                  && m.radii[g].radius.value >= 0.0
                  && forall i :: 0 <= i < |members| ==>
                       sqrt(SquaredDistance(points[i], m.table.centroids[g].mean)) <= m.radii[g].radius.value)
  {
    PcaCentroidsAt(t, dataColumns, sqrt, g);
    var cols := SelectColumns(t.names, dataColumns).value;
    var m := PcaCentroids(t, dataColumns, sqrt).value;
    hide PcaCentroids, GroupSummary, Members, Points, SquaredDistance;
    SummaryRadius(t, cols, m.radii[g].group, sqrt);
  }

  // ---------------------------------------------------------------------------
  // _centroid_distance and nearest_centroids

  /** The squared differences of df.sub(s).pow(2) between a centroid and a
      query series, aligned by name: a centroid column the query lacks is NaN
      after the subtraction and sum(axis=1) skips it, so it contributes 0. */
  function AlignedSquares(columns: seq<string>, point: seq<real>, index: seq<string>, values: seq<real>): (t: seq<real>)
    requires |point| == |columns| && |index| == |values|
    ensures |t| == |columns|
    ensures forall j :: 0 <= j < |columns| ==>
      t[j] == match IndexOf(index, columns[j]) {
                case None => 0.0
                case Some(k) => Square(point[j] - values[k])
              }
  {
    seq(|columns|, j requires 0 <= j < |columns| =>
      match IndexOf(index, columns[j]) {
        case None => 0.0
        case Some(k) => Square(point[j] - values[k])
      })
  }

  /** The Euclidean distance between a centroid and the query over the
      columns they share. */
  function AlignedDistance(columns: seq<string>, point: seq<real>, index: seq<string>, values: seq<real>,
                           sqrt: real -> real): (d: real)
    requires |point| == |columns| && |index| == |values|
    ensures IsSqrt(sqrt) ==> d >= 0.0 && Square(d) == Sum(AlignedSquares(columns, point, index, values))
  {
    AlignedSquaresNonNegative(columns, point, index, values);
    sqrt(Sum(AlignedSquares(columns, point, index, values)))
  }

  /** Every aligned squared difference, and so their sum, is non-negative;
      an entry is zero exactly where the centroid agrees with the query. */
  lemma AlignedSquaresNonNegative(columns: seq<string>, point: seq<real>, index: seq<string>, values: seq<real>)
    requires |point| == |columns| && |index| == |values|
    ensures forall j :: 0 <= j < |columns| ==> AlignedSquares(columns, point, index, values)[j] >= 0.0
    ensures Sum(AlignedSquares(columns, point, index, values)) >= 0.0
  {
    var t := AlignedSquares(columns, point, index, values);
    forall j | 0 <= j < |t| ensures t[j] >= 0.0 {
      var k := IndexOf(index, columns[j]);
      if k.Some? {
        SquareSign(point[j] - values[k.value]);
      }
    }
    SumNonNegative(t);
  }

  /** A centroid and the query agree on column j, or the query lacks it. */
  predicate AgreesOn(columns: seq<string>, point: seq<real>, index: seq<string>, values: seq<real>, j: nat)
    requires |point| == |columns| && |index| == |values| && j < |columns|
  {
    IndexOf(index, columns[j]).Some? ==> point[j] == values[IndexOf(index, columns[j]).value]
  }

  /** The distance is never negative, and it is zero exactly when the centroid
      equals the query on every column they share. */
  lemma AlignedDistanceZero(columns: seq<string>, point: seq<real>, index: seq<string>, values: seq<real>,
                            sqrt: real -> real)
    requires IsSqrt(sqrt)
    requires |point| == |columns| && |index| == |values|
    ensures AlignedDistance(columns, point, index, values, sqrt) >= 0.0
    ensures AlignedDistance(columns, point, index, values, sqrt) == 0.0 <==>
            forall j :: 0 <= j < |columns| ==> AgreesOn(columns, point, index, values, j)
  {
    var t := AlignedSquares(columns, point, index, values);
    forall j | 0 <= j < |t| ensures t[j] >= 0.0 && (t[j] == 0.0 <==> AgreesOn(columns, point, index, values, j)) {
      var k := IndexOf(index, columns[j]);
      if k.Some? {
        SquareSign(point[j] - values[k.value]);
      }
    }
    SumNonNegative(t);
    SumZero(t);
    SqrtZero(sqrt, Sum(t));
  }

  /** In a sequence without duplicates, each entry is first found at its own position. */
  lemma IndexOfDistinct(columns: seq<string>, j: nat)
    requires NoDuplicates(columns) && j < |columns|
    ensures IndexOf(columns, columns[j]) == Some(j)
  {
  }

  /** With the query labelled by exactly the centroid's columns (distinct
      names, as the component names are), the distance is zero exactly when the
      centroid is the query point. */
  lemma SameColumnsDistanceZero(columns: seq<string>, point: seq<real>, values: seq<real>, sqrt: real -> real)
    requires IsSqrt(sqrt) && NoDuplicates(columns)
    requires |point| == |columns| == |values|
    ensures AlignedDistance(columns, point, columns, values, sqrt) == 0.0 <==> point == values
  {
    AlignedDistanceZero(columns, point, columns, values, sqrt);
    hide AlignedDistance, IndexOf;
    forall j | 0 <= j < |columns|
      ensures AgreesOn(columns, point, columns, values, j) <==> point[j] == values[j]
    {
      IndexOfDistinct(columns, j);
    }
    if point != values {
      var j :| 0 <= j < |columns| && point[j] != values[j];
      assert !AgreesOn(columns, point, columns, values, j);
    }
  }

  /** One entry of a distance series: a label and its distance. */
  datatype Ranked = Ranked(group: HeaderValue, distance: real)

  /** _centroid_distance(centroids, s): the distance from the query series to
      every centroid, labelled by the centroid's label, in table order. */
  function CentroidDistances(c: Centroids, index: seq<string>, values: seq<real>, sqrt: real -> real): (d: seq<Ranked>)
    requires |index| == |values|
    ensures |d| == |c.centroids|
    ensures forall g :: 0 <= g < |d| ==>
      d[g] == Ranked(c.centroids[g].group, AlignedDistance(c.columns, c.centroids[g].mean, index, values, sqrt))
  {
    seq(|c.centroids|, g requires 0 <= g < |c.centroids| =>
      Ranked(c.centroids[g].group, AlignedDistance(c.columns, c.centroids[g].mean, index, values, sqrt)))
  }

  predicate Ascending(s: seq<Ranked>) {
    forall i, j :: 0 <= i < j < |s| ==> s[i].distance <= s[j].distance
  }

  /** x placed into a sequence before the first entry farther than it. */
  function Insert(x: Ranked, s: seq<Ranked>): (r: seq<Ranked>)
    ensures multiset(r) == multiset(s) + multiset{x}
  {
    if s == [] then [x]
    else if x.distance <= s[0].distance then [x] + s
    else
      assert s == [s[0]] + s[1..];
      [s[0]] + Insert(x, s[1..])
  }

  /** A bound below x and below every entry of s is below every entry of Insert(x, s). */
  lemma {:induction false} InsertLowerBound(x: Ranked, s: seq<Ranked>, b: real)
    requires b <= x.distance && forall i :: 0 <= i < |s| ==> b <= s[i].distance
    ensures forall i :: 0 <= i < |Insert(x, s)| ==> b <= Insert(x, s)[i].distance
  {
    if s != [] && x.distance > s[0].distance {
      InsertLowerBound(x, s[1..], b);
    }
  }

  /** Inserting into an ascending sequence keeps it ascending. */
  lemma {:induction false} InsertAscending(x: Ranked, s: seq<Ranked>)
    requires Ascending(s)
    ensures Ascending(Insert(x, s))
  {
    if s != [] && x.distance > s[0].distance {
      InsertAscending(x, s[1..]);
      InsertLowerBound(x, s[1..], s[0].distance);
    }
  }

  /** Series.sort_values(): ascending by distance, the same entries. */
  function SortByDistance(s: seq<Ranked>): (r: seq<Ranked>)
    ensures Ascending(r)
    ensures multiset(r) == multiset(s)
  {
    if s == [] then []
    else
      assert s == [s[0]] + s[1..];
      var rest := SortByDistance(s[1..]);
      InsertAscending(s[0], rest);
      Insert(s[0], rest)
  }

  /** Every entry of the front part of an ascending sequence is at most every
      entry of the back part. */
  lemma AscendingSplit(a: seq<Ranked>, b: seq<Ranked>)
    requires Ascending(a + b)
    ensures forall x, y :: x in a && y in b ==> x.distance <= y.distance
  {
    forall x, y | x in a && y in b ensures x.distance <= y.distance {
      var i :| 0 <= i < |a| && a[i] == x;
      var j :| 0 <= j < |b| && b[j] == y;
      assert (a + b)[i] == x && (a + b)[|a| + j] == y;
    }
  }

  /** The Python slice s[:n]: the first n entries, all of them when n is at
      least the length, and all but the last -n when n is negative. */
  function Head<T>(s: seq<T>, n: int): (r: seq<T>)
    ensures 0 <= n <= |s| ==> r == s[..n]
    ensures n > |s| ==> r == s
    ensures n < 0 && |s| + n >= 0 ==> r == s[..|s| + n]
    ensures n < 0 && |s| + n < 0 ==> r == []
    ensures |r| <= |s| && r == s[..|r|]
  {
    if n >= 0 then (if n <= |s| then s[..n] else s)
    else if |s| + n >= 0 then s[..|s| + n]
    else []
  }

  /** nearest_centroids(spectrum, pca, centroids, n): the centroid distances of
      the spectrum's labelled projection, nearest first, cut to the first n.
      Errors of the projection are raised unchanged. */
  function NearestCentroids(s: NIRSpectrum, pca: PCAnalysis, c: Centroids, n: int, sqrt: real -> real): (r: Result<seq<Ranked>>)
    reads pca
    requires pca.Valid()
    ensures pca.Transform(s, true).Err? ==> r == Err(pca.Transform(s, true).error)
    ensures pca.Transform(s, true).Ok? <==> r.Ok?
  {
    var p :- pca.Transform(s, true);
    var d := CentroidDistances(c, p.index, p.values, sqrt);
    Ok(Head(SortByDistance(d), n))
  }

  /** A prefix and the rest of an ascending sequence: the prefix is ascending,
      the two together hold the same entries, and the prefix entries are the
      nearer ones. */
  lemma AscendingPrefix(sorted: seq<Ranked>, k: nat)
    requires Ascending(sorted) && k <= |sorted|
    ensures Ascending(sorted[..k])
    ensures multiset(sorted) == multiset(sorted[..k]) + multiset(sorted[k..])
    ensures forall x, y :: x in sorted[..k] && y in sorted[k..] ==> x.distance <= y.distance
  {
    assert sorted == sorted[..k] + sorted[k..];
    AscendingSplit(sorted[..k], sorted[k..]);
  }

  /** The first n entries of the sorted sequence: min(n, |d|) of them for
      n >= 0, ascending, taken from d, and none farther than any entry left out. */
  lemma HeadOfSorted(d: seq<Ranked>, n: int)
    ensures var r := Head(SortByDistance(d), n);
            && (n >= 0 ==> |r| == if n <= |d| then n else |d|)
            && Ascending(r)
            && multiset(r) <= multiset(d)
            && forall x, y :: x in r && y in multiset(d) - multiset(r) ==> x.distance <= y.distance
  {
    var sorted := SortByDistance(d);
    var r := Head(sorted, n);
    assert |sorted| == |d| by { assert |multiset(sorted)| == |multiset(d)|; }
    var k := |r|;
    AscendingPrefix(sorted, k);
    hide SortByDistance, Head, Ascending;
    var rest := sorted[k..];
    assert multiset(d) - multiset(r) == multiset(rest);
    forall x, y | x in r && y in multiset(d) - multiset(r) ensures x.distance <= y.distance {
      assert y in rest;
    }
  }

  /** The ranking keeps min(n, number of centroids) entries for n >= 0, each a
      centroid's label and distance, nearest first, and every centroid left out
      is at least as far as every one kept. */
  lemma NearestCentroidsRanking(s: NIRSpectrum, pca: PCAnalysis, c: Centroids, n: int, sqrt: real -> real)
    requires pca.Valid()
    requires NearestCentroids(s, pca, c, n, sqrt).Ok?
    ensures pca.Transform(s, true).Ok? && pca.Transform(s, true).value.Labelled?
    ensures var r := NearestCentroids(s, pca, c, n, sqrt).value;
            var p := pca.Transform(s, true).value;
            var d := CentroidDistances(c, p.index, p.values, sqrt);
            && (n >= 0 ==> |r| == if n <= |c.centroids| then n else |c.centroids|)
            && Ascending(r)
            && multiset(r) <= multiset(d)
            && forall x, y :: x in r && y in multiset(d) - multiset(r) ==> x.distance <= y.distance
  {
    var p := pca.Transform(s, true).value;
    var d := CentroidDistances(c, p.index, p.values, sqrt);
    HeadOfSorted(d, n);
  }

  // ---------------------------------------------------------------------------
  // eval_distances

  /** d_max[label], or None when the label has no entry or its radius is NaN. */
  function RadiusOf(radii: seq<Radius>, l: HeaderValue): (r: Option<real>)
    ensures r.Some? ==> exists g :: 0 <= g < |radii| && radii[g].group == l && radii[g].radius == r
  {
    if radii == [] then None
    else if radii[0].group == l then radii[0].radius
    else
      var r := RadiusOf(radii[1..], l);
      assert r.Some? ==> exists g :: 0 <= g < |radii[1..]| && radii[1..][g].group == l && radii[1..][g].radius == r;
      r
  }

  /** Entry x lies strictly inside the radius of its label. */
  predicate Inside(x: Ranked, radii: seq<Radius>) {
    RadiusOf(radii, x.group).Some? && x.distance - RadiusOf(radii, x.group).value < 0.0
  }

  /** eval_distances(d, d_max): the labels of d, in d's order, whose distance
      is strictly below their radius; labels without a radius are dropped. */
  function EvalDistances(d: seq<Ranked>, radii: seq<Radius>): (ls: seq<HeaderValue>)
    ensures |ls| <= |d|
    ensures forall i :: 0 <= i < |d| && Inside(d[i], radii) ==> d[i].group in ls
  {
    if d == [] then []
    else
      var rest := EvalDistances(d[1..], radii);
      assert forall i :: 1 <= i < |d| ==> d[i] == d[1..][i - 1];
      (if Inside(d[0], radii) then [d[0].group] else []) + rest
  }

  /** Only labels of d that lie inside their radius are returned. */
  lemma {:induction false} EvalDistancesSound(d: seq<Ranked>, radii: seq<Radius>, l: HeaderValue)
    requires l in EvalDistances(d, radii)
    ensures exists i :: 0 <= i < |d| && d[i].group == l && Inside(d[i], radii)
  {
    if !(Inside(d[0], radii) && d[0].group == l) {
      EvalDistancesSound(d[1..], radii, l);
      var i :| 0 <= i < |d[1..]| && d[1..][i].group == l && Inside(d[1..][i], radii);
      assert d[i + 1] == d[1..][i];
    }
  }

  /** The test keeps the order of d: evaluating d as two parts and joining the
      answers gives the answer for the whole. */
  lemma {:induction false} EvalDistancesAppend(a: seq<Ranked>, b: seq<Ranked>, radii: seq<Radius>)
    ensures EvalDistances(a + b, radii) == EvalDistances(a, radii) + EvalDistances(b, radii)
  {
    if a == [] {
      assert a + b == b;
    } else {
      assert (a + b)[1..] == a[1..] + b;
      EvalDistancesAppend(a[1..], b, radii);
    }
  }

  /** Among distinct labels, the lookup finds each entry's own radius. */
  lemma {:induction false} RadiusOfDistinct(radii: seq<Radius>, g: nat)
    requires g < |radii|
    requires forall i, j :: 0 <= i < j < |radii| ==> radii[i].group != radii[j].group
    ensures RadiusOf(radii, radii[g].group) == radii[g].radius
  {
    if g > 0 {
      assert radii[0].group != radii[g].group;
      RadiusOfDistinct(radii[1..], g - 1);
      assert radii[1..][g - 1] == radii[g];
    }
  }

  /** Every label of pca_centroids is looked up to its own radius. */
  lemma CentroidRadiusLookup(t: Frame, dataColumns: seq<string>, sqrt: real -> real, g: nat)
    requires PcaCentroids(t, dataColumns, sqrt).Ok?
    requires g < |PcaCentroids(t, dataColumns, sqrt).value.radii|
    ensures var m := PcaCentroids(t, dataColumns, sqrt).value;
            RadiusOf(m.radii, m.table.centroids[g].group) == m.radii[g].radius
  {
    var m := PcaCentroids(t, dataColumns, sqrt).value;
    hide PcaCentroids;
    var ls := Labels(m.table);
    forall i, j | 0 <= i < j < |m.radii| ensures m.radii[i].group != m.radii[j].group {
      assert ls[i] != ls[j];
    }
    RadiusOfDistinct(m.radii, g);
  }

  /** Two entries already in ascending order sort to themselves. */
  lemma SortTwo(a: Ranked, b: Ranked)
    requires a.distance <= b.distance
    ensures SortByDistance([a, b]) == [a, b]
  {
    assert [a, b][1..] == [b];
    assert SortByDistance([b]) == [b];
  }

  /** The squared differences to the query (1, 1) under the columns PC1, PC2. */
  lemma ExampleSquares(p: real)
    ensures AlignedSquares(["PC1", "PC2"], [p, p], ["PC1", "PC2"], [1.0, 1.0]) == [Square(p - 1.0), Square(p - 1.0)]
  {
    var columns := ["PC1", "PC2"];
    assert IndexOf(columns, "PC1") == Some(0);
    assert IndexOf(columns, "PC2") == Some(1) by {
      assert columns[1..] == ["PC2"];
    }
  }

  lemma SumPair(x: real)
    ensures Sum([x, x]) == 2.0 * x
  {
    assert [x, x][1..] == [x] && [x][1..] == [];
    assert Sum([x]) == x;
  }

  /** The distances from (1, 1) to the centroids (0, 0) and (10, 10). */
  lemma ExampleDistances(sqrt: real -> real)
    ensures var c: Centroids := CentroidTable(["PC1", "PC2"], [Centroid(StrValue("A"), [0.0, 0.0]),
                                                                Centroid(StrValue("B"), [10.0, 10.0])]);
            CentroidDistances(c, ["PC1", "PC2"], [1.0, 1.0], sqrt)
              == [Ranked(StrValue("A"), sqrt(2.0)), Ranked(StrValue("B"), sqrt(162.0))]
  {
    var columns := ["PC1", "PC2"];
    ExampleSquares(0.0);
    ExampleSquares(10.0);
    assert Square(0.0 - 1.0) == 1.0 && Square(10.0 - 1.0) == 81.0;
    SumPair(1.0);
    SumPair(81.0);
    hide Sum, AlignedSquares, Square;
  }

  /** Two labels, "A" with centroid (0, 0) and "B" with centroid (10, 10), and a
      query projected to (1, 1): the ranking is A then B, and with radius 2 for
      A and 1 for B only A accepts the query. */
  lemma TwoGroupExample(sqrt: real -> real)
    requires IsSqrt(sqrt)
    ensures var c: Centroids := CentroidTable(["PC1", "PC2"], [Centroid(StrValue("A"), [0.0, 0.0]),
                                                                Centroid(StrValue("B"), [10.0, 10.0])]);
            var ranking := SortByDistance(CentroidDistances(c, ["PC1", "PC2"], [1.0, 1.0], sqrt));
            var radii := [Radius(StrValue("A"), Some(2.0)), Radius(StrValue("B"), Some(1.0))];
            && |ranking| == 2 && ranking[0].group == StrValue("A") && ranking[1].group == StrValue("B")
            && EvalDistances(ranking, radii) == [StrValue("A")]
  {
    ExampleDistances(sqrt);
    SqrtBelow(sqrt, 2.0, 2.0);
    SqrtAbove(sqrt, 162.0, 12.0);
    var a, b := Ranked(StrValue("A"), sqrt(2.0)), Ranked(StrValue("B"), sqrt(162.0));
    SortTwo(a, b);
    var radii := [Radius(StrValue("A"), Some(2.0)), Radius(StrValue("B"), Some(1.0))];
    hide CentroidDistances, SortByDistance;
    assert RadiusOf(radii, StrValue("B")) == Some(1.0) by {
      assert radii[1..] == [Radius(StrValue("B"), Some(1.0))];
    }
    assert Inside(a, radii) && !Inside(b, radii);
    assert [a, b][1..] == [b];
    assert EvalDistances([b], radii) == [];
  }
}
