/**
 * The metrics aggregator: load the four metric columns with best-effort
 * numeric coercion, then compute global and per-category aggregates.
 */
module ProductMetrics {
  import opened Wrappers
  import opened Tables
  import opened Aggregates

  const Category: string := "Category"
  const BaseYield: string := "BaseYield"
  const Cost: string := "Cost"
  const EnvironmentalImpact: string := "EnvironmentalImpact"

  /** The columns the loader reads (`usecols`). */
  const MetricColumns: set<string> := {Category, BaseYield, Cost, EnvironmentalImpact}

  /** The columns the loader coerces to numbers, in the order it visits them. */
  const NumericMetricColumns: seq<string> := [BaseYield, Cost, EnvironmentalImpact]

  /**
   * What loading promises: the frame keeps the rows and exactly the metric
   * columns the file has; each numeric metric column holds, row by row, the
   * coerced cell (missing when the text does not parse); Category keeps its
   * raw cells.
   */
  ghost predicate LoadedFrom(raw: Table, df: Frame, parse: NumberParser)
  {
    && df.height == raw.height
    && (forall c :: HasColumn(df, c) <==> c in raw.columns && c in MetricColumns)
    && (forall c :: c in NumericMetricColumns && c in raw.columns ==>
          && c in df.numeric
          && |df.numeric[c]| == |raw.columns[c]|
          && forall i :: 0 <= i < |raw.columns[c]| ==> df.numeric[c][i] == Coerce(raw.columns[c][i], parse))
    && (forall c :: c in df.text ==> c in raw.columns && df.text[c] == raw.columns[c])
  }

  /** A frame the aggregation can take: well formed, Category as text, the rest numeric. */
  predicate MetricsReady(df: Frame)
  {
    && FrameWellFormed(df)
    && Category !in df.numeric
    && BaseYield !in df.text && Cost !in df.text && EnvironmentalImpact !in df.text
  }

  /** The requested columns the file lacks; `read_csv(usecols=...)` raises ValueError on any. */
  function MissingUseCols(raw: Table): (r: seq<string>)
    ensures forall c :: c in r <==> c in MetricColumns && c !in raw.columns
  {
    (if Category in raw.columns then [] else [Category])
    + (if BaseYield in raw.columns then [] else [BaseYield])
    + (if Cost in raw.columns then [] else [Cost])
    + (if EnvironmentalImpact in raw.columns then [] else [EnvironmentalImpact])
  }

  /**
   * `load_dataset` after the file read: fail when a requested column is
   * missing, otherwise keep the metric columns and overwrite each numeric
   * metric column with its coerced cells.
   */
  method LoadDataset(raw: Table, parse: NumberParser) returns (r: Result<Frame, seq<string>>)
    requires WellFormed(raw)
    ensures r.Failure? <==> !(MetricColumns <= raw.columns.Keys)
    ensures r.Failure? ==> r.error == MissingUseCols(raw)
    ensures r.Success? ==> LoadedFrom(raw, r.value, parse) && MetricsReady(r.value)
  {
    var missing := MissingUseCols(raw);
    if missing != [] {
      assert !(MetricColumns <= raw.columns.Keys) by {
        assert missing[0] in missing;
      }
      return Failure(missing);
    }
    var df := Frame(raw.height, Restrict(raw.columns, MetricColumns), map[]);
    df := CoerceColumns(df, NumericMetricColumns, parse);
    return Success(df);
  }

  /** The loop of `load_dataset`: `df[col] = pd.to_numeric(df[col], errors="coerce")` per existing column. */
  method CoerceColumns(df0: Frame, cols: seq<string>, parse: NumberParser) returns (df: Frame)
    requires FrameWellFormed(df0)
    ensures FrameWellFormed(df) && df.height == df0.height
    ensures forall c :: HasColumn(df, c) <==> HasColumn(df0, c)
    ensures forall c :: c in cols && c in df0.text ==> c in df.numeric && df.numeric[c] == ToNumericColumn(df0.text[c], parse)
    ensures forall c :: c in cols ==> c !in df.text
    ensures forall c :: c in df.text ==> c in df0.text && df.text[c] == df0.text[c]
    ensures forall c :: c in df0.text && c !in cols ==> c in df.text
    ensures forall c :: c in df0.numeric && c !in cols ==> c in df.numeric && df.numeric[c] == df0.numeric[c]
    ensures forall c :: c in df.numeric ==> c in df0.numeric || (c in cols && c in df0.text)
  {
    df := df0;
    var i := 0;
    while i < |cols|
      invariant 0 <= i <= |cols|
      invariant FrameWellFormed(df) && df.height == df0.height
      invariant forall c :: HasColumn(df, c) <==> HasColumn(df0, c)
      invariant forall c :: c in cols[..i] && c in df0.text ==> c in df.numeric && df.numeric[c] == ToNumericColumn(df0.text[c], parse)
      invariant forall c :: c in cols[..i] ==> c !in df.text
      invariant forall c :: c in df.text ==> c in df0.text && df.text[c] == df0.text[c]
      invariant forall c :: c in df0.text && c !in cols[..i] ==> c in df.text
      invariant forall c :: c in df0.numeric && c !in cols[..i] ==> c in df.numeric && df.numeric[c] == df0.numeric[c]
      invariant forall c :: c in df.numeric ==> c in df0.numeric || (c in cols[..i] && c in df0.text)
    {
      var col := cols[i];
      assert cols[..i + 1] == cols[..i] + [col];
      if col in df.text {
        assert df.text[col] == df0.text[col];
        df := df.(text := df.text - {col}, numeric := df.numeric[col := ToNumericColumn(df.text[col], parse)]);
      }
      i := i + 1;
    }
    assert cols[..i] == cols;
  }

  // ---------------------------------------------------------------------
  // compute_metrics

  /** Aggregates of one category; `None` where pandas gave NaN. */
  datatype CategoryMetrics = CategoryMetrics(count: nat, avgYield: Option<real>, totalCost: Option<real>, avgEnvImpact: Option<real>)

  datatype Metrics = Metrics(
    rows: nat,
    averageBaseYield: Option<FloatValue>,
    totalCost: Option<real>,
    averageEnvironmentalImpact: Option<FloatValue>,
    byCategory: map<string, CategoryMetrics>)

  /** `float(x) if pd.notna(x) else None` */
  function NotNa(v: FloatValue): (r: Option<real>)
    ensures r.Some? <==> v.Num?
    ensures r.Some? ==> r.value == v.x
  {
    if v.Num? then Some(v.x) else None
  }

  /** `str(cat)`: a category's text, and "nan" for the missing-category bucket. */
  function Label(c: Cell): (s: string)
    ensures c.Some? ==> s == c.value
    ensures s == "nan" <==> c.None? || c == Some("nan")
  {
    if c.Some? then c.value else "nan"
  }

  function Labels(cats: seq<Cell>): (r: seq<string>)
    ensures |r| == |cats|
    ensures forall i :: 0 <= i < |cats| ==> r[i] == Label(cats[i])
  {
    seq(|cats|, i requires 0 <= i < |cats| => Label(cats[i]))
  }

  /** `float(df[name].mean()) if name in df else None` */
  function ColumnMean(df: Frame, name: string): (r: Option<FloatValue>)
    ensures r.None? <==> name !in df.numeric
    ensures r.Some? ==> (r.value.NaN? <==> forall i :: 0 <= i < |df.numeric[name]| ==> df.numeric[name][i].None?)
  {
    if name in df.numeric then
      MeanNaNIff(df.numeric[name]);
      Some(MeanOf(df.numeric[name]))
    else None
  }

  /** A frame with a Category column and every aggregated column: the grouping succeeds on it. */
  predicate ReadyToGroup(df: Frame)
  {
    && MetricsReady(df) && Category in df.text
    && BaseYield in df.numeric && Cost in df.numeric && EnvironmentalImpact in df.numeric
  }

  /** The aggregated columns that are missing; `groupby(...).agg` raises KeyError on any. */
  function MissingAggColumns(df: Frame): (r: seq<string>)
    ensures forall c :: c in r <==> c in NumericMetricColumns && c !in df.numeric
  {
    (if BaseYield in df.numeric then [] else [BaseYield])
    + (if Cost in df.numeric then [] else [Cost])
    + (if EnvironmentalImpact in df.numeric then [] else [EnvironmentalImpact])
  }

  /** The aggregates of the rows whose label is `k`. */
  function CategoryOf(labels: seq<string>, baseYields: seq<Option<real>>, costs: seq<Option<real>>,
                      envs: seq<Option<real>>, k: string): (r: CategoryMetrics)
    requires |baseYields| == |labels| && |costs| == |labels| && |envs| == |labels|
    ensures r.count > 0 <==> k in labels
    ensures r.totalCost.Some?
  {
    CategoryMetrics(
      multiset(labels)[k],
      NotNa(MeanOf(GroupValues(labels, baseYields, k))),
      NotNa(Num(SumOf(GroupValues(labels, costs, k)))),
      NotNa(MeanOf(GroupValues(labels, envs, k))))
  }

  /** `by_cat`: one entry per distinct label. */
  function ByCategory(labels: seq<string>, baseYields: seq<Option<real>>, costs: seq<Option<real>>,
                      envs: seq<Option<real>>): (m: map<string, CategoryMetrics>)
    requires |baseYields| == |labels| && |costs| == |labels| && |envs| == |labels|
    ensures m.Keys == set i | 0 <= i < |labels| :: labels[i]
  {
    map k | k in labels :: CategoryOf(labels, baseYields, costs, envs, k)
  }

  /**
   * `compute_metrics`. Global aggregates are `None` for an absent column;
   * grouping happens only when Category exists and then needs all three
   * aggregated columns (pandas raises KeyError otherwise).
   */
  function ComputeMetrics(df: Frame): (r: Result<Metrics, seq<string>>)
    requires MetricsReady(df)
    ensures r.Failure? <==> Category in df.text && MissingAggColumns(df) != []
    ensures r.Success? ==> r.value.rows == df.height
    ensures r.Success? && BaseYield in df.numeric ==> r.value.averageBaseYield == Some(MeanOf(df.numeric[BaseYield]))
    ensures r.Success? && Cost in df.numeric ==> r.value.totalCost == Some(SumOf(df.numeric[Cost]))
    ensures r.Success? && EnvironmentalImpact in df.numeric ==>
      r.value.averageEnvironmentalImpact == Some(MeanOf(df.numeric[EnvironmentalImpact]))
    ensures r.Success? ==>
      && (r.value.averageBaseYield.None? <==> !HasColumn(df, BaseYield))
      && (r.value.totalCost.None? <==> !HasColumn(df, Cost))
      && (r.value.averageEnvironmentalImpact.None? <==> !HasColumn(df, EnvironmentalImpact))
    ensures r.Success? && !HasColumn(df, Category) ==> r.value.byCategory == map[]
    ensures r.Success? && HasColumn(df, Category) ==>
      r.value.byCategory.Keys == set i | 0 <= i < df.height :: Label(df.text[Category][i])
  {
    var averageYield := ColumnMean(df, BaseYield);
    var totalCost := if Cost in df.numeric then Some(SumOf(df.numeric[Cost])) else None;
    var averageEnv := ColumnMean(df, EnvironmentalImpact);
    if Category !in df.text then
      Success(Metrics(df.height, averageYield, totalCost, averageEnv, map[]))
    else if MissingAggColumns(df) != [] then
      Failure(MissingAggColumns(df))
    else
      var labels := Labels(df.text[Category]);
      var byCat := ByCategory(labels, df.numeric[BaseYield], df.numeric[Cost], df.numeric[EnvironmentalImpact]);
      Success(Metrics(df.height, averageYield, totalCost, averageEnv, byCat))
  }

  // ---------------------------------------------------------------------
  // What the aggregates mean

  /** A loaded file has every aggregated column, so aggregation never fails on it. */
  lemma LoadedFrameAggregates(raw: Table, df: Frame, parse: NumberParser)
    requires LoadedFrom(raw, df, parse) && MetricsReady(df)
    requires MetricColumns <= raw.columns.Keys
    ensures ComputeMetrics(df).Success?
    ensures ComputeMetrics(df).value.averageBaseYield.Some?
    ensures ComputeMetrics(df).value.totalCost.Some?
    ensures ComputeMetrics(df).value.averageEnvironmentalImpact.Some?
    ensures ComputeMetrics(df).value.byCategory.Keys == set i | 0 <= i < df.height :: Label(df.text[Category][i])
  {
    assert HasColumn(df, Category) && HasColumn(df, BaseYield);
    assert HasColumn(df, Cost) && HasColumn(df, EnvironmentalImpact);
    assert MissingAggColumns(df) == [];
  }

  /** The labels of a frame that can be grouped. */
  function FrameLabels(df: Frame): (labels: seq<string>)
    requires MetricsReady(df) && Category in df.text
    ensures |labels| == df.height
  {
    Labels(df.text[Category])
  }

  /**
   * One category's entry: its row count, the sum of its present costs (never
   * NaN), and averages that are missing exactly when the group has no
   * present value in that column.
   */
  lemma CategoryMetricsMeaning(df: Frame, k: string)
    requires ReadyToGroup(df) && k in FrameLabels(df)
    ensures ComputeMetrics(df).Success? && k in ComputeMetrics(df).value.byCategory
    ensures var m := ComputeMetrics(df).value.byCategory[k];
      && m.count == multiset(FrameLabels(df))[k] > 0
      && m.totalCost == Some(SumOf(GroupValues(FrameLabels(df), df.numeric[Cost], k)))
    ensures var m := ComputeMetrics(df).value.byCategory[k];
      m.avgYield.None? <==> forall i :: 0 <= i < df.height && FrameLabels(df)[i] == k ==> df.numeric[BaseYield][i].None?
    ensures var m := ComputeMetrics(df).value.byCategory[k];
      m.avgEnvImpact.None? <==> forall i :: 0 <= i < df.height && FrameLabels(df)[i] == k ==> df.numeric[EnvironmentalImpact][i].None?
    ensures var m := ComputeMetrics(df).value.byCategory[k];
      m.avgYield.Some? ==> MeanOf(GroupValues(FrameLabels(df), df.numeric[BaseYield], k)) == Num(m.avgYield.value)
    ensures var m := ComputeMetrics(df).value.byCategory[k];
      m.avgEnvImpact.Some? ==>
        MeanOf(GroupValues(FrameLabels(df), df.numeric[EnvironmentalImpact], k)) == Num(m.avgEnvImpact.value)
  {
    var labels := FrameLabels(df);
    var i :| 0 <= i < |labels| && labels[i] == k;
    assert MissingAggColumns(df) == [];
    GroupNaNIff(labels, df.numeric[BaseYield], k);
    GroupNaNIff(labels, df.numeric[EnvironmentalImpact], k);
  }

  /** The entries' counts added up over the keys `ks`. */
  function SumCounts(m: map<string, CategoryMetrics>, ks: seq<string>): nat
    requires forall i :: 0 <= i < |ks| ==> ks[i] in m
  {
    if ks == [] then 0 else SumCounts(m, ks[..|ks| - 1]) + m[ks[|ks| - 1]].count
  }

  /** The entries' total costs added up over the keys `ks`. */
  function SumTotalCosts(m: map<string, CategoryMetrics>, ks: seq<string>): real
    requires forall i :: 0 <= i < |ks| ==> ks[i] in m
  {
    if ks == [] then 0.0 else SumTotalCosts(m, ks[..|ks| - 1]) + ValueOrZero(m[ks[|ks| - 1]].totalCost)
  }

  lemma {:induction false} ByCategorySums(labels: seq<string>, baseYields: seq<Option<real>>, costs: seq<Option<real>>,
                                          envs: seq<Option<real>>, ks: seq<string>)
    requires |baseYields| == |labels| && |costs| == |labels| && |envs| == |labels|
    requires forall i :: 0 <= i < |ks| ==> ks[i] in labels
    ensures SumCounts(ByCategory(labels, baseYields, costs, envs), ks) == CountOver(ks, labels)
    ensures SumTotalCosts(ByCategory(labels, baseYields, costs, envs), ks) == TotalOver(ks, labels, costs)
  {
    if ks != [] {
      ByCategorySums(labels, baseYields, costs, envs, ks[..|ks| - 1]);
    }
  }

  lemma ByCategoryPartition(labels: seq<string>, baseYields: seq<Option<real>>, costs: seq<Option<real>>,
                             envs: seq<Option<real>>, ks: seq<string>)
    requires |baseYields| == |labels| && |costs| == |labels| && |envs| == |labels|
    requires NoDuplicates(ks)
    requires forall i :: 0 <= i < |ks| ==> ks[i] in labels
    requires forall j :: 0 <= j < |labels| ==> labels[j] in ks
    ensures forall i :: 0 <= i < |ks| ==> ks[i] in ByCategory(labels, baseYields, costs, envs)
    ensures SumCounts(ByCategory(labels, baseYields, costs, envs), ks) == |labels|
    ensures SumTotalCosts(ByCategory(labels, baseYields, costs, envs), ks) == SumOf(costs)
  {
    var m := ByCategory(labels, baseYields, costs, envs);
    forall i | 0 <= i < |ks|
      ensures ks[i] in m
    {
      var j :| 0 <= j < |labels| && labels[j] == ks[i];
    }
    ByCategorySums(labels, baseYields, costs, envs, ks);
    GroupSizesPartition(ks, labels);
    GroupSumsPartition(ks, labels, costs);
  }

  /**
   * The categories partition the rows: over the keys of `by_category` (the
   * distinct labels `ks`), the counts add up to the row count and the total
   * costs to the global total.
   */
  lemma CategoriesPartitionRows(df: Frame, ks: seq<string>)
    requires ReadyToGroup(df)
    requires NoDuplicates(ks)
    requires forall i :: 0 <= i < |ks| ==> ks[i] in FrameLabels(df)
    requires forall j :: 0 <= j < df.height ==> FrameLabels(df)[j] in ks
    ensures ComputeMetrics(df).Success?
    ensures forall i :: 0 <= i < |ks| ==> ks[i] in ComputeMetrics(df).value.byCategory
    ensures SumCounts(ComputeMetrics(df).value.byCategory, ks) == ComputeMetrics(df).value.rows
    ensures SumTotalCosts(ComputeMetrics(df).value.byCategory, ks) == ComputeMetrics(df).value.totalCost.value
  {
    assert MissingAggColumns(df) == [];
    var r := ComputeMetrics(df).value;
    var labels, baseYields, costs, envs := FrameLabels(df), df.numeric[BaseYield], df.numeric[Cost], df.numeric[EnvironmentalImpact];
    assert r.byCategory == ByCategory(labels, baseYields, costs, envs);
    assert r.totalCost == Some(SumOf(costs));
    ByCategoryPartition(labels, baseYields, costs, envs, ks);
  }

  /** The same over the distinct labels themselves: the categories always partition the rows. */
  lemma DistinctCategoriesPartitionRows(df: Frame)
    requires ReadyToGroup(df)
    ensures ComputeMetrics(df).Success?
    ensures var ks := Distinct(FrameLabels(df));
      && (forall i :: 0 <= i < |ks| ==> ks[i] in ComputeMetrics(df).value.byCategory)
      && SumCounts(ComputeMetrics(df).value.byCategory, ks) == ComputeMetrics(df).value.rows
      && SumTotalCosts(ComputeMetrics(df).value.byCategory, ks) == ComputeMetrics(df).value.totalCost.value
  {
    CategoriesPartitionRows(df, Distinct(FrameLabels(df)));
  }

  // ---------------------------------------------------------------------
  // main

  /**
   * `main`: 1 when the file is missing; a read error (the `usecols`
   * ValueError included) escapes as an exception, which ends the process
   * with status 1; otherwise the metrics are computed and the status is 0.
   */
  method RunMetrics(input: LoadOutcome, parse: NumberParser) returns (code: int, metrics: Option<Metrics>)
    requires input.Loaded? ==> WellFormed(input.table)
    ensures code == 0 || code == 1
    ensures code == 0 <==> input.Loaded? && MetricColumns <= input.table.columns.Keys
    ensures code == 0 <==> metrics.Some?
    ensures metrics.Some? ==> metrics.value.rows == input.table.height
    ensures metrics.Some? ==>
      && metrics.value.averageBaseYield.Some?
      && metrics.value.totalCost.Some?
      && metrics.value.averageEnvironmentalImpact.Some?
    ensures metrics.Some? ==>
      exists df :: LoadedFrom(input.table, df, parse) && MetricsReady(df) && ComputeMetrics(df) == Success(metrics.value)
  {
    if !input.Loaded? {
      return 1, None;
    }
    var loaded := LoadDataset(input.table, parse);
    if loaded.Failure? {
      return 1, None;
    }
    var df := loaded.value;
    LoadedFrameAggregates(input.table, df, parse);
    var r := ComputeMetrics(df);
    assert LoadedFrom(input.table, df, parse) && MetricsReady(df) && ComputeMetrics(df) == Success(r.value);
    return 0, Some(r.value);
  }
}
