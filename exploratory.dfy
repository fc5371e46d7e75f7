/**
 * The exploratory analysis: a head of the file, then the metric columns
 * loaded as the metrics aggregator loads them, averaged globally and per
 * category (as records keyed by the raw category cell).
 */
module Exploratory {
  import opened Wrappers
  import opened Tables
  import opened Aggregates
  import opened ProductMetrics

  // ---------------------------------------------------------------------
  // load_head

  /** `pd.read_csv(path, nrows=max(1, n))`: the first `max(1, n)` rows, or all of them when fewer. */
  function LoadHead(t: Table, n: int): (h: Table)
    requires WellFormed(t)
    ensures WellFormed(h)
    ensures h.height == if t.height < 1 || t.height <= n then t.height else if n < 1 then 1 else n
    ensures h.columns.Keys == t.columns.Keys
    ensures forall c :: c in h.columns ==> h.columns[c] == t.columns[c][..h.height]
  {
    var rows := if n < 1 then 1 else n;
    var m := if t.height < rows then t.height else rows;
    Table(m, map c | c in t.columns :: t.columns[c][..m])
  }

  /** A file with rows always shows at least one, even for a head size of zero or less. */
  lemma HeadNotEmpty(t: Table, n: int)
    requires WellFormed(t) && t.height > 0
    ensures 1 <= LoadHead(t, n).height <= t.height
    ensures n >= 1 ==> LoadHead(t, n).height <= n
  {
  }

  /** Asking for at least every row gives back the whole table. */
  lemma HeadOfWholeTable(t: Table, n: int)
    requires WellFormed(t) && n >= t.height
    ensures LoadHead(t, n) == t
  {
    var h := LoadHead(t, n);
    assert h.height == t.height;
    forall c | c in t.columns
      ensures h.columns[c] == t.columns[c]
    {
      assert t.columns[c][..t.height] == t.columns[c];
    }
  }

  /** A shorter head is the head of a longer one. */
  lemma HeadOfHead(t: Table, n1: int, n2: int)
    requires WellFormed(t) && n1 <= n2
    ensures LoadHead(LoadHead(t, n2), n1) == LoadHead(t, n1)
  {
    var h1, h2 := LoadHead(t, n1), LoadHead(t, n2);
    var hh := LoadHead(h2, n1);
    assert hh.height == h1.height;
    forall c | c in t.columns
      ensures hh.columns[c] == h1.columns[c]
    {
      assert t.columns[c][..h2.height][..h1.height] == t.columns[c][..h1.height];
    }
  }

  // ---------------------------------------------------------------------
  // compute_metrics

  /** One record of `by_category`: the group size and three means (NaN kept as NaN). */
  datatype CategorySummary = CategorySummary(count: nat, avgYield: FloatValue, avgCost: FloatValue, avgEnvImpact: FloatValue)

  /** `{"averages": ..., "by_category": ...}`; the records are keyed by their Category cell. */
  datatype Summary = Summary(
    averageBaseYield: Option<FloatValue>,
    averageCost: Option<FloatValue>,
    averageEnvironmentalImpact: Option<FloatValue>,
    byCategory: map<Cell, CategorySummary>)

  /** The aggregates of the rows whose category cell is `c`. */
  function SummaryOf(cats: seq<Cell>, baseYields: seq<Option<real>>, costs: seq<Option<real>>,
                     envs: seq<Option<real>>, c: Cell): (r: CategorySummary)
    requires |baseYields| == |cats| && |costs| == |cats| && |envs| == |cats|
    ensures r.count > 0 <==> c in cats
  {
    CategorySummary(
      multiset(cats)[c],
      MeanOf(GroupValues(cats, baseYields, c)),
      MeanOf(GroupValues(cats, costs, c)),
      MeanOf(GroupValues(cats, envs, c)))
  }

  /**
   * `compute_metrics`: three global means, `None` for an absent column; the
   * per-category records only when Category exists, and then the grouping
   * needs all three aggregated columns (pandas raises KeyError otherwise).
   */
  function ComputeSummary(df: Frame): (r: Result<Summary, seq<string>>)
    requires MetricsReady(df)
    ensures r.Failure? <==> Category in df.text && MissingAggColumns(df) != []
    ensures r.Failure? ==> r.error == MissingAggColumns(df)
    ensures r.Success? ==>
      && (r.value.averageBaseYield.None? <==> !HasColumn(df, BaseYield))
      && (r.value.averageCost.None? <==> !HasColumn(df, Cost))
      && (r.value.averageEnvironmentalImpact.None? <==> !HasColumn(df, EnvironmentalImpact))
    ensures r.Success? && BaseYield in df.numeric ==> r.value.averageBaseYield == Some(MeanOf(df.numeric[BaseYield]))
    ensures r.Success? && Cost in df.numeric ==> r.value.averageCost == Some(MeanOf(df.numeric[Cost]))
    ensures r.Success? && EnvironmentalImpact in df.numeric ==>
      r.value.averageEnvironmentalImpact == Some(MeanOf(df.numeric[EnvironmentalImpact]))
    ensures r.Success? && !HasColumn(df, Category) ==> r.value.byCategory == map[]
    ensures r.Success? && HasColumn(df, Category) ==>
      r.value.byCategory.Keys == set i | 0 <= i < df.height :: df.text[Category][i]
  {
    var averages := (ColumnMean(df, BaseYield), ColumnMean(df, Cost), ColumnMean(df, EnvironmentalImpact));
    if Category !in df.text then
      Success(Summary(averages.0, averages.1, averages.2, map[]))
    else if MissingAggColumns(df) != [] then
      Failure(MissingAggColumns(df))
    else
      var cats := df.text[Category];
      var ys, cs, es := df.numeric[BaseYield], df.numeric[Cost], df.numeric[EnvironmentalImpact];
      var records := map c | c in cats :: SummaryOf(cats, ys, cs, es, c);
      Success(Summary(averages.0, averages.1, averages.2, records))
  }

  /**
   * One record: the number of rows in the category, and means that are NaN
   * exactly when the category has no present value in that column.
   */
  lemma CategorySummaryMeaning(df: Frame, c: Cell)
    requires ReadyToGroup(df) && c in df.text[Category]
    ensures ComputeSummary(df).Success? && c in ComputeSummary(df).value.byCategory
    ensures var s := ComputeSummary(df).value.byCategory[c];
      && s.count == multiset(df.text[Category])[c] > 0
      && s.avgYield == MeanOf(GroupValues(df.text[Category], df.numeric[BaseYield], c))
      && s.avgCost == MeanOf(GroupValues(df.text[Category], df.numeric[Cost], c))
      && s.avgEnvImpact == MeanOf(GroupValues(df.text[Category], df.numeric[EnvironmentalImpact], c))
    ensures var s := ComputeSummary(df).value.byCategory[c];
      s.avgYield.NaN? <==> forall i :: 0 <= i < df.height && df.text[Category][i] == c ==> df.numeric[BaseYield][i].None?
    ensures var s := ComputeSummary(df).value.byCategory[c];
      s.avgCost.NaN? <==> forall i :: 0 <= i < df.height && df.text[Category][i] == c ==> df.numeric[Cost][i].None?
    ensures var s := ComputeSummary(df).value.byCategory[c];
      s.avgEnvImpact.NaN? <==> forall i :: 0 <= i < df.height && df.text[Category][i] == c ==> df.numeric[EnvironmentalImpact][i].None?
  {
    var cats, ys, cs, es := df.text[Category], df.numeric[BaseYield], df.numeric[Cost], df.numeric[EnvironmentalImpact];
    assert MissingAggColumns(df) == [];
    assert ComputeSummary(df).value.byCategory[c] == SummaryOf(cats, ys, cs, es, c);
    RecordMeaning(cats, ys, cs, es, c);
  }

  lemma RecordMeaning(cats: seq<Cell>, baseYields: seq<Option<real>>, costs: seq<Option<real>>,
                      envs: seq<Option<real>>, c: Cell)
    requires |baseYields| == |cats| && |costs| == |cats| && |envs| == |cats|
    requires c in cats
    ensures var s := SummaryOf(cats, baseYields, costs, envs, c);
      && s.count == multiset(cats)[c] > 0
      && s.avgYield == MeanOf(GroupValues(cats, baseYields, c))
      && s.avgCost == MeanOf(GroupValues(cats, costs, c))
      && s.avgEnvImpact == MeanOf(GroupValues(cats, envs, c))
    ensures SummaryOf(cats, baseYields, costs, envs, c).avgYield.NaN?
            <==> forall i :: 0 <= i < |cats| && cats[i] == c ==> baseYields[i].None?
    ensures SummaryOf(cats, baseYields, costs, envs, c).avgCost.NaN?
            <==> forall i :: 0 <= i < |cats| && cats[i] == c ==> costs[i].None?
    ensures SummaryOf(cats, baseYields, costs, envs, c).avgEnvImpact.NaN?
            <==> forall i :: 0 <= i < |cats| && cats[i] == c ==> envs[i].None?
  {
    GroupNaNIff(cats, baseYields, c);
    GroupNaNIff(cats, costs, c);
    GroupNaNIff(cats, envs, c);
  }

  /** Grouping by label and grouping by cell agree while no text cell reads "nan". */
  lemma {:induction false} LabelGroups(cats: seq<Cell>, vals: seq<Option<real>>, c: Cell)
    requires |cats| == |vals|
    requires forall i :: 0 <= i < |cats| ==> cats[i] != Some("nan")
    requires c != Some("nan")
    ensures GroupValues(Labels(cats), vals, Label(c)) == GroupValues(cats, vals, c)
  {
    if cats != [] {
      var n := |cats| - 1;
      assert Labels(cats) == Labels(cats[..n]) + [Label(cats[n])];
      assert cats == cats[..n] + [cats[n]];
      assert vals == vals[..n] + [vals[n]];
      LabelGroups(cats[..n], vals[..n], c);
      GroupValuesAppendOne(Labels(cats[..n]), vals[..n], Label(cats[n]), vals[n], Label(c));
      GroupValuesAppendOne(cats[..n], vals[..n], cats[n], vals[n], c);
      assert Label(cats[n]) == Label(c) <==> cats[n] == c;
    }
  }

  /**
   * The two scripts agree on a category: the aggregator's entry for the
   * category's label has the same row count and the same averages, missing
   * where the exploratory mean is NaN. (Both scripts see the same frame.)
   */
  lemma SummaryAgreesWithMetrics(df: Frame, c: Cell)
    requires ReadyToGroup(df) && c in df.text[Category]
    requires forall i :: 0 <= i < df.height ==> df.text[Category][i] != Some("nan")
    ensures ComputeSummary(df).Success? && c in ComputeSummary(df).value.byCategory
    ensures ComputeMetrics(df).Success? && Label(c) in ComputeMetrics(df).value.byCategory
    ensures var s, m := ComputeSummary(df).value.byCategory[c], ComputeMetrics(df).value.byCategory[Label(c)];
      && m.count == s.count
      && m.avgYield == NotNa(s.avgYield)
      && m.avgEnvImpact == NotNa(s.avgEnvImpact)
  {
    var cats := df.text[Category];
    assert MissingAggColumns(df) == [];
    var i :| 0 <= i < df.height && cats[i] == c;
    assert FrameLabels(df)[i] == Label(c);
    LabelGroups(cats, df.numeric[BaseYield], c);
    LabelGroups(cats, df.numeric[EnvironmentalImpact], c);
  }

  // ---------------------------------------------------------------------
  // main

  /**
   * `main`: 1 when the file is missing; otherwise the head is read first,
   * and any read error (the `usecols` ValueError included) escapes as an
   * exception, which ends the process with status 1; otherwise 0.
   */
  method RunExploratory(input: LoadOutcome, headRows: int, parse: NumberParser)
    returns (code: int, head: Option<Table>, summary: Option<Summary>)
    requires input.Loaded? ==> WellFormed(input.table)
    ensures code == 0 || code == 1
    ensures code == 0 <==> input.Loaded? && MetricColumns <= input.table.columns.Keys
    ensures code == 0 <==> summary.Some?
    ensures head.Some? <==> input.Loaded?
    ensures head.Some? ==> head.value == LoadHead(input.table, headRows)
    ensures summary.Some? ==>
      && summary.value.averageBaseYield.Some?
      && summary.value.averageCost.Some?
      && summary.value.averageEnvironmentalImpact.Some?
    ensures summary.Some? ==>
      exists df :: LoadedFrom(input.table, df, parse) && MetricsReady(df) && ComputeSummary(df) == Success(summary.value)
  {
    if !input.Loaded? {
      return 1, None, None;
    }
    head := Some(LoadHead(input.table, headRows));
    var loaded := LoadDataset(input.table, parse);
    if loaded.Failure? {
      return 1, head, None;
    }
    var df := loaded.value;
    LoadedFrameAggregates(input.table, df, parse);
    var r := ComputeSummary(df);
    assert LoadedFrom(input.table, df, parse) && MetricsReady(df) && ComputeSummary(df) == Success(r.value);
    return 0, head, Some(r.value);
  }
}
