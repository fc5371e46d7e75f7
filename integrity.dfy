/**
 * The integrity checker of the product dataset: four issue counters over a
 * read table, and the process exit code derived from them.
 */
module Integrity {
  import opened Wrappers
  import opened Tables

  const ShelfLife: string := "ShelfLife"

  /** Columns every product table must carry. */
  const RequiredColumns: seq<string> :=
    ["Id", "Name", "Code", "Category", "IsActive",
     "BaseYield", "NutritionalValue", "Cost", "EnvironmentalImpact", ShelfLife]

  /** Columns whose cells must not be missing. */
  const NonNullableColumns: seq<string> := ["Id", "Name", "Code", "Category", "IsActive"]

  /** Columns whose values must not be negative. */
  const NumericColumns: seq<string> := ["BaseYield", "NutritionalValue", "Cost", "EnvironmentalImpact"]

  /**
   * The per-cell duration parser behind `pd.to_timedelta(..., errors="coerce")`:
   * a signed duration in nanoseconds, or `None` (NaT) when the text does not parse.
   */
  type DurationParser = string -> Option<int>

  /** The issue tally; field order is the order of the source's dict. */
  datatype Issues = Issues(missingColumns: nat, nulls: nat, negatives: nat, invalidShelfLife: nat)

  /** `sum(issues.values())` */
  function TotalIssues(i: Issues): (n: nat)
    ensures n == 0 <==> i == Issues(0, 0, 0, 0)
  {
    i.missingColumns + i.nulls + i.negatives + i.invalidShelfLife
  }

  predicate NoDuplicates(s: seq<string>)
  {
    forall i, j :: 0 <= i < j < |s| ==> s[i] != s[j]
  }

  /** `[c for c in names if c not in df.columns]` */
  function MissingColumns(names: seq<string>, t: Table): (r: seq<string>)
    ensures forall c :: c in r <==> c in names && c !in t.columns
  {
    if names == [] then []
    else
      var last := names[|names| - 1];
      MissingColumns(names[..|names| - 1], t) + (if last in t.columns then [] else [last])
  }

  /** `[c for c in names if c in df.columns]` */
  function PresentColumns(names: seq<string>, t: Table): (r: seq<string>)
    ensures forall c :: c in r <==> c in names && c in t.columns
  {
    if names == [] then []
    else
      var last := names[|names| - 1];
      PresentColumns(names[..|names| - 1], t) + (if last in t.columns then [last] else [])
  }

  /** `column.isnull().sum()` */
  function NullCount(cells: seq<Cell>): (r: nat)
    ensures r <= |cells|
  {
    if cells == [] then 0
    else NullCount(cells[..|cells| - 1]) + (if cells[|cells| - 1].None? then 1 else 0)
  }

  /** Whether a cell coerces to a number below zero; NA compares false. */
  predicate IsNegative(c: Cell, parse: NumberParser)
    ensures IsNegative(c, parse) ==> c.Some? && parse(c.value).Some? && parse(c.value).value < 0.0
  {
    var v := Coerce(c, parse);
    v.Some? && v.value < 0.0
  }

  /** `(pd.to_numeric(column, errors="coerce") < 0).sum()` */
  function NegativeCount(cells: seq<Cell>, parse: NumberParser): (r: nat)
    ensures r <= |cells|
  {
    if cells == [] then 0
    else NegativeCount(cells[..|cells| - 1], parse) + (if IsNegative(cells[|cells| - 1], parse) then 1 else 0)
  }

  /** `shelf.isna().sum()`: cells that are missing or do not parse as a duration. */
  function UnparsedCount(cells: seq<Cell>, parse: DurationParser): (r: nat)
    ensures r <= |cells|
  {
    if cells == [] then 0
    else UnparsedCount(cells[..|cells| - 1], parse) + (if Coerce(cells[|cells| - 1], parse).None? then 1 else 0)
  }

  predicate IsNonPositive(c: Cell, parse: DurationParser)
    ensures IsNonPositive(c, parse) ==> c.Some? && parse(c.value).Some? && parse(c.value).value <= 0
  {
    var d := Coerce(c, parse);
    d.Some? && d.value <= 0
  }

  /** `(shelf <= timedelta(0)).sum()`: NaT compares false, so only parsed cells count. */
  function NonPositiveCount(cells: seq<Cell>, parse: DurationParser): (r: nat)
    ensures r <= |cells|
  {
    if cells == [] then 0
    else NonPositiveCount(cells[..|cells| - 1], parse) + (if IsNonPositive(cells[|cells| - 1], parse) then 1 else 0)
  }

  /** `df[cols].isnull().sum().sum()` */
  function NullsOver(cols: seq<string>, t: Table): (r: nat)
    requires forall c :: c in cols ==> c in t.columns
    ensures forall k :: 0 <= k < |cols| ==> NullCount(t.columns[cols[k]]) <= r
  {
    if cols == [] then 0
    else NullsOver(cols[..|cols| - 1], t) + NullCount(t.columns[cols[|cols| - 1]])
  }

  /** The negative counts of the columns `cols`, added up. */
  function NegativesOver(cols: seq<string>, t: Table, parse: NumberParser): (r: nat)
    requires forall c :: c in cols ==> c in t.columns
    ensures forall k :: 0 <= k < |cols| ==> NegativeCount(t.columns[cols[k]], parse) <= r
  {
    if cols == [] then 0
    else NegativesOver(cols[..|cols| - 1], t, parse) + NegativeCount(t.columns[cols[|cols| - 1]], parse)
  }

  /** The tally `check_integrity` returns, as a function of the table. */
  function IssuesOf(t: Table, parseNumber: NumberParser, parseDuration: DurationParser): (r: Issues)
    ensures ShelfLife !in t.columns ==> r.missingColumns >= 2 && r.invalidShelfLife == 0
  {
    assert ShelfLife !in t.columns ==> ShelfLife in MissingColumns(RequiredColumns, t);
    Issues(
      |MissingColumns(RequiredColumns, t)| + (if ShelfLife in t.columns then 0 else 1),
      NullsOver(PresentColumns(NonNullableColumns, t), t),
      NegativesOver(PresentColumns(NumericColumns, t), t, parseNumber),
      if ShelfLife in t.columns
      then UnparsedCount(t.columns[ShelfLife], parseDuration) + NonPositiveCount(t.columns[ShelfLife], parseDuration)
      else 0)
  }

  /**
   * `check_integrity`: the tally starts at zero and is filled in phase by
   * phase; a missing ShelfLife column is counted a second time at the end.
   */
  method CheckIntegrity(t: Table, parseNumber: NumberParser, parseDuration: DurationParser)
    returns (issues: Issues)
    ensures issues == IssuesOf(t, parseNumber, parseDuration)
  {
    issues := Issues(0, 0, 0, 0);

    var missing := MissingColumns(RequiredColumns, t);
    issues := issues.(missingColumns := |missing|);

    var nonNullable := PresentColumns(NonNullableColumns, t);
    if |nonNullable| > 0 {
      issues := issues.(nulls := NullsOver(nonNullable, t));
    }

    var numeric := PresentColumns(NumericColumns, t);
    issues := AddNegatives(issues, numeric, t, parseNumber);

    if ShelfLife in t.columns {
      var shelf := t.columns[ShelfLife];
      var invalid := UnparsedCount(shelf, parseDuration);
      var nonPositive := NonPositiveCount(shelf, parseDuration);
      issues := issues.(invalidShelfLife := invalid + nonPositive);
    } else {
      issues := issues.(missingColumns := issues.missingColumns + 1);
    }
  }

  /** The column loop of the numeric-range phase: `issues["negatives"] += neg_count` per column. */
  method AddNegatives(issues: Issues, cols: seq<string>, t: Table, parseNumber: NumberParser)
    returns (r: Issues)
    requires forall c :: c in cols ==> c in t.columns
    ensures r == issues.(negatives := issues.negatives + NegativesOver(cols, t, parseNumber))
  {
    r := issues;
    var i := 0;
    while i < |cols|
      invariant 0 <= i <= |cols|
      invariant r == issues.(negatives := issues.negatives + NegativesOver(cols[..i], t, parseNumber))
    {
      var negCount := NegativeCount(t.columns[cols[i]], parseNumber);
      NegativesOverStep(cols, i, t, parseNumber);
      r := r.(negatives := r.negatives + negCount);
      i := i + 1;
    }
    assert cols[..i] == cols;
  }

  lemma NegativesOverStep(cols: seq<string>, i: nat, t: Table, parse: NumberParser)
    requires i < |cols|
    requires forall c :: c in cols ==> c in t.columns
    ensures NegativesOver(cols[..i + 1], t, parse)
            == NegativesOver(cols[..i], t, parse) + NegativeCount(t.columns[cols[i]], parse)
  {
    assert cols[..i + 1][..i] == cols[..i];
  }

  // ---------------------------------------------------------------------
  // What the counters mean

  /** The required columns absent from the table, as a set. */
  ghost function AbsentColumns(names: seq<string>, t: Table): set<string>
  {
    set c | c in names && c !in t.columns
  }

  lemma AbsentColumnsStep(names: seq<string>, t: Table)
    requires names != []
    ensures AbsentColumns(names, t)
            == AbsentColumns(names[..|names| - 1], t)
               + (if names[|names| - 1] in t.columns then {} else {names[|names| - 1]})
  {
    assert names == names[..|names| - 1] + [names[|names| - 1]];
  }

  lemma {:induction false} MissingColumnsCardinality(names: seq<string>, t: Table)
    requires NoDuplicates(names)
    ensures |MissingColumns(names, t)| == |AbsentColumns(names, t)|
  {
    if names != [] {
      var init, last := names[..|names| - 1], names[|names| - 1];
      assert NoDuplicates(init);
      MissingColumnsCardinality(init, t);
      AbsentColumnsStep(names, t);
      assert last !in AbsentColumns(init, t);
    }
  }

  /**
   * `missing_columns` is the number of the ten required columns absent from
   * the table, plus one more when ShelfLife is absent.
   */
  lemma MissingColumnsCount(t: Table, parseNumber: NumberParser, parseDuration: DurationParser)
    ensures IssuesOf(t, parseNumber, parseDuration).missingColumns
            == |(set c | c in RequiredColumns) - t.columns.Keys| + (if ShelfLife in t.columns then 0 else 1)
    ensures IssuesOf(t, parseNumber, parseDuration).missingColumns == 0
            <==> forall c :: c in RequiredColumns ==> c in t.columns
    ensures IssuesOf(t, parseNumber, parseDuration).missingColumns <= 11
  {
    RequiredColumnsDistinct();
    MissingColumnsCardinality(RequiredColumns, t);
    assert (set c | c in RequiredColumns) - t.columns.Keys == AbsentColumns(RequiredColumns, t);
    MissingColumnsLength(RequiredColumns, t);
  }

  lemma RequiredColumnsDistinct()
    ensures NoDuplicates(RequiredColumns)
  {
  }

  lemma {:induction false} MissingColumnsLength(names: seq<string>, t: Table)
    ensures |MissingColumns(names, t)| <= |names|
    ensures |MissingColumns(names, t)| == 0 <==> forall c :: c in names ==> c in t.columns
  {
    if names != [] {
      MissingColumnsLength(names[..|names| - 1], t);
    }
  }

  lemma {:induction false} NullCountBounds(cells: seq<Cell>)
    ensures NullCount(cells) <= |cells|
    ensures NullCount(cells) == 0 <==> forall i :: 0 <= i < |cells| ==> cells[i].Some?
  {
    if cells != [] {
      var init := cells[..|cells| - 1];
      NullCountBounds(init);
      assert forall i :: 0 <= i < |init| ==> init[i] == cells[i];
    }
  }

  lemma {:induction false} NegativeCountBounds(cells: seq<Cell>, parse: NumberParser)
    ensures NegativeCount(cells, parse) <= |cells|
    ensures NegativeCount(cells, parse) == 0 <==> forall i :: 0 <= i < |cells| ==> !IsNegative(cells[i], parse)
  {
    if cells != [] {
      var init := cells[..|cells| - 1];
      NegativeCountBounds(init, parse);
      assert forall i :: 0 <= i < |init| ==> init[i] == cells[i];
    }
  }

  /** A cell is NaT or non-positive, never both, so the two counts never exceed the rows. */
  lemma {:induction false} ShelfLifeCountBounds(cells: seq<Cell>, parse: DurationParser)
    ensures UnparsedCount(cells, parse) + NonPositiveCount(cells, parse) <= |cells|
    ensures UnparsedCount(cells, parse) + NonPositiveCount(cells, parse) == 0
            <==> forall i :: 0 <= i < |cells| ==> ValidShelfLife(cells[i], parse)
  {
    if cells != [] {
      var init := cells[..|cells| - 1];
      ShelfLifeCountBounds(init, parse);
      assert forall i :: 0 <= i < |init| ==> init[i] == cells[i];
    }
  }

  /** A shelf life that counts toward neither `invalid` nor `non_positive`. */
  predicate ValidShelfLife(c: Cell, parse: DurationParser)
    ensures ValidShelfLife(c, parse) <==> Coerce(c, parse).Some? && !IsNonPositive(c, parse)
  {
    var d := Coerce(c, parse);
    d.Some? && d.value > 0
  }

  lemma ScaleStep(n: nat, h: nat)
    ensures (n + 1) * h == n * h + h
  {
  }

  lemma {:induction false} NullsOverBound(cols: seq<string>, t: Table)
    requires WellFormed(t)
    requires forall c :: c in cols ==> c in t.columns
    ensures NullsOver(cols, t) <= |cols| * t.height
  {
    if cols != [] {
      var init, last := cols[..|cols| - 1], cols[|cols| - 1];
      NullsOverBound(init, t);
      NullCountBounds(t.columns[last]);
      ScaleStep(|init|, t.height);
    }
  }

  lemma {:induction false} NullsOverZero(cols: seq<string>, t: Table)
    requires forall c :: c in cols ==> c in t.columns
    ensures NullsOver(cols, t) == 0
            <==> forall c, i :: c in cols && 0 <= i < |t.columns[c]| ==> t.columns[c][i].Some?
  {
    if cols != [] {
      var init, last := cols[..|cols| - 1], cols[|cols| - 1];
      assert forall c :: c in cols <==> c in init || c == last;
      NullsOverZero(init, t);
      NullCountBounds(t.columns[last]);
    }
  }

  lemma {:induction false} NegativesOverBound(cols: seq<string>, t: Table, parse: NumberParser)
    requires WellFormed(t)
    requires forall c :: c in cols ==> c in t.columns
    ensures NegativesOver(cols, t, parse) <= |cols| * t.height
  {
    if cols != [] {
      var init, last := cols[..|cols| - 1], cols[|cols| - 1];
      NegativesOverBound(init, t, parse);
      NegativeCountBounds(t.columns[last], parse);
      ScaleStep(|init|, t.height);
    }
  }

  lemma {:induction false} NegativesOverZero(cols: seq<string>, t: Table, parse: NumberParser)
    requires forall c :: c in cols ==> c in t.columns
    ensures NegativesOver(cols, t, parse) == 0
            <==> forall c, i :: c in cols && 0 <= i < |t.columns[c]| ==> !IsNegative(t.columns[c][i], parse)
  {
    if cols != [] {
      var init, last := cols[..|cols| - 1], cols[|cols| - 1];
      assert forall c :: c in cols <==> c in init || c == last;
      NegativesOverZero(init, t, parse);
      NegativeCountBounds(t.columns[last], parse);
    }
  }

  /**
   * The counters are bounded by the table: `nulls` by five cells per row,
   * `negatives` by four, `invalid_shelf_life` by one.
   */
  lemma IssueBounds(t: Table, parseNumber: NumberParser, parseDuration: DurationParser)
    requires WellFormed(t)
    ensures IssuesOf(t, parseNumber, parseDuration).nulls <= 5 * t.height
    ensures IssuesOf(t, parseNumber, parseDuration).negatives <= 4 * t.height
    ensures IssuesOf(t, parseNumber, parseDuration).invalidShelfLife <= t.height
  {
    var nn := PresentColumns(NonNullableColumns, t);
    var num := PresentColumns(NumericColumns, t);
    NullsOverBound(nn, t);
    NegativesOverBound(num, t, parseNumber);
    PresentColumnsLength(NonNullableColumns, t);
    PresentColumnsLength(NumericColumns, t);
    ScaleMonotone(|nn|, 5, t.height);
    ScaleMonotone(|num|, 4, t.height);
    if ShelfLife in t.columns {
      ShelfLifeCountBounds(t.columns[ShelfLife], parseDuration);
    }
  }

  lemma ScaleMonotone(a: nat, b: nat, h: nat)
    requires a <= b
    ensures a * h <= b * h
  {
  }

  lemma {:induction false} PresentColumnsLength(names: seq<string>, t: Table)
    ensures |PresentColumns(names, t)| <= |names|
  {
    if names != [] {
      PresentColumnsLength(names[..|names| - 1], t);
    }
  }

  /**
   * A table passes every check: all required columns present, no missing
   * cell in the non-nullable columns, no numeric cell below zero, and every
   * ShelfLife cell a positive duration.
   */
  ghost predicate Clean(t: Table, parseNumber: NumberParser, parseDuration: DurationParser)
  {
    && RequiredPresent(t)
    && NoMissingCells(t)
    && NoNegatives(t, parseNumber)
    && ShelfLivesValid(t, parseDuration)
  }

  ghost predicate RequiredPresent(t: Table)
  {
    forall c :: c in RequiredColumns ==> c in t.columns
  }

  ghost predicate NoMissingCells(t: Table)
  {
    forall c, i :: c in NonNullableColumns && c in t.columns && 0 <= i < |t.columns[c]|
      ==> t.columns[c][i].Some?
  }

  ghost predicate NoNegatives(t: Table, parseNumber: NumberParser)
  {
    forall c, i :: c in NumericColumns && c in t.columns && 0 <= i < |t.columns[c]|
      ==> !IsNegative(t.columns[c][i], parseNumber)
  }

  ghost predicate ShelfLivesValid(t: Table, parseDuration: DurationParser)
  {
    ShelfLife in t.columns ==>
      forall i :: 0 <= i < |t.columns[ShelfLife]| ==> ValidShelfLife(t.columns[ShelfLife][i], parseDuration)
  }

  lemma NullsZeroIff(t: Table)
    ensures NullsOver(PresentColumns(NonNullableColumns, t), t) == 0 <==> NoMissingCells(t)
  {
    NullsOverZero(PresentColumns(NonNullableColumns, t), t);
  }

  lemma NegativesZeroIff(t: Table, parseNumber: NumberParser)
    ensures NegativesOver(PresentColumns(NumericColumns, t), t, parseNumber) == 0 <==> NoNegatives(t, parseNumber)
  {
    NegativesOverZero(PresentColumns(NumericColumns, t), t, parseNumber);
  }

  /** The tally is all zeros exactly when the table is clean. */
  lemma NoIssuesIffClean(t: Table, parseNumber: NumberParser, parseDuration: DurationParser)
    ensures TotalIssues(IssuesOf(t, parseNumber, parseDuration)) == 0 <==> Clean(t, parseNumber, parseDuration)
    ensures TotalIssues(IssuesOf(t, parseNumber, parseDuration)) == 0
            <==> IssuesOf(t, parseNumber, parseDuration) == Issues(0, 0, 0, 0)
  {
    var issues := IssuesOf(t, parseNumber, parseDuration);
    MissingColumnsCount(t, parseNumber, parseDuration);
    assert issues.missingColumns == 0 <==> RequiredPresent(t);
    NullsZeroIff(t);
    assert issues.nulls == 0 <==> NoMissingCells(t);
    NegativesZeroIff(t, parseNumber);
    assert issues.negatives == 0 <==> NoNegatives(t, parseNumber);
    if ShelfLife in t.columns {
      ShelfLifeCountBounds(t.columns[ShelfLife], parseDuration);
      assert issues.invalidShelfLife == 0 <==> ShelfLivesValid(t, parseDuration);
    }
  }

  // ---------------------------------------------------------------------
  // The script's exit code


  /** Strict mode fails the run when any issue was found. */
  function ExitCode(strict: bool, issues: Issues): (code: int)
    ensures code == 0 || code == 1
    ensures code == 1 <==> strict && TotalIssues(issues) > 0
  {
    if strict && TotalIssues(issues) > 0 then 1 else 0
  }

  /**
   * `main` after argument parsing: a missing or unreadable file exits with 1
   * before any check; otherwise the checks run and strict mode decides.
   */
  method RunIntegrityCheck(input: LoadOutcome, strict: bool,
                           parseNumber: NumberParser, parseDuration: DurationParser)
    returns (code: int)
    requires input.Loaded? ==> WellFormed(input.table)
    ensures !input.Loaded? ==> code == 1
    ensures input.Loaded? ==> code == ExitCode(strict, IssuesOf(input.table, parseNumber, parseDuration))
    ensures input.Loaded? ==> (code == 1 <==> strict && !Clean(input.table, parseNumber, parseDuration))
    ensures !strict && input.Loaded? ==> code == 0
  {
    if input.FileNotFound? {
      return 1;
    }
    if input.Unreadable? {
      return 1;
    }
    var issues := CheckIntegrity(input.table, parseNumber, parseDuration);
    NoIssuesIffClean(input.table, parseNumber, parseDuration);
    code := ExitCode(strict, issues);
  }
}
