/**
 * The synthetic dataset generator. The random draws (uuids, category
 * choices, flags, day offsets, uniform samples) and the clock are inputs;
 * every other column is built from the row index.
 */
module Generator {
  import opened Wrappers
  import opened Tables
  import opened Aggregates
  import Integrity

  // ---------------------------------------------------------------------
  // Decimal text of a natural number, and reading it back

  function DigitChar(d: nat): char
    requires d < 10
  {
    "0123456789"[d]
  }

  function DigitValue(c: char): nat
  {
    if '0' <= c <= '9' then (c - '0') as nat else 0
  }

  /** `str(n)` for a natural number. */
  function NatToString(n: nat): (s: string)
    ensures |s| >= 1
    ensures forall i :: 0 <= i < |s| ==> '0' <= s[i] <= '9'
  {
    if n < 10 then [DigitChar(n)] else NatToString(n / 10) + [DigitChar(n % 10)]
  }

  /** `int(s)` for a string of decimal digits. */
  function ParseNat(s: string): nat
  {
    if s == [] then 0 else ParseNat(s[..|s| - 1]) * 10 + DigitValue(s[|s| - 1])
  }

  lemma {:induction false} ParseNatToString(n: nat)
    ensures ParseNat(NatToString(n)) == n
  {
    var s := NatToString(n);
    if n < 10 {
      assert s[..0] == [];
    } else {
      ParseNatToString(n / 10);
      assert s[..|s| - 1] == NatToString(n / 10);
      assert DigitValue(DigitChar(n % 10)) == n % 10;
    }
  }

  // ---------------------------------------------------------------------
  // The dataset

  const Categories: seq<string> := ["Food", "Supplement", "Beverage", "Material", "Other"]

  const MicrosPerDay: int := 86_400_000_000

  const ColumnNames: set<string> := {
    "Id", "Name", "Code", "Description", "Category", "IsActive", "DiscontinuedAt",
    "BaseYield", "NutritionalValue", "Cost", "EnvironmentalImpact", "Notes", "Supplier", "ShelfLife"}

  /** A generated cell: text, a flag, a float, a point in time (microseconds), a day count, or None. */
  datatype Value = Text(s: string) | Flag(b: bool) | Number(x: real) | Timestamp(micros: int) | Days(days: nat) | Missing

  /**
   * What lies behind one DiscontinuedAt cell: the `rand()` draw and, when it is
   * below 0.1, the `randint(0, 365)` draw and the `datetime.now()` reading
   * (microseconds) taken for that row; each row reads the clock on its own.
   */
  datatype DiscontinueDraw = DiscontinueDraw(roll: real, offsetDays: int, clock: int)

  /** What the random number generator and `uuid4` supply, one entry per row. */
  datatype Draws = Draws(
    ids: seq<string>,
    categoryChoices: seq<nat>,
    active: seq<bool>,
    discontinued: seq<DiscontinueDraw>,
    baseYields: seq<real>,
    nutritionalValues: seq<real>,
    costs: seq<real>,
    environmentalImpacts: seq<real>,
    shelfLifeDays: seq<int>)

  predicate InRange(xs: seq<real>, lo: real, hi: real)
  {
    forall i :: 0 <= i < |xs| ==> lo <= xs[i] < hi
  }

  /** The draws for `n` rows, each in the range its call requests. */
  predicate DrawsFor(d: Draws, n: nat)
  {
    && |d.ids| == n && |d.categoryChoices| == n && |d.active| == n && |d.discontinued| == n
    && |d.baseYields| == n && |d.nutritionalValues| == n && |d.costs| == n
    && |d.environmentalImpacts| == n && |d.shelfLifeDays| == n
    && (forall i :: 0 <= i < n ==> d.categoryChoices[i] < |Categories|)
    && (forall i :: 0 <= i < n ==> 0.0 <= d.discontinued[i].roll < 1.0 && 0 <= d.discontinued[i].offsetDays < 365)
    && InRange(d.baseYields, 50.0, 100.0)
    && InRange(d.nutritionalValues, 1.0, 10.0)
    && InRange(d.costs, 10.0, 100.0)
    && InRange(d.environmentalImpacts, 0.1, 5.0)
    && (forall i :: 0 <= i < n ==> 30 <= d.shelfLifeDays[i] < 365)
  }

  /** The generated frame, one field per column. */
  datatype Dataset = Dataset(
    rows: nat,
    id: seq<Value>, name: seq<Value>, code: seq<Value>, description: seq<Value>,
    category: seq<Value>, isActive: seq<Value>, discontinuedAt: seq<Value>,
    baseYield: seq<Value>, nutritionalValue: seq<Value>, cost: seq<Value>, environmentalImpact: seq<Value>,
    notes: seq<Value>, supplier: seq<Value>, shelfLife: seq<Value>)

  /** Every column has one entry per row. */
  predicate Rectangular(ds: Dataset)
  {
    && |ds.id| == ds.rows && |ds.name| == ds.rows && |ds.code| == ds.rows && |ds.description| == ds.rows
    && |ds.category| == ds.rows && |ds.isActive| == ds.rows && |ds.discontinuedAt| == ds.rows
    && |ds.baseYield| == ds.rows && |ds.nutritionalValue| == ds.rows && |ds.cost| == ds.rows
    && |ds.environmentalImpact| == ds.rows && |ds.notes| == ds.rows && |ds.supplier| == ds.rows
    && |ds.shelfLife| == ds.rows
  }

  /** The frame by column name, as `pd.DataFrame(data)` holds it. */
  function Columns(ds: Dataset): (m: map<string, seq<Value>>)
    requires Rectangular(ds)
    ensures m.Keys == ColumnNames
    ensures forall c :: c in m ==> |m[c]| == ds.rows
  {
    var cols := [ds.id, ds.name, ds.code, ds.description, ds.category, ds.isActive, ds.discontinuedAt,
      ds.baseYield, ds.nutritionalValue, ds.cost, ds.environmentalImpact, ds.notes, ds.supplier, ds.shelfLife];
    assert forall k :: 0 <= k < |cols| ==> |cols[k]| == ds.rows;
    map[
      "Id" := ds.id, "Name" := ds.name, "Code" := ds.code, "Description" := ds.description,
      "Category" := ds.category, "IsActive" := ds.isActive, "DiscontinuedAt" := ds.discontinuedAt,
      "BaseYield" := ds.baseYield, "NutritionalValue" := ds.nutritionalValue, "Cost" := ds.cost,
      "EnvironmentalImpact" := ds.environmentalImpact, "Notes" := ds.notes, "Supplier" := ds.supplier,
      "ShelfLife" := ds.shelfLife]
  }

  /** `prefix + str(k)`: the prefix, then digits that read back as `k`. */
  function Numbered(prefix: string, k: nat): (s: string)
    ensures |s| > |prefix| && s[..|prefix|] == prefix && ParseNat(s[|prefix|..]) == k
    ensures forall j :: |prefix| <= j < |s| ==> '0' <= s[j] <= '9'
  {
    ParseNatToString(k);
    var s := prefix + NatToString(k);
    assert s[..|prefix|] == prefix && s[|prefix|..] == NatToString(k);
    s
  }

  /** `f"Product_{i+1}"` */
  function NameOf(i: nat): (s: string)
    ensures |s| > 8 && s[..8] == "Product_" && ParseNat(s[8..]) == i + 1
    ensures forall j :: 8 <= j < |s| ==> '0' <= s[j] <= '9'
  {
    Numbered("Product_", i + 1)
  }

  /** `f"P{i+1000}"` */
  function CodeOf(i: nat): (s: string)
    ensures |s| > 1 && s[..1] == "P" && ParseNat(s[1..]) == i + 1000
    ensures forall j :: 1 <= j < |s| ==> '0' <= s[j] <= '9'
  {
    Numbered("P", i + 1000)
  }

  /** `f"Description of product {i+1}"` */
  function DescriptionOf(i: nat): (s: string)
    ensures |s| > 23 && s[..23] == "Description of product " && ParseNat(s[23..]) == i + 1
    ensures forall j :: 23 <= j < |s| ==> '0' <= s[j] <= '9'
  {
    Numbered("Description of product ", i + 1)
  }

  /** `f"Note {i+1}"` */
  function NoteOf(i: nat): (s: string)
    ensures |s| > 5 && s[..5] == "Note " && ParseNat(s[5..]) == i + 1
    ensures forall j :: 5 <= j < |s| ==> '0' <= s[j] <= '9'
  {
    Numbered("Note ", i + 1)
  }

  /** `f"Supplier {i % 5 + 1}"` */
  function SupplierOf(i: nat): (s: string)
    ensures |s| > 9 && s[..9] == "Supplier " && 1 <= ParseNat(s[9..]) <= 5 && ParseNat(s[9..]) == i % 5 + 1
    ensures forall j :: 9 <= j < |s| ==> '0' <= s[j] <= '9'
  {
    Numbered("Supplier ", i % 5 + 1)
  }

  /** One DiscontinuedAt cell: a timestamp within the year before the row's clock reading, or None. */
  function DiscontinuedAt(draw: DiscontinueDraw): (v: Value)
    ensures v.Timestamp? <==> draw.roll < 0.1
    ensures !v.Timestamp? ==> v == Missing
    ensures v.Timestamp? && 0 <= draw.offsetDays < 365 ==> draw.clock - 365 * MicrosPerDay < v.micros <= draw.clock
  {
    if draw.roll < 0.1 then Timestamp(draw.clock - draw.offsetDays * MicrosPerDay) else Missing
  }

  function TextColumn(n: nat, f: nat -> string): (col: seq<Value>)
    ensures |col| == n
    ensures forall i :: 0 <= i < n ==> col[i] == Text(f(i))
  {
    seq(n, (i: int) requires 0 <= i < n => Text(f(i)))
  }

  function NumberColumn(xs: seq<real>): (col: seq<Value>)
    ensures |col| == |xs|
    ensures forall i :: 0 <= i < |xs| ==> col[i] == Number(xs[i])
  {
    seq(|xs|, i requires 0 <= i < |xs| => Number(xs[i]))
  }

  /** `generate_dataset(num_samples)` with the draws made. */
  function GenerateDataset(n: nat, d: Draws): (ds: Dataset)
    requires DrawsFor(d, n)
    ensures ds.rows == n && Rectangular(ds)
  {
    Dataset(n,
      seq(n, i requires 0 <= i < n => Text(d.ids[i])),
      TextColumn(n, NameOf),
      TextColumn(n, CodeOf),
      TextColumn(n, DescriptionOf),
      seq(n, i requires 0 <= i < n => Text(Categories[d.categoryChoices[i]])),
      seq(n, i requires 0 <= i < n => Flag(d.active[i])),
      seq(n, i requires 0 <= i < n => DiscontinuedAt(d.discontinued[i])),
      NumberColumn(d.baseYields),
      NumberColumn(d.nutritionalValues),
      NumberColumn(d.costs),
      NumberColumn(d.environmentalImpacts),
      TextColumn(n, NoteOf),
      TextColumn(n, SupplierOf),
      seq(n, i requires 0 <= i < n => Days(d.shelfLifeDays[i] as nat)))
  }

  /** All fourteen columns are there, each with `num_samples` entries. */
  lemma GeneratedColumns(n: nat, d: Draws)
    requires DrawsFor(d, n)
    ensures Columns(GenerateDataset(n, d)).Keys == ColumnNames
    ensures forall c :: c in ColumnNames ==> |Columns(GenerateDataset(n, d))[c]| == n
  {
  }

  // ---------------------------------------------------------------------
  // What every generated dataset satisfies

  /** Names and codes identify their row: the digits read back as the row number plus 1, or plus 1000. */
  lemma NamesAndCodesIdentifyRows(n: nat, d: Draws, i: nat)
    requires DrawsFor(d, n) && i < n
    ensures var ds := GenerateDataset(n, d);
      && ds.name[i].s[..8] == "Product_"
      && ParseNat(ds.name[i].s[8..]) == i + 1
      && ds.code[i].s[..1] == "P"
      && ParseNat(ds.code[i].s[1..]) == i + 1000
  {
  }

  /** No two rows share a Name, and no two share a Code. */
  lemma NamesAndCodesDistinct(n: nat, d: Draws, i: nat, j: nat)
    requires DrawsFor(d, n) && i < n && j < n && i != j
    ensures GenerateDataset(n, d).name[i] != GenerateDataset(n, d).name[j]
    ensures GenerateDataset(n, d).code[i] != GenerateDataset(n, d).code[j]
  {
  }

  /** Descriptions and notes carry the row number plus 1 after their fixed prefix. */
  lemma DescriptionsAndNotesIdentifyRows(n: nat, d: Draws, i: nat)
    requires DrawsFor(d, n) && i < n
    ensures var ds := GenerateDataset(n, d);
      && ds.description[i].s[..23] == "Description of product "
      && ParseNat(ds.description[i].s[23..]) == i + 1
      && ds.notes[i].s[..5] == "Note "
      && ParseNat(ds.notes[i].s[5..]) == i + 1
  {
  }

  /** Suppliers cycle through "Supplier 1" to "Supplier 5" with period 5. */
  lemma SuppliersCycle(n: nat, d: Draws, i: nat)
    requires DrawsFor(d, n) && i < n
    ensures var sup := GenerateDataset(n, d).supplier;
      && sup[i].s[..9] == "Supplier "
      && 1 <= ParseNat(sup[i].s[9..]) <= 5
      && ParseNat(sup[i].s[9..]) == i % 5 + 1
  {
  }

  /** The Supplier pattern repeats with period 5. */
  lemma SuppliersPeriodic(n: nat, d: Draws, i: nat)
    requires DrawsFor(d, n) && i + 5 < n
    ensures GenerateDataset(n, d).supplier[i + 5] == GenerateDataset(n, d).supplier[i]
  {
    assert (i + 5) % 5 == i % 5;
    assert SupplierOf(i + 5) == SupplierOf(i);
  }

  const SupplierNames: seq<string> := ["Supplier 1", "Supplier 2", "Supplier 3", "Supplier 4", "Supplier 5"]

  lemma SupplierNamed(i: nat)
    ensures SupplierOf(i) == SupplierNames[i % 5]
  {
    var k := i % 5;
    assert NatToString(k + 1) == [DigitChar(k + 1)];
  }

  /** At most five distinct suppliers appear. */
  lemma AtMostFiveSuppliers(n: nat, d: Draws)
    requires DrawsFor(d, n)
    ensures |set i | 0 <= i < n :: GenerateDataset(n, d).supplier[i]| <= 5
  {
    var sup := GenerateDataset(n, d).supplier;
    var used := set i | 0 <= i < n :: sup[i];
    var names := set x | x in SupplierNames :: Text(x);
    forall i | 0 <= i < n
      ensures sup[i] in names
    {
      SupplierNamed(i);
    }
    assert used <= names;
    ImageBound(SupplierNames);
    assert |names| <= 5;
    SubsetCardinality(used, names);
  }

  lemma {:induction false} SubsetCardinality<T>(a: set<T>, b: set<T>)
    requires a <= b
    ensures |a| <= |b|
  {
    if a != {} {
      var x :| x in a;
      SubsetCardinality(a - {x}, b - {x});
    }
  }

  lemma {:induction false} ImageBound(s: seq<string>)
    ensures |set x | x in s :: Text(x)| <= |s|
  {
    if s != [] {
      var init := s[..|s| - 1];
      ImageBound(init);
      assert (set x | x in s :: Text(x)) == (set x | x in init :: Text(x)) + {Text(s[|s| - 1])} by {
        assert s == init + [s[|s| - 1]];
      }
    }
  }

  /** Every Category is one of the five product categories. */
  lemma CategoriesFromList(n: nat, d: Draws, i: nat)
    requires DrawsFor(d, n) && i < n
    ensures GenerateDataset(n, d).category[i].Text?
    ensures GenerateDataset(n, d).category[i].s in Categories
  {
  }

  /** Every ShelfLife is a day count in [30, 365), so positive. */
  lemma ShelfLivesPositive(n: nat, d: Draws, i: nat)
    requires DrawsFor(d, n) && i < n
    ensures GenerateDataset(n, d).shelfLife[i].Days?
    ensures 30 <= GenerateDataset(n, d).shelfLife[i].days < 365
  {
  }

  /** Every DiscontinuedAt is None or its row's clock reading less a whole number of days in [0, 365). */
  lemma DiscontinuedWithinAYear(n: nat, d: Draws, i: nat)
    requires DrawsFor(d, n) && i < n
    ensures var v := GenerateDataset(n, d).discontinuedAt[i];
      v.Missing? || (v.Timestamp? && exists k :: 0 <= k < 365 && v.micros == d.discontinued[i].clock - k * MicrosPerDay)
    ensures var v := GenerateDataset(n, d).discontinuedAt[i];
      v.Timestamp? <==> d.discontinued[i].roll < 0.1
  {
    var draw := d.discontinued[i];
    if draw.roll < 0.1 {
      assert DiscontinuedAt(draw).micros == draw.clock - draw.offsetDays * MicrosPerDay;
    }
  }

  // ---------------------------------------------------------------------
  // Generated data through the other scripts

  /**
   * The text assumed for a whole-day `timedelta` in the written CSV. The
   * writer's formatting is not part of this model; the lemma below holds for
   * any duration parser that reads this text back as that many days.
   */
  function RenderDays(days: nat): string
  {
    NatToString(days) + " days 00:00:00"
  }

  /** A ShelfLife column as the CSV cells the integrity check reads back. */
  function ShelfLifeCells(col: seq<Value>): (cells: seq<Cell>)
    ensures |cells| == |col|
    ensures forall i :: 0 <= i < |col| && col[i].Days? ==> cells[i] == Some(RenderDays(col[i].days))
  {
    seq(|col|, i requires 0 <= i < |col| => if col[i].Days? then Some(RenderDays(col[i].days)) else None)
  }

  /**
   * A generated ShelfLife column adds nothing to `invalid_shelf_life`, for
   * any duration parser that reads a rendered day count back as that many
   * days in nanoseconds.
   */
  lemma GeneratedShelfLivesValid(n: nat, d: Draws, parse: Integrity.DurationParser)
    requires DrawsFor(d, n)
    requires forall k: nat :: parse(RenderDays(k)) == Some(k * 86_400_000_000_000)
    ensures var cells := ShelfLifeCells(GenerateDataset(n, d).shelfLife);
      Integrity.UnparsedCount(cells, parse) + Integrity.NonPositiveCount(cells, parse) == 0
  {
    var col := GenerateDataset(n, d).shelfLife;
    var cells := ShelfLifeCells(col);
    forall i | 0 <= i < |cells|
      ensures Integrity.ValidShelfLife(cells[i], parse)
    {
      assert col[i].Days? && col[i].days >= 30;
      assert parse(RenderDays(col[i].days)) == Some(col[i].days * 86_400_000_000_000);
    }
    Integrity.ShelfLifeCountBounds(cells, parse);
  }

  /** A number column as the present cells the metrics scripts average. */
  function NumberCells(col: seq<Value>): (cells: seq<Option<real>>)
    ensures |cells| == |col|
    ensures forall i :: 0 <= i < |col| && col[i].Number? ==> cells[i] == Some(col[i].x)
  {
    seq(|col|, i requires 0 <= i < |col| => if col[i].Number? then Some(col[i].x) else None)
  }

  /** The averages the metrics scripts report on generated data lie in the drawn ranges. */
  lemma GeneratedAveragesInRange(n: nat, d: Draws)
    requires DrawsFor(d, n) && n > 0
    ensures var m := MeanOf(NumberCells(GenerateDataset(n, d).baseYield));
      m.Num? && 50.0 <= m.x < 100.0
    ensures var m := MeanOf(NumberCells(GenerateDataset(n, d).cost));
      m.Num? && 10.0 <= m.x < 100.0
    ensures var m := MeanOf(NumberCells(GenerateDataset(n, d).environmentalImpact));
      m.Num? && 0.1 <= m.x < 5.0
  {
    var ds := GenerateDataset(n, d);
    NumberColumnMean(ds.baseYield, d.baseYields, 50.0, 100.0);
    NumberColumnMean(ds.cost, d.costs, 10.0, 100.0);
    NumberColumnMean(ds.environmentalImpact, d.environmentalImpacts, 0.1, 5.0);
  }

  lemma NumberColumnMean(col: seq<Value>, xs: seq<real>, lo: real, hi: real)
    requires col == NumberColumn(xs) && xs != [] && InRange(xs, lo, hi)
    ensures MeanOf(NumberCells(col)).Num?
    ensures lo <= MeanOf(NumberCells(col)).x < hi
  {
    var cells := NumberCells(col);
    assert cells[0].Some?;
    MeanWithin(cells, lo, hi);
  }
}
