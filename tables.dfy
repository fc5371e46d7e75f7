/**
 * The in-memory tables the dataset scripts work on.
 *
 * A `Table` is what reading the CSV file yields: a row count and, per column
 * name, one raw cell per row (`None` for an empty or NA cell). A `Frame` is a
 * table after the metrics scripts have coerced some of its columns to
 * numbers: text columns keep their raw cells, numeric columns hold one
 * optional real per row.
 */
module Tables {
  import opened Wrappers

  /** A raw CSV cell: its text, or `None` when pandas reads it as missing. */
  type Cell = Option<string>

  datatype Table = Table(height: nat, columns: map<string, seq<Cell>>)

  /** Every column of a read table has one cell per row. */
  predicate WellFormed(t: Table)
  {
    forall c :: c in t.columns ==> |t.columns[c]| == t.height
  }

  /**
   * The per-cell number parser behind `pd.to_numeric(..., errors="coerce")`:
   * `None` when the text does not parse. Its grammar is pandas' own.
   */
  type NumberParser = string -> Option<real>

  /**
   * Coercion of one cell with `errors="coerce"`, for numbers and durations
   * alike: a missing cell stays missing, text the parser rejects becomes missing.
   */
  function Coerce<T>(c: Cell, parse: string -> Option<T>): (r: Option<T>)
    ensures r.Some? ==> c.Some? && parse(c.value) == r
    ensures c.Some? ==> r == parse(c.value)
  {
    if c.None? then None else parse(c.value)
  }

  /** `pd.to_numeric(column, errors="coerce")`, cell by cell. */
  function ToNumericColumn(cells: seq<Cell>, parse: NumberParser): (r: seq<Option<real>>)
    ensures |r| == |cells|
    ensures forall i :: 0 <= i < |cells| ==> r[i] == Coerce(cells[i], parse)
  {
    seq(|cells|, i requires 0 <= i < |cells| => Coerce(cells[i], parse))
  }

  /** The columns of `m` whose names are in `names` (the `usecols` of a read). */
  function Restrict<V>(m: map<string, V>, names: set<string>): (r: map<string, V>)
    ensures r.Keys == m.Keys * names
    ensures forall c :: c in r ==> r[c] == m[c]
  {
    map c | c in m && c in names :: m[c]
  }

  datatype Frame = Frame(height: nat, text: map<string, seq<Cell>>, numeric: map<string, seq<Option<real>>>)

  /** A frame names each column once and every column has one entry per row. */
  predicate FrameWellFormed(f: Frame)
  {
    && f.text.Keys !! f.numeric.Keys
    && (forall c :: c in f.text ==> |f.text[c]| == f.height)
    && (forall c :: c in f.numeric ==> |f.numeric[c]| == f.height)
  }

  /** `name in df.columns` */
  predicate HasColumn(f: Frame, name: string)
  {
    name in f.text || name in f.numeric
  }

  /** What reading a CSV file gave a script: no file, a read error, or the table. */
  datatype LoadOutcome = FileNotFound | Unreadable(reason: string) | Loaded(table: Table)
}
