/** Proxy records, the five quality-control columns, their fill values, and the
    in-place NaN filler that runs before any filter (utils.py, `fill_nans`). */
module Proxy {

  datatype Option<T> = None | Some(value: T)

  /** One numeric cell; `None` stands for a missing (NaN) entry. */
  type Cell = Option<real>

  /** One row of the proxy compilation: the five columns the filters read, and every
      other column (site, depth, age, SST, ...) as an untouched `aux` payload. */
  datatype Row = Row(
    mi: Cell,          // "MI", methane index
    gdgtrs: Cell,      // "%GDGTrs", Red-Sea-type GDGTs
    cren: Cell,        // "Cren'", crenarchaeol area
    bit: Cell,         // "BIT", branched and isoprenoid tetraether index
    ringstetra: Cell,  // "#ringstetra", cyclisation of tetramethylated brGDGTs
    aux: map<string, string>)

  type Table = seq<Row>

  /** The five columns that `fill_nans` writes. */
  datatype Column = MI | GDGTrs | Cren | BIT | RingsTetra

  // Fill values and thresholds, as the module-level constants define them. Each
  // threshold is followed by its text, Python's `str` of that same constant
  // (floats keep their point, ints have none), from which the filter tags are built.
  const MiFillNa: real := -999.0
  const MiThreshold: real := 0.4
  const MiThresholdText: string := "0.4"
  const GdgtrsFillNa: real := -999.0
  const GdgtrsThreshold: real := 30.0
  const GdgtrsThresholdText: string := "30"
  const CrenFillNa: real := 9999.0
  const CrenThreshold: real := 1000.0
  const CrenThresholdText: string := "1000"
  const BitFillNa: real := -999.0
  const BitThreshold: real := 0.4
  const BitThresholdText: string := "0.4"
  const RingsTetraFillNa: real := 999.0
  const RingsTetraThreshold: real := 0.7
  const RingsTetraThresholdText: string := "0.7"

  function Get(row: Row, c: Column): Cell
  {
    match c
    case MI => row.mi
    case GDGTrs => row.gdgtrs
    case Cren => row.cren
    case BIT => row.bit
    case RingsTetra => row.ringstetra
  }

  /** The value `fill_nans` writes into a missing cell of column `c`. */
  function FillValue(c: Column): real
  {
    match c
    case MI => MiFillNa
    case GDGTrs => GdgtrsFillNa
    case Cren => CrenFillNa
    case BIT => BitFillNa
    case RingsTetra => RingsTetraFillNa
  }

  /** pandas `Series.fillna` on one cell. */
  function FillNa(v: Cell, fill: real): Cell
  {
    if v.None? then Some(fill) else v
  }

  /** One column assignment `df[c] = df[c].fillna(...)`, seen on one row: column `c`
      loses its missing entry and nothing else in the row changes. */
  function FillColumnOf(row: Row, c: Column): (r: Row)
    ensures Get(r, c).Some?
    ensures Get(row, c).Some? ==> Get(r, c) == Get(row, c)
    ensures Get(row, c).None? ==> Get(r, c) == Some(FillValue(c))
    ensures forall d :: d != c ==> Get(r, d) == Get(row, d)
    ensures r.aux == row.aux
  {
    match c
    case MI => row.(mi := FillNa(row.mi, MiFillNa))
    case GDGTrs => row.(gdgtrs := FillNa(row.gdgtrs, GdgtrsFillNa))
    case Cren => row.(cren := FillNa(row.cren, CrenFillNa))
    case BIT => row.(bit := FillNa(row.bit, BitFillNa))
    case RingsTetra => row.(ringstetra := FillNa(row.ringstetra, RingsTetraFillNa))
  }

  /** What `fill_nans` does to one row: the five column assignments, in source order. */
  function FillRow(row: Row): (r: Row)
    ensures Filled(r)
    ensures forall c :: Get(row, c).Some? ==> Get(r, c) == Get(row, c)
    ensures forall c :: Get(row, c).None? ==> Get(r, c) == Some(FillValue(c))
    ensures r.aux == row.aux
  {
    FillColumnOf(FillColumnOf(FillColumnOf(FillColumnOf(FillColumnOf(
      row, MI), GDGTrs), Cren), BIT), RingsTetra)
  }

  /** A row with no missing cell among the five columns. */
  predicate Filled(row: Row)
  {
    row.mi.Some? && row.gdgtrs.Some? && row.cren.Some? && row.bit.Some? && row.ringstetra.Some?
  }

  /** Filling is a no-op on a filled row, so running `fill_nans` twice is running it once. */
  lemma FillRowIdempotent(row: Row)
    ensures Filled(FillRow(row))
    ensures Filled(row) ==> FillRow(row) == row
    ensures FillRow(FillRow(row)) == FillRow(row)
  {
    var r := FillRow(row);
    assert Get(r, MI).Some? && Get(r, GDGTrs).Some? && Get(r, Cren).Some?;
    assert Get(r, BIT).Some? && Get(r, RingsTetra).Some?;
  }

  /** `df[c] = df[c].fillna(FillValue(c))`, overwriting column `c` of every row in place. */
  method FillColumn(df: array<Row>, c: Column)
    modifies df
    ensures forall i :: 0 <= i < df.Length ==> df[i] == FillColumnOf(old(df[i]), c)
  {
    for i := 0 to df.Length
      invariant forall k :: 0 <= k < i ==> df[k] == FillColumnOf(old(df[k]), c)
      invariant forall k :: i <= k < df.Length ==> df[k] == old(df[k])
    {
      df[i] := FillColumnOf(df[i], c);
    }
  }

  /** `fill_nans`: fills the five columns of the table in place, one column after the
      other, and hands back the very same table. */
  method FillNans(df: array<Row>) returns (out: array<Row>)
    modifies df
    ensures out == df
    ensures forall i :: 0 <= i < df.Length ==> df[i] == FillRow(old(df[i]))
    ensures forall i :: 0 <= i < df.Length ==> Filled(df[i]) && df[i].aux == old(df[i].aux)
  {
    FillColumn(df, MI);
    FillColumn(df, GDGTrs);
    FillColumn(df, Cren);
    FillColumn(df, BIT);
    FillColumn(df, RingsTetra);
    forall i | 0 <= i < df.Length ensures Filled(df[i]) {
      FillRowIdempotent(old(df[i]));
    }
    out := df;
  }
}
