/** The four single-criterion filters of utils.py and the `numf` formatter that
    builds their provenance tags. Each filter is a boolean-mask selection whose
    comparison is strict; a missing cell compares false, as NaN does in pandas. */
module Filters {
  import opened Proxy
  import opened Frame

  // ---------------------------------------------------------------------------
  // numf: filename-safe rendering of a number

  /** `str(x).replace(".", "pt")`, on the decimal rendering `s` of the number. */
  function Numf(s: string): string
    decreases |s|
  {
    if s == [] then []
    else (if s[0] == '.' then "pt" else [s[0]]) + Numf(s[1..])
  }

  /** `numf` removes every point, adding one character per point it replaces, and
      leaves a string without points as it was. */
  lemma {:induction false} NumfSpec(s: string)
    ensures '.' !in Numf(s)
    ensures '.' !in s ==> Numf(s) == s
    ensures |Numf(s)| == |s| + Occurrences(s, '.')
    decreases |s|
  {
    if s != [] {
      NumfSpec(s[1..]);
      assert s == [s[0]] + s[1..];
      assert '.' !in s ==> '.' !in s[1..];
    }
  }

  /** How many times `c` occurs in `s`. */
  function Occurrences(s: string, c: char): nat
    decreases |s|
  {
    if s == [] then 0 else (if s[0] == c then 1 else 0) + Occurrences(s[1..], c)
  }

  /** Reads a tag back: every "pt" becomes the point it stood for. */
  function RestorePoints(s: string): string
    decreases |s|
  {
    if |s| >= 2 && s[0] == 'p' && s[1] == 't' then "." + RestorePoints(s[2..])
    else if s == [] then []
    else [s[0]] + RestorePoints(s[1..])
  }

  /** A decimal rendering holds no 'p', and for such strings `numf` loses nothing. */
  lemma {:induction false} NumfRoundTrip(s: string)
    requires 'p' !in s
    ensures RestorePoints(Numf(s)) == s
    decreases |s|
  {
    if s != [] {
      assert 'p' !in s[1..] by { assert forall k :: 0 <= k < |s| - 1 ==> s[1..][k] == s[k + 1]; }
      NumfRoundTrip(s[1..]);
      var tail := Numf(s[1..]);
      if s[0] == '.' {
        assert ("pt" + tail)[2..] == tail;
      } else {
        assert ([s[0]] + tail)[1..] == tail;
      }
      assert s == [s[0]] + s[1..];
    }
  }

  /** The tags the filters return, `f"MI{numf(MI_THRESHOLD)}"` and so on: the
      rendered thresholds have exactly the filename forms the output names use. */
  function MiTag(): (tag: string)
    ensures tag == "MI0pt4"
  {
    assert Numf(".4") == "pt4";
    "MI" + Numf(MiThresholdText)
  }

  function GdgtrsTag(): (tag: string)
    ensures tag == "RS30"
  {
    "RS" + Numf(GdgtrsThresholdText)
  }

  function CrenTag(): (tag: string)
    ensures tag == "CR1000"
  {
    "CR" + Numf(CrenThresholdText)
  }

  function BitRingstetraTag(): (tag: string)
    ensures tag == "BIT0pt4_RT0pt7"
  {
    assert Numf(".4") == "pt4";
    assert Numf(".7") == "pt7";
    "BIT" + Numf(BitThresholdText) + "_RT" + Numf(RingsTetraThresholdText)
  }

  // ---------------------------------------------------------------------------
  // Comparisons with pandas semantics: NaN is neither below nor above anything.

  predicate Below(v: Cell, bound: real)
  {
    v.Some? && v.value < bound
  }

  predicate Above(v: Cell, bound: real)
  {
    v.Some? && v.value > bound
  }

  /** The masks of the four filters, one row at a time. */
  predicate KeepsMi(row: Row)
  {
    Below(row.mi, MiThreshold)
  }

  predicate KeepsGdgtrs(row: Row)
  {
    Below(row.gdgtrs, GdgtrsThreshold)
  }

  predicate KeepsCren(row: Row)
  {
    Above(row.cren, CrenThreshold)
  }

  predicate KeepsBitRingstetra(row: Row)
  {
    !(Above(row.bit, BitThreshold) && Below(row.ringstetra, RingsTetraThreshold))
  }

  // ---------------------------------------------------------------------------
  // The filters. Each returns the selected rows and its provenance tag.

  /** `filter_mi`: keeps the rows whose MI is strictly below 0.4. */
  function FilterMi(df: Table): (r: (Table, string))
    ensures Selects(r.0, df, KeepsMi)
    ensures forall row :: row in r.0 <==> row in df && row.mi.Some? && row.mi.value < 0.4
    ensures r.1 == "MI0pt4"
  {
    var filtered := Where(df, KeepsMi);
    WhereSelects(df, KeepsMi);
    SelectsMembership(filtered, df, KeepsMi);
    assert forall row :: KeepsMi(row) <==> row.mi.Some? && row.mi.value < 0.4;
    (filtered, MiTag())
  }

  /** `filter_gdgtrs`: keeps the rows whose %GDGTrs is strictly below 30. */
  function FilterGdgtrs(df: Table): (r: (Table, string))
    ensures Selects(r.0, df, KeepsGdgtrs)
    ensures forall row :: row in r.0 <==> row in df && row.gdgtrs.Some? && row.gdgtrs.value < 30.0
    ensures r.1 == "RS30"
  {
    var filtered := Where(df, KeepsGdgtrs);
    WhereSelects(df, KeepsGdgtrs);
    SelectsMembership(filtered, df, KeepsGdgtrs);
    assert forall row :: KeepsGdgtrs(row) <==> row.gdgtrs.Some? && row.gdgtrs.value < 30.0;
    (filtered, GdgtrsTag())
  }

  /** `filter_cren`: keeps the rows whose Cren' is strictly above 1000. */
  function FilterCren(df: Table): (r: (Table, string))
    ensures Selects(r.0, df, KeepsCren)
    ensures forall row :: row in r.0 <==> row in df && row.cren.Some? && row.cren.value > 1000.0
    ensures r.1 == "CR1000"
  {
    var filtered := Where(df, KeepsCren);
    WhereSelects(df, KeepsCren);
    SelectsMembership(filtered, df, KeepsCren);
    assert forall row :: KeepsCren(row) <==> row.cren.Some? && row.cren.value > 1000.0;
    (filtered, CrenTag())
  }

  /** `filter_bit_ringstetra`: drops exactly the rows with BIT above 0.4 and, at the
      same time, #ringstetra below 0.7. */
  function FilterBitRingstetra(df: Table): (r: (Table, string))
    ensures Selects(r.0, df, KeepsBitRingstetra)
    ensures forall row :: row in r.0 <==> (row in df &&
      !(row.bit.Some? && row.bit.value > 0.4 && row.ringstetra.Some? && row.ringstetra.value < 0.7))
    ensures r.1 == "BIT0pt4_RT0pt7"
  {
    var filtered := Where(df, KeepsBitRingstetra);
    WhereSelects(df, KeepsBitRingstetra);
    SelectsMembership(filtered, df, KeepsBitRingstetra);
    assert forall row :: KeepsBitRingstetra(row) <==> !(row.bit.Some? && row.bit.value > 0.4 && row.ringstetra.Some? && row.ringstetra.value < 0.7);
    (filtered, BitRingstetraTag())
  }

  // ---------------------------------------------------------------------------
  // Properties of the filters

  /** Comparisons are strict: a value equal to its threshold is dropped by the MI,
      %GDGTrs and Cren' filters, and the joint BIT/#ringstetra filter keeps rows
      that meet only one of its two conditions. */
  lemma ThresholdBoundaries(df: Table, row: Row)
    requires row in df
    ensures row.mi == Some(0.4) ==> row !in FilterMi(df).0
    ensures row.gdgtrs == Some(30.0) ==> row !in FilterGdgtrs(df).0
    ensures row.cren == Some(1000.0) ==> row !in FilterCren(df).0
    ensures Above(row.bit, 0.4) && !Below(row.ringstetra, 0.7) ==> row in FilterBitRingstetra(df).0
    ensures !Above(row.bit, 0.4) && Below(row.ringstetra, 0.7) ==> row in FilterBitRingstetra(df).0
    ensures row.bit == Some(0.4) ==> row in FilterBitRingstetra(df).0
    ensures row.ringstetra == Some(0.7) ==> row in FilterBitRingstetra(df).0
  {
  }

  /** Each filter returns an order-preserving subsequence of its input, and applying
      a filter to its own output removes nothing more. */
  lemma FiltersSubsequenceIdempotent(df: Table)
    ensures IsSubsequence(FilterMi(df).0, df) && |FilterMi(df).0| <= |df|
    ensures IsSubsequence(FilterGdgtrs(df).0, df) && |FilterGdgtrs(df).0| <= |df|
    ensures IsSubsequence(FilterCren(df).0, df) && |FilterCren(df).0| <= |df|
    ensures IsSubsequence(FilterBitRingstetra(df).0, df) && |FilterBitRingstetra(df).0| <= |df|
    ensures FilterMi(FilterMi(df).0) == FilterMi(df)
    ensures FilterGdgtrs(FilterGdgtrs(df).0) == FilterGdgtrs(df)
    ensures FilterCren(FilterCren(df).0) == FilterCren(df)
    ensures FilterBitRingstetra(FilterBitRingstetra(df).0) == FilterBitRingstetra(df)
  {
    WhereIdempotent(df, KeepsMi);
    WhereIdempotent(df, KeepsGdgtrs);
    WhereIdempotent(df, KeepsCren);
    WhereIdempotent(df, KeepsBitRingstetra);
  }

  /** Every fill value passes its own test: after `fill_nans` a missing cell never
      causes a row to be dropped. (Without filling, a missing MI, %GDGTrs or Cren'
      compares false and drops the row; a missing BIT or #ringstetra keeps it.) */
  lemma FillValuesPass(row: Row)
    ensures row.mi.None? ==> KeepsMi(FillRow(row)) && !KeepsMi(row)
    ensures row.gdgtrs.None? ==> KeepsGdgtrs(FillRow(row)) && !KeepsGdgtrs(row)
    ensures row.cren.None? ==> KeepsCren(FillRow(row)) && !KeepsCren(row)
    ensures row.bit.None? || row.ringstetra.None? ==>
      KeepsBitRingstetra(FillRow(row)) && KeepsBitRingstetra(row)
  {
    var r := FillRow(row);
    assert Get(row, MI).None? ==> Get(r, MI) == Some(MiFillNa);
    assert Get(row, GDGTrs).None? ==> Get(r, GDGTrs) == Some(GdgtrsFillNa);
    assert Get(row, Cren).None? ==> Get(r, Cren) == Some(CrenFillNa);
    assert Get(row, BIT).None? ==> Get(r, BIT) == Some(BitFillNa);
    assert Get(row, RingsTetra).None? ==> Get(r, RingsTetra) == Some(RingsTetraFillNa);
  }

  /** A row in which every present value passes its test. */
  predicate PresentValuesPass(row: Row)
  {
    (row.mi.Some? ==> KeepsMi(row)) &&
    (row.gdgtrs.Some? ==> KeepsGdgtrs(row)) &&
    (row.cren.Some? ==> KeepsCren(row)) &&
    (row.bit.Some? && row.ringstetra.Some? ==> KeepsBitRingstetra(row))
  }

  /** After `fill_nans`, a row whose only failing candidates were missing cells
      passes every one of the four masks. */
  lemma FilledRowPasses(row: Row)
    requires PresentValuesPass(row)
    ensures KeepsMi(FillRow(row)) && KeepsGdgtrs(FillRow(row))
    ensures KeepsCren(FillRow(row)) && KeepsBitRingstetra(FillRow(row))
  {
    var r := FillRow(row);
    FillValuesPass(row);
    if row.mi.Some? { assert r.mi == Get(r, MI) == Get(row, MI) == row.mi; }
    if row.gdgtrs.Some? { assert r.gdgtrs == Get(r, GDGTrs) == Get(row, GDGTrs) == row.gdgtrs; }
    if row.cren.Some? { assert r.cren == Get(r, Cren) == Get(row, Cren) == row.cren; }
    if row.bit.Some? && row.ringstetra.Some? {
      assert r.bit == Get(r, BIT) == Get(row, BIT) == row.bit;
      assert r.ringstetra == Get(r, RingsTetra) == Get(row, RingsTetra) == row.ringstetra;
    }
  }

  /** The same at table level: such a row, once filled, is kept by every filter. */
  lemma FilledRowSurvivesEveryFilter(df: Table, row: Row)
    requires PresentValuesPass(row)
    requires FillRow(row) in df
    ensures FillRow(row) in FilterMi(df).0
    ensures FillRow(row) in FilterGdgtrs(df).0
    ensures FillRow(row) in FilterCren(df).0
    ensures FillRow(row) in FilterBitRingstetra(df).0
  {
    FilledRowPasses(row);
  }
}
