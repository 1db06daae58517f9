/** The pipeline runner of utils.py: `apply_filters` threads a table through an
    ordered list of filters and accumulates their tags; `apply_final_filtering` is
    the configuration used for the published results; `filter_data` is the
    single-pass variant that combines three masks into one. */
module Pipeline {
  import opened Proxy
  import opened Frame
  import opened Filters

  /** A filter function handed to `apply_filters`, one variant per filter. */
  datatype Stage = MiStage | GdgtrsStage | CrenStage | BitRingstetraStage

  /** Calls the stage's filter function. */
  function Apply(s: Stage, df: Table): (Table, string)
  {
    match s
    case MiStage => FilterMi(df)
    case GdgtrsStage => FilterGdgtrs(df)
    case CrenStage => FilterCren(df)
    case BitRingstetraStage => FilterBitRingstetra(df)
  }

  /** The row mask of the stage's filter. */
  function Mask(s: Stage): Row -> bool
  {
    match s
    case MiStage => KeepsMi
    case GdgtrsStage => KeepsGdgtrs
    case CrenStage => KeepsCren
    case BitRingstetraStage => KeepsBitRingstetra
  }

  /** The tag the stage's filter returns, whatever table it is given. */
  function Tag(s: Stage): string
  {
    match s
    case MiStage => MiTag()
    case GdgtrsStage => GdgtrsTag()
    case CrenStage => CrenTag()
    case BitRingstetraStage => BitRingstetraTag()
  }

  /** A stage selects with its mask and returns its tag. */
  lemma ApplyIsMask(s: Stage, df: Table)
    ensures Apply(s, df).0 == Where(df, Mask(s))
    ensures Apply(s, df).1 == Tag(s)
  {
  }

  /** Any two stages commute on the table they produce. */
  lemma StagesCommute(s: Stage, u: Stage, df: Table)
    ensures Apply(u, Apply(s, df).0).0 == Apply(s, Apply(u, df).0).0
  {
    WhereCommutes(df, Mask(s), Mask(u));
  }

  // ---------------------------------------------------------------------------
  // apply_filters

  /** What `apply_filters(df, filters)` returns: the loop's two accumulators after
      the last stage, the table passed through each stage in turn and the string
      extended by "_" and that stage's tag. */
  function Run(filters: seq<Stage>, df: Table): (Table, string)
    decreases |filters|
  {
    if filters == [] then (df, "")
    else
      var sofar := Run(filters[..|filters| - 1], df);
      var step := Apply(filters[|filters| - 1], sofar.0);
      (step.0, sofar.1 + "_" + step.1)
  }

  /** `apply_filters`: the `for` loop over the filter list. */
  method ApplyFilters(df: Table, filters: seq<Stage>) returns (filtered: Table, postpend: string)
    ensures (filtered, postpend) == Run(filters, df)
    ensures filtered == Where(df, Conjunction(filters))
    ensures postpend == Tags(filters)
    ensures filters == [] ==> filtered == df && postpend == ""
  {
    filtered := df;
    postpend := "";
    for i := 0 to |filters|
      invariant (filtered, postpend) == Run(filters[..i], df)
    {
      assert filters[..i + 1][..i] == filters[..i];
      var step := Apply(filters[i], filtered);
      filtered := step.0;
      postpend := postpend + "_" + step.1;
    }
    assert filters[..|filters|] == filters;
    RunIsConjunction(filters, df);
    RunTags(filters, df);
  }

  // ---------------------------------------------------------------------------
  // Independent descriptions of what the runner computes

  /** The row passes the mask of every stage in the list. */
  predicate PassesAll(filters: seq<Stage>, row: Row)
  {
    forall s :: s in filters ==> Mask(s)(row)
  }

  /** The single mask and-ing together the masks of all the stages. */
  function Conjunction(filters: seq<Stage>): Row -> bool
  {
    row => PassesAll(filters, row)
  }

  /** The tag string, read left to right: "_" + tag for each stage in list order. */
  function Tags(filters: seq<Stage>): string
    decreases |filters|
  {
    if filters == [] then "" else "_" + Tag(filters[0]) + Tags(filters[1..])
  }

  /** Tags of a concatenated list are the concatenated tags. */
  lemma {:induction false} TagsAppend(f: seq<Stage>, g: seq<Stage>)
    ensures Tags(f + g) == Tags(f) + Tags(g)
    decreases |f|
  {
    if f == [] {
      assert f + g == g;
    } else {
      assert (f + g)[1..] == f[1..] + g;
      TagsAppend(f[1..], g);
    }
  }

  /** Sequential filtering equals one conjunctive mask: the runner keeps, in order,
      exactly the rows that every stage in the list accepts. */
  lemma {:induction false} RunIsConjunction(filters: seq<Stage>, df: Table)
    ensures Run(filters, df).0 == Where(df, Conjunction(filters))
    decreases |filters|
  {
    if filters == [] {
      WhereAllKept(df, Conjunction(filters));
    } else {
      var init, last := filters[..|filters| - 1], filters[|filters| - 1];
      RunIsConjunction(init, df);
      ApplyIsMask(last, Run(init, df).0);
      WhereWhere(df, Conjunction(init), Mask(last));
      forall row ensures Both(Conjunction(init), Mask(last))(row) == Conjunction(filters)(row) {
        assert filters == init + [last];
      }
      WhereAgreeing(df, Both(Conjunction(init), Mask(last)), Conjunction(filters));
    }
  }

  /** The tag the runner accumulates is the list-order concatenation of "_" + tag. */
  lemma {:induction false} RunTags(filters: seq<Stage>, df: Table)
    ensures Run(filters, df).1 == Tags(filters)
    decreases |filters|
  {
    if filters != [] {
      var init, last := filters[..|filters| - 1], filters[|filters| - 1];
      RunTags(init, df);
      ApplyIsMask(last, Run(init, df).0);
      TagsAppend(init, [last]);
      assert filters == init + [last];
      assert Tags([last]) == "_" + Tag(last) + "";
    }
  }

  /** Read from the front: the first filter in the list runs first, on the input
      table, and its tag comes first in the string. */
  lemma RunFirstStageFirst(s: Stage, rest: seq<Stage>, df: Table)
    ensures Run([s] + rest, df).0 == Run(rest, Apply(s, df).0).0
    ensures Run([s] + rest, df).1 == "_" + Tag(s) + Run(rest, Apply(s, df).0).1
  {
    var first := Apply(s, df).0;
    ApplyIsMask(s, df);
    RunIsConjunction([s] + rest, df);
    RunIsConjunction(rest, first);
    WhereWhere(df, Mask(s), Conjunction(rest));
    forall row ensures Both(Mask(s), Conjunction(rest))(row) == Conjunction([s] + rest)(row) {
      assert forall u :: u in [s] + rest <==> u == s || u in rest;
    }
    WhereAgreeing(df, Both(Mask(s), Conjunction(rest)), Conjunction([s] + rest));
    RunTags([s] + rest, df);
    RunTags(rest, first);
    assert ([s] + rest)[0] == s && ([s] + rest)[1..] == rest;
  }

  /** The order of the stages, and repeating one, does not change the rows kept. */
  lemma RunOrderIrrelevant(f: seq<Stage>, g: seq<Stage>, df: Table)
    requires forall s :: s in f <==> s in g
    ensures Run(f, df).0 == Run(g, df).0
  {
    RunIsConjunction(f, df);
    RunIsConjunction(g, df);
    WhereAgreeing(df, Conjunction(f), Conjunction(g));
  }

  /** A table in which one row fails some stage and every other row passes them
      all loses exactly that row. */
  lemma OnlyFailingRowDropped(filters: seq<Stage>, before: Table, x: Row, after: Table)
    requires forall i :: 0 <= i < |before| ==> PassesAll(filters, before[i])
    requires forall i :: 0 <= i < |after| ==> PassesAll(filters, after[i])
    requires !PassesAll(filters, x)
    ensures Run(filters, before + [x] + after).0 == before + after
  {
    RunIsConjunction(filters, before + [x] + after);
    WhereDropsOnlyFailing(before, x, after, Conjunction(filters));
  }

  // ---------------------------------------------------------------------------
  // The two configurations

  /** The filter list of `apply_final_filtering`. */
  const FinalStages: seq<Stage> := [MiStage, GdgtrsStage, BitRingstetraStage]

  /** `apply_final_filtering`: MI, then %GDGTrs, then BIT/#ringstetra. */
  method ApplyFinalFiltering(df: Table) returns (filtered: Table, postpend: string)
    ensures (filtered, postpend) == Run(FinalStages, df)
    ensures postpend == "_MI0pt4_RS30_BIT0pt4_RT0pt7"
    ensures filtered == FilterBitRingstetra(FilterGdgtrs(FilterMi(df).0).0).0
    ensures forall row :: row in filtered <==>
      (row in df && KeepsMi(row) && KeepsGdgtrs(row) && KeepsBitRingstetra(row))
  {
    filtered, postpend := ApplyFilters(df, FinalStages);
    FinalTags();
    var keep := Both(Both(KeepsMi, KeepsGdgtrs), KeepsBitRingstetra);
    forall row ensures Conjunction(FinalStages)(row) == keep(row) {
      FinalMask(row);
    }
    WhereAgreeing(df, Conjunction(FinalStages), keep);
    WhereWhere(df, KeepsMi, KeepsGdgtrs);
    WhereWhere(df, Both(KeepsMi, KeepsGdgtrs), KeepsBitRingstetra);
    WhereSelects(df, keep);
    SelectsMembership(filtered, df, keep);
  }

  /** The final configuration keeps a row exactly when its three masks all do. */
  lemma FinalMask(row: Row)
    ensures PassesAll(FinalStages, row) == (KeepsMi(row) && KeepsGdgtrs(row) && KeepsBitRingstetra(row))
  {
    var f := FinalStages;
    assert f[0] == MiStage && f[1] == GdgtrsStage && f[2] == BitRingstetraStage;
    if PassesAll(f, row) {
      assert Mask(f[0])(row) && Mask(f[1])(row) && Mask(f[2])(row);
    }
    if KeepsMi(row) && KeepsGdgtrs(row) && KeepsBitRingstetra(row) {
      forall s | s in f ensures Mask(s)(row) {
        assert s == MiStage || s == GdgtrsStage || s == BitRingstetraStage;
      }
    }
  }

  /** The tag string of the final configuration. */
  lemma FinalTags()
    ensures Tags(FinalStages) == "_MI0pt4_RS30_BIT0pt4_RT0pt7"
  {
  }

  /** The three conditions `filter_data` combines into one mask. */
  predicate KeepsMiGdgtrsCren(row: Row)
  {
    KeepsMi(row) && KeepsGdgtrs(row) && KeepsCren(row)
  }

  /** `filter_data`: one pass with the MI, %GDGTrs and Cren' conditions and-ed
      together, which is the same as running the three filters one after the other. */
  function FilterData(df: Table): (r: Table)
    ensures Selects(r, df, KeepsMiGdgtrsCren)
    ensures r == FilterCren(FilterGdgtrs(FilterMi(df).0).0).0
  {
    WhereWhere(df, KeepsMi, KeepsGdgtrs);
    WhereWhere(df, Both(KeepsMi, KeepsGdgtrs), KeepsCren);
    WhereAgreeing(df, Both(Both(KeepsMi, KeepsGdgtrs), KeepsCren), KeepsMiGdgtrsCren);
    WhereSelects(df, KeepsMiGdgtrsCren);
    Where(df, KeepsMiGdgtrsCren)
  }

  /** A list naming exactly the stages MI, %GDGTrs and Cren' passes a row exactly
      when the single-pass mask does. */
  lemma ThreeStageMask(filters: seq<Stage>, row: Row)
    requires forall s :: s in filters <==> s in [MiStage, GdgtrsStage, CrenStage]
    ensures PassesAll(filters, row) == KeepsMiGdgtrsCren(row)
  {
    if PassesAll(filters, row) {
      assert MiStage in filters && GdgtrsStage in filters && CrenStage in filters;
      assert Mask(MiStage)(row) && Mask(GdgtrsStage)(row) && Mask(CrenStage)(row);
    }
    if KeepsMiGdgtrsCren(row) {
      forall s | s in filters ensures Mask(s)(row) {
        assert s == MiStage || s == GdgtrsStage || s == CrenStage;
      }
    }
  }

  /** The single pass equals the three filters run in any order (or repeated). */
  lemma FilterDataAnyOrder(filters: seq<Stage>, df: Table)
    requires forall s :: s in filters <==> s in [MiStage, GdgtrsStage, CrenStage]
    ensures Run(filters, df).0 == FilterData(df)
  {
    RunIsConjunction(filters, df);
    forall row ensures Conjunction(filters)(row) == KeepsMiGdgtrsCren(row) {
      ThreeStageMask(filters, row);
    }
    WhereAgreeing(df, Conjunction(filters), KeepsMiGdgtrsCren);
  }
}
