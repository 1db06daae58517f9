# Proxy row-filter pipeline, modelled in Dafny

This project models the data-cleaning core of a paleoclimate analysis
(`utils.py`). The analysis works on a compilation of sea-surface-temperature
proxy samples. Before samples are used, rows are excluded on five
geochemical quality indices: the methane index (MI), Red-Sea-type GDGTs
(%GDGTrs), the crenarchaeol area (Cren'), the branched and isoprenoid
tetraether index (BIT) and the ring index of tetramethylated brGDGTs
(#ringstetra).

The model covers four parts:

- `fill_nans`: overwrites the missing cells of the five columns in place with
  fixed fill values.
- Four filters (`filter_mi`, `filter_gdgtrs`, `filter_cren`,
  `filter_bit_ringstetra`): each keeps the rows that pass a strict comparison
  and returns a tag for output file names.
- The runner `apply_filters`: threads the table through a list of filters and
  collects `"_" + tag` for each one. `apply_final_filtering` is its published
  configuration.
- `filter_data`: the single-pass variant that ands three conditions into one
  mask.

Modules, one per part of the pipeline:

- `Frame` (frame.dfy): boolean-mask selection `df[mask]` on a table held as a
  sequence of rows. It defines `Where` and its characterisation `Selects`: an
  order-preserving subsequence holding every occurrence of each accepted row
  and nothing else. It proves that this characterisation is unique, and that
  masks compose, commute and are idempotent.
- `Proxy` (proxy.dfy): the row type, the five columns, the fill values and
  thresholds, and `FillNans`. `FillNans` is a method that fills an
  `array<Row>` in place, one column after the other, as the source does.
- `Filters` (filters.dfy): `numf` on decimal strings, the four masks, the four
  filters with their tags, and the facts about thresholds and fill values.
- `Pipeline` (pipeline.dfy): the filter list as a `Stage` datatype, the
  specification function `Run`, the loop method `ApplyFilters`,
  `ApplyFinalFiltering` and `FilterData`.

A cell is `Option<real>`, and `None` stands for NaN. A comparison with a
missing cell is false, as NaN comparisons are in pandas. So the filters are
defined on unfilled tables as well, and the model can state what filling
changes.

One might expect fill values chosen so that a missing value fails its filter.
The code does the opposite:

- -999 is below the MI threshold 0.4 and the %GDGTrs threshold 30.
- 9999 is above the Cren' threshold 1000.
- A BIT of -999 is never above 0.4, and a #ringstetra of 999 is never below
  0.7, so the joint BIT/#ringstetra filter keeps the row.

Once filled, a missing value therefore never causes a row to be dropped. The
model follows the code. `Filters.FillValuesPass` and
`Filters.FilledRowSurvivesEveryFilter` state the behaviour as written.

## Model

| member | source | states |
|---|---|---|
| `Frame.Where` | utils.py:55 | A mask selection returns at most as many rows as it was given. |
| `Frame.WhereSelects` | utils.py:55 | `df[mask]` keeps every occurrence of each accepted row and drops every other row. The result is an order-preserving subsequence of the input. |
| `Frame.SelectsUnique` | utils.py:55 | Only one sequence meets that description, so a filter's result is fully determined by its mask. |
| `Frame.SelectsMembership` | utils.py:55 | A row is in the selection if and only if it was in the input and the mask accepts it. |
| `Frame.WhereWhere` | utils.py:113-117 | Two masks applied in sequence select the same rows as their conjunction applied once. |
| `Frame.WhereIdempotent` | utils.py:55 | Applying a mask to its own selection removes nothing more. |
| `Frame.WhereCommutes` | utils.py:55-73 | Two masks give the same rows in either order. |
| `Frame.WhereDropsOnlyFailing` | utils.py:55 | A table whose only failing row is `x` loses exactly `x` and keeps the rest in order. |
| `Proxy.FillColumnOf` | utils.py:38 | One `fillna` column assignment replaces a missing cell of that column by its fill value. A present cell stays as it was, and every other column and the payload are unchanged. |
| `Proxy.FillRow` | utils.py:36-43 | After filling, the row is `Filled`: none of the five cells is missing. Present cells are unchanged, missing cells hold -999, -999, 9999, -999 and 999 respectively, and the payload is untouched. |
| `Proxy.FillRowIdempotent` | utils.py:36-43 | A filled row has no missing cell, filling it again changes nothing, and filling twice is filling once. |
| `Proxy.FillColumn` | utils.py:38-42 | Overwrites one column of every row of the array in place. |
| `Proxy.FillNans` | utils.py:36-43 | Returns the very array it was given, with every row replaced by its filled form. Row count and payloads are unchanged, and no row has a missing cell. |
| `Filters.NumfSpec` | utils.py:46-48 | `numf` leaves no '.' in its output and adds one character per point replaced. A string without a point comes back unchanged. |
| `Filters.NumfRoundTrip` | utils.py:46-48 | For a decimal rendering (no 'p'), replacing each "pt" by '.' recovers the number's text, so a tag can be read back. |
| `Filters.MiTag` | utils.py:57 | The MI filter's tag is exactly "MI0pt4". |
| `Filters.GdgtrsTag` | utils.py:66 | The %GDGTrs filter's tag is exactly "RS30". |
| `Filters.CrenTag` | utils.py:75 | The Cren' filter's tag is exactly "CR1000". |
| `Filters.BitRingstetraTag` | utils.py:88 | The joint filter's tag is exactly "BIT0pt4_RT0pt7". |
| `Filters.FilterMi` | utils.py:51-57 | Returns exactly the rows with MI present and MI < 0.4, in input order and with their multiplicities, and the tag "MI0pt4". |
| `Filters.FilterGdgtrs` | utils.py:60-66 | Returns exactly the rows with %GDGTrs present and below 30, in input order, and the tag "RS30". |
| `Filters.FilterCren` | utils.py:69-75 | Returns exactly the rows with Cren' present and above 1000, in input order, and the tag "CR1000". |
| `Filters.FilterBitRingstetra` | utils.py:78-89 | Drops a row if and only if its BIT is above 0.4 and its #ringstetra is below 0.7. Keeps every other row in order and returns "BIT0pt4_RT0pt7". |
| `Filters.ThresholdBoundaries` | utils.py:55-85 | A value equal to its threshold is dropped by the MI, %GDGTrs and Cren' filters. The joint filter keeps rows that meet only one of its two conditions, or sit on either threshold. |
| `Filters.FiltersSubsequenceIdempotent` | utils.py:55-86 | Each filter returns a subsequence of its input that is no longer than the input, and each filter is idempotent. |
| `Filters.FillValuesPass` | utils.py:13-42 | Every fill value passes its own filter. Without filling, a missing MI, %GDGTrs or Cren' drops the row, while a missing BIT or #ringstetra keeps it. |
| `Filters.FilledRowPasses` | utils.py:13-42 | A row whose present values all pass is accepted by all four masks once filled. |
| `Filters.FilledRowSurvivesEveryFilter` | utils.py:38-86 | Such a filled row is kept by every one of the four filters. |
| `Pipeline.ApplyIsMask` | utils.py:99 | Calling a stage is a mask selection with that stage's mask, and it returns that stage's tag whatever the table. |
| `Pipeline.StagesCommute` | utils.py:55-86 | Any two filters commute. |
| `Pipeline.ApplyFilters` | utils.py:92-101 | The loop returns `Run(filters, df)`, which is the selection by the conjunction of all the stages' masks, together with the list-order concatenation of "_" + tag. An empty list returns the input table and "". |
| `Pipeline.TagsAppend` | utils.py:97-100 | The tag string of a concatenated filter list is the concatenation of the two lists' tag strings. |
| `Pipeline.RunIsConjunction` | utils.py:96-101 | Running the filters one after the other keeps exactly the rows that every filter in the list accepts, in order. |
| `Pipeline.RunTags` | utils.py:97-100 | The accumulated string is "_" + tag for each filter, in list order. |
| `Pipeline.RunFirstStageFirst` | utils.py:96-101 | The first filter in the list runs on the input table and its tag comes first, so the runner composes the filters left to right. |
| `Pipeline.RunOrderIrrelevant` | utils.py:96-101 | Two filter lists naming the same filters keep the same rows, whatever their order or repetitions. |
| `Pipeline.OnlyFailingRowDropped` | utils.py:96-101 | A table with one failing row among passing rows loses exactly that row. |
| `Pipeline.ApplyFinalFiltering` | utils.py:104-107 | The result is the runner's on the list MI, %GDGTrs, BIT/#ringstetra, so every runner lemma applies to it. The tag is "_MI0pt4_RS30_BIT0pt4_RT0pt7". The table equals running the MI, %GDGTrs and BIT/#ringstetra filters in that order, and a row is kept if and only if it passes all three. |
| `Pipeline.FinalMask` | utils.py:106 | The final filter list accepts a row if and only if the MI, %GDGTrs and BIT/#ringstetra masks all do. |
| `Pipeline.FinalTags` | utils.py:106-107 | The tag string of the final filter list is "_MI0pt4_RS30_BIT0pt4_RT0pt7". |
| `Pipeline.FilterData` | utils.py:110-128 | The single pass keeps exactly the rows with MI < 0.4, %GDGTrs < 30 and Cren' > 1000, in order. It equals `filter_cren(filter_gdgtrs(filter_mi(df)))`. |
| `Pipeline.ThreeStageMask` | utils.py:113-117 | A filter list naming exactly the MI, %GDGTrs and Cren' filters accepts a row if and only if the single-pass mask does. |
| `Pipeline.FilterDataAnyOrder` | utils.py:113-117 | Running those three filters in any order, or with repeats, gives the same table as the single pass. |

## Left out

- `get_source_data` and `INPUT_DATA_PATH` (utils.py:10, 29-33) are left out: they read an Excel file through pandas. Tables enter the model as values.
- The `logger.info` calls are left out. They only report row counts and thresholds.
- The commented-out BIT/#ringstetra step in `filter_data` is left out because it is dead code. `FilterData` combines only the MI, %GDGTrs and Cren' conditions, as the live code does.
- Python's float-to-string conversion is not modelled. `numf` works on the decimal text of a number, and the renderings of the thresholds ("0.4", "30", "1000", "0.7") are constants.
- Floating-point arithmetic is not modelled. Values and thresholds are exact reals, and NaN is an absent cell that compares false.
- pandas index labels are not modelled. A table is a sequence of values, so a filter's result never aliases its input and the `.copy()` calls have no counterpart. Only `fill_nans` works in place, on an array. Aliasing is therefore not captured either: `apply_filters(df, [])` hands back the caller's own object, and the model states only that the result equals the input.
- A table missing one of the five columns is not modelled: in the source that raises a `KeyError`, but every `Row` has all five columns by construction.
- `apply_filters` accepts any list of callables. The model accepts a list of the four filters of this file, as the `Stage` datatype.
