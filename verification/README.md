# Fuel-purchase reconciliation, modelled in Dafny

This project models the engine that reconciles two fuel-purchase spreadsheets.
Table A comes from the filling station and table B from the municipality. The
two tables are matched on the receipt code (`NOTA`). The engine exists in two
variants, and both are modelled:

- **`app.py` / `analisar`**
  - It binds arbitrary headers to the five canonical columns DATA, NOTA, TIPO,
    VALOR and SETOR (`guess_column`, `normalize_df`).
  - It optionally keeps one sector only.
  - It pads codes to four characters and parses quantities and dates.
  - It runs the per-table checks: duplicate codes, negative quantities,
    same-day repeats, and one code on several days.
  - It full-outer-merges the tables on the code.
  - It classifies the merged rows: only in A, only in B, date divergence,
    type divergence and quantity divergence.
  - It sums litres per table and per fuel bucket, and fills the 21-entry
    summary `resumo`.
- **`comparador_de_notas.py`**
  - It reads fixed column names, pads the codes, merges, and reports the
    codes missing from one side.
  - It checks dates, types and quantities only on the common rows, those
    with a quantity on both sides.
  - `formatar_data` prints dates as `dd/mm/yyyy`, or as the marker
    `Data Inválida/Nula`.

The tables are sequences of immutable records. Every finding is an
order-preserving filter of its table. Its contract states which rows it holds,
and that each of them occurs as often as in the table.

A spreadsheet cell is `Cells.Cell`:
- `Missing` stands for an empty cell (NaN).
- `Filled(text, number, stamp)` carries three values:
  - `text`: the cell's `astype(str)` text;
  - `number`: the result of `pd.to_numeric(errors="coerce")`;
  - `stamp`: the result of `pd.to_datetime(errors="coerce")`.

Those two parsers are outside the model. Their results come in as data.

Modules:
- `Options`: the Option and Result types.
- `Text`: case mapping, substring search and `zfill`.
- `Seqs`: mask filters, subsequences, exact sums and the string order.
- `Cells`: cells, timestamps and `strftime("%d/%m/%Y")` with its inverse.
- `Schema`: header guessing, renaming and the projection onto canonical rows.
- `Records`: coercion and the sector filter.
- `Checks`: the per-table checks.
- `Join`: the outer merge.
- `Reconcile`: the cross-table checks of `app.py`.
- `Summary`: totals, `resumo` and `analisar`.
- `Comparador`: the script.
- `Scenarios`: small worked tables.

Notes on what the code does, which the model follows:

- In `app.py` the date, type and quantity checks run over the whole merged
  table, not over the common rows. So a row present on one side only is also a
  date divergence. It is a type divergence too whenever its one type does not
  read "nan", since the absent side's type reads "nan". Under the code's
  fill-value test it is a quantity divergence as well, unless its one quantity
  is negative and `isclose` to the fill value of the absent side
  (`Reconcile.OneSidedRowsDiverge`, `Scenarios.CodeOnlyInA`).
  The script does restrict these checks to the common rows.
- A missing timestamp equals nothing, not even another missing timestamp. Two
  absent dates are therefore a date divergence in both variants.
- The sector filter runs after header normalisation, not before it.
- Two headers renamed to the same canonical name break the analysis only when
  that column is read as one column. Every canonical column is read except
  SETOR, which only the sector filter reads. A doubled SETOR with "" or "Todos"
  selected is therefore harmless (`Schema.Breaks`, `Summary.Analisar`).
- The quantity check of `app.py` replaces an absent A quantity by -999999 and an
  absent B quantity by -888888 before `np.isclose`. The summary counts this
  test as written (`Reconcile.ValueDivergencesAsWritten`). An absent quantity
  is therefore not always a divergence (see Findings). The corrected test
  (`Reconcile.ValueDivergences`) agrees with it whenever no quantity is
  negative.
- A row present only in B whose quantity is absent is reported as only in A as
  well, because the check only tests that the B quantity is absent
  (`Reconcile.OnlyInAComesFrom`).

## Model

| member | source | states |
|---|---|---|
| Text.Lower | app.py:29 | `str.lower`: length kept, each letter (ASCII and Latin-1) mapped to its lower case |
| Text.Upper | app.py:63 | `str.upper`: length kept, each letter mapped to its upper case |
| Text.CaseFoldAgree | app.py:63 | comparing upper-cased strings is the same as comparing lower-cased strings |
| Text.Contains | app.py:35 | an occurrence is never longer than the text searched; the empty key occurs in every header |
| Text.ContainsIffOccurrence | app.py:33-36 | `k in c` holds exactly when `k` occurs in `c` at some position |
| Text.ZFill | app.py:66-67 | `str.zfill`: the result has length max(width, len(s)) |
| Text.ZFillShape | app.py:66-67 | strings at least `width` long are unchanged; shorter ones get zeros in front, after a leading sign if there is one; the original digits follow |
| Text.ZFillIdempotent | comparador_de_notas.py:42-43 | padding an already padded code changes nothing |
| Text.ZFillExamples | app.py:66-67 | "7" becomes "0007", "-7" becomes "-007", "" becomes "0000", "12345" is kept |
| Seqs.Filter | app.py:81-82 | a boolean mask keeps exactly the elements that satisfy it, as often as they occur, in their original order |
| Seqs.FilterIdempotent | app.py:62-64 | applying the same mask twice changes nothing the second time |
| Seqs.FilterMonotone | app.py:119-121 | a mask weaker on the table's own rows keeps at least as many of them |
| Seqs.FilterSplitCount | comparador_de_notas.py:68 | a mask and its negation split a table's rows between them |
| Seqs.MultiplicityAtLeastTwo | app.py:78-79 | a value occurs at least twice exactly when another position holds it too (`duplicated(keep=False)`) |
| Seqs.LexLessTotal | app.py:103 | two different merge keys are always ordered one way or the other |
| Seqs.LexLessTransitive | app.py:103 | the key order is transitive |
| Seqs.SortedDistinct | app.py:103 | the merge keys are the codes of either table, strictly sorted, each listed once |
| Cells.FormatDay | app.py:86 | `strftime("%d/%m/%Y")` gives ten characters with slashes at positions 2 and 5 |
| Cells.FormatThenParse | app.py:86 | reading a formatted date back gives its calendar day, so the format keeps day, month and year |
| Cells.FormatDayInjective | app.py:86-87 | two timestamps format alike exactly when they fall on the same calendar day |
| Cells.FormatDayOpt | app.py:86 | a formatted date is present exactly when the timestamp is; NaT formats to NaN |
| Cells.FormatDayOptEq | app.py:84-90 | formatted dates that may be missing compare equal exactly on the same day, or when both are missing |
| Schema.LastLowerMatch | app.py:29-32 | the `{c.lower(): c}` lookup returns the last header that lower-cases to the key |
| Schema.ExactFrom | app.py:30-32 | the first key, in key order, with a case-insensitive exact match selects the header |
| Schema.HitFrom | app.py:33-36 | otherwise the first key contained in some header selects the first such header |
| Schema.GuessColumn | app.py:28-37 | the result is one of the table's headers; None exactly when no header contains any key, ignoring case |
| Schema.GuessPrefersExact | app.py:29-32 | the first key with an exact case-insensitive match wins, and it selects the last header equal to it |
| Schema.GuessFallsBackToSubstring | app.py:33-36 | with no exact match, a header containing a key is chosen, by the first such key and first such header |
| Schema.Binder | app.py:41-46 | a header is renamed by the last canonical key that guessed it, and only if that guess is non-empty |
| Schema.RenameHeaderCases | app.py:41-47 | a header is renamed to a canonical name exactly when its last binder is that key, or when it already is that name and nothing binds it |
| Schema.Renamed | app.py:46-47 | renaming keeps the number of headers, header by header |
| Schema.Project | app.py:49-51 | each canonical field takes the cell under the first header carrying its name, and is absent when no header does |
| Schema.SelectCanonical | app.py:49-73 | fails exactly when a canonical name that a later step reads labels two columns (SETOR only under a sector filter), naming a doubled column; otherwise every row is projected, a read field taking the cell under its one header |
| Schema.Normalize | app.py:39-73 | all five canonical columns exist afterwards; it fails exactly when renaming doubles a canonical name that is read; the row count is unchanged; renamed columns keep their cells; columns that were never found are absent in every row |
| Schema.NormalizeTakesFirstColumn | app.py:49-51 | a doubled name that nothing reads takes the cells of its first column |
| Schema.NameIsSynonym | app.py:17-23 | every canonical name is, ignoring case, one of its own synonyms |
| Schema.CanonicalHeaderIsGuessed | app.py:28-32 | a header already carrying a canonical name is always found for that name |
| Schema.UnguessedNameAbsent | app.py:41-47 | when nothing is found for a key, no header is renamed to its canonical name |
| Schema.UnguessedFieldIsMissing | app.py:49-51 | a canonical column with no matching header is absent in every row |
| Schema.GuessedHeaderFeedsField | app.py:41-51 | the column found for a key, if no later key takes it, supplies that field in every row, for every field that is read |
| Records.Coerce | app.py:66-73 | the code is the NOTA text when that is at least four characters long, and otherwise the text zero-padded to four characters, the zeros after a leading sign; padding again changes nothing; type and sector are kept as read; an empty quantity or date cell becomes absent, and a filled one gives its parsed number or timestamp |
| Records.CoerceAll | app.py:66-73 | coercion keeps the rows and their order |
| Records.CoercedCodesArePadded | app.py:66-67 | every coerced code is at least four characters long and unchanged by padding again |
| Records.MissingCodeIsPaddedNan | app.py:66 | an empty code cell becomes the code "0nan" |
| Records.SectorFilter | app.py:62-64 | it is the identity for "" and "Todos"; otherwise it keeps exactly the rows whose sector matches ignoring case, in order, each as often as in the input |
| Records.SectorFilterIsCaseInsensitive | app.py:63-64 | matching upper-cased sectors is matching lower-cased sectors |
| Records.SectorFilterIdempotent | app.py:62-64 | filtering twice by the same sector changes nothing |
| Records.MissingSectorMatchesNan | app.py:63 | a row with no sector is kept exactly when the requested sector upper-cases to "NAN" |
| Checks.Duplicates | app.py:78-79 | a row is reported exactly when another row has its code, as often as it occurs; the result is a subsequence |
| Checks.Negatives | app.py:81-82 | a row is reported exactly when its quantity is present and below zero, as often as it occurs |
| Checks.SameDayRepeats | app.py:84-90 | a row is reported exactly when another row has the same code, quantity and calendar day, as often as it occurs; absent matches absent |
| Checks.TwoDaysIffSeveralFormatted | app.py:92-97 | a code has more than one distinct formatted date exactly when two of its rows fall on different days |
| Checks.ManyDays | app.py:92-97 | a row is reported exactly when its code appears on two different calendar days, as often as it occurs |
| Join.JoinKeys | app.py:103 | the merge keys are strictly sorted and are exactly the codes found in either table |
| Join.WithCodeCount | app.py:103 | the rows with a given code are as many as the code's multiplicity |
| Join.LeftOnly | app.py:103 | a key only A holds yields each A row paired with nothing, as often as the row occurs |
| Join.RightOnly | app.py:103 | a key only B holds yields each B row paired with nothing, as often as the row occurs |
| Join.Cross | app.py:103 | under one key every A row is paired with every B row: nA times nB pairs, each pair as often as the product of its rows' multiplicities |
| Join.GroupCount | app.py:103 | the rows one key contributes occur as often as `PairCount` says, and rows of other keys not at all |
| Join.GroupSizeIsProduct | app.py:103 | one key contributes nA·nB rows, or nA or nB when the other side lacks the key |
| Join.OuterJoin | app.py:103 | the merged row count is the sum, over the keys, of each key's group size; every merged row is well paired; each merged row occurs exactly `PairCount` times: the product of its two rows' multiplicities for a pair, a lone row's multiplicity when the other table lacks its code, and never otherwise |
| Join.OuterJoinPairMultiplicity | app.py:103 | an A row and a B row sharing a code occur together as often as the product of their multiplicities |
| Join.OuterJoinLoneMultiplicity | app.py:103 | a row whose code the other table lacks occurs, paired with nothing, as often as in its table; a row that occurs at all is well paired |
| Join.OuterJoinWellPaired | app.py:103 | every merged row has a side present; a present side is a row of its table with the key; a side is absent only when its table lacks the key |
| Join.OuterJoinPairsMatches | app.py:103 | every A row and B row sharing a code appear together in the merge |
| Join.OuterJoinKeepsLeftOnly | app.py:103 | an A row whose code B lacks appears with an absent B side |
| Join.OuterJoinKeepsRightOnly | app.py:103 | a B row whose code A lacks appears with an absent A side |
| Reconcile.OnlyInA | app.py:106 | only-in-A is exactly the merged rows with no B quantity, in order, each as often as in the merge |
| Reconcile.OnlyInB | app.py:107 | only-in-B is exactly the merged rows with no A quantity, in order, each as often as in the merge |
| Reconcile.OnlyInACoversUnmatched | app.py:103-106 | an A row whose code B lacks, or paired with a B row with no quantity, is reported as only in A |
| Reconcile.OnlyInAComesFrom | app.py:103-106 | each only-in-A row is an unmatched A row or a pairing with a quantity-less B row |
| Reconcile.OnlyInBothIffNoQuantity | app.py:106-107 | the two presence findings overlap exactly on rows with no quantity on either side |
| Reconcile.DateDivergences | app.py:109-112 | a row is reported exactly when a date is missing on either side or the timestamps differ, as often as it occurs |
| Reconcile.DateDivergenceCases | app.py:109-112 | a missing date on either side is always reported; equal present dates never are |
| Reconcile.TypeDivergences | app.py:114-117 | a row is reported exactly when the type texts differ and not both types are blank, as often as it occurs |
| Reconcile.TypeDivergenceCases | app.py:114-117 | two blank types are never reported; a blank against a text other than "nan" always is |
| Reconcile.IsCloseReflexive | app.py:119-121 | `isclose` holds between a quantity and itself |
| Reconcile.ValueDivergencesAsWritten | app.py:119-121 | with the fill values substituted, a row is reported exactly when the two numbers are not `isclose`, as often as it occurs |
| Reconcile.FillValueHidesAbsentQuantity | app.py:119-121 | a row with no A quantity and a B quantity of -999999 is not reported under the fill-value test |
| Reconcile.ValueDivergences | app.py:119-121 | corrected test: a row is reported exactly when a quantity is absent on either side or the two are not `isclose`, as often as it occurs |
| Reconcile.ValueDivergenceCases | app.py:119-121 | an absent quantity is always reported; equal present quantities never are |
| Reconcile.FillValuesHarmlessForNonNegative | app.py:119-121 | when no quantity is negative, the fill-value test and the explicit test agree |
| Reconcile.FillValuesHarmlessWhenPresent | app.py:119-121 | on rows with both quantities present, the two tests agree |
| Reconcile.OneSidedRowsDiverge | app.py:106-121 | a row with one side absent is a presence finding and a date divergence; under the fill-value test it is a quantity divergence exactly when its one quantity is not `isclose` to the absent side's fill value, so always when its quantities are non-negative; the corrected test always reports it; it is a type divergence exactly when its one type's text is not "nan" |
| Reconcile.PresenceWithinValueDivergences | app.py:106-121 | when no quantity is negative, only-in-A and only-in-B are each no longer than the fill-value quantity divergences |
| Summary.Litres | app.py:142-143 | a table whose present quantities are all non-negative has a non-negative total, and all non-positive a non-positive one |
| Summary.LitresSplit | app.py:124-128 | the litres of the rows inside a mask plus those outside make up the total |
| Summary.LitresIgnoreAbsent | app.py:142-143 | rows with no quantity add nothing to a total |
| Summary.SumByFuel | app.py:124-128 | a bucket's litres plus the litres outside the bucket make up the table total |
| Summary.BucketsAreShortestPattern | app.py:124-131 | a type is in the gasoline bucket exactly when it contains "gas", ignoring case; diesel likewise with "die" |
| Summary.BlankTypeInNoBucket | app.py:126-127 | a blank type, read as "nan", falls in neither bucket |
| Summary.Summarize | app.py:76-161 | each finding list is its check applied to the prepared tables or to the merge, the quantity list under the fill-value test; the record totals are the table lengths; the litres and fuel totals are `Litres` and `SumByFuel`; every count is its list's length; no per-table finding exceeds its table |
| Summary.PresenceBoundedWhenNonNegative | app.py:106-121 | when no merged quantity is negative, only-in-A and only-in-B each count no more rows than the quantity divergences |
| Summary.Prepare | app.py:62-73 | a prepared table is the coercion of the sector-filtered rows: no longer than its input, and as long when there is no sector filter; every sector matches; every code is padded |
| Summary.FilteredSectorsMatch | app.py:62-64 | after coercion the filtered rows still carry the requested sector, ignoring case |
| Summary.Analyse | app.py:58-167 | the prepared tables are `Prepare` of each input, the merge is `OuterJoin` of the two, and the result is `Summarize` of those; the record totals are bounded by the input rows |
| Summary.AnalyseKeepsEveryRow | app.py:62-64 | with every sector selected, the record totals are the input row counts |
| Summary.Analisar | app.py:58-64 | it fails exactly when normalisation leaves a read canonical column twice in either table, SETOR counting only when a sector is selected; otherwise both tables normalise and the result is `Analyse` of the normalised tables, with record totals bounded by the input rows |
| Summary.AnalisarKeepsEveryRow | app.py:58-64 | with every sector selected, a successful run counts every row of both sheets |
| Comparador.FormatarData | comparador_de_notas.py:17-19 | it gives the marker exactly for a missing or unreadable date; otherwise `dd/mm/yyyy`, which reads back as the date's calendar day |
| Comparador.FormatarDataEq | comparador_de_notas.py:17-19 | two values print alike exactly when they fall on the same day or are both unreadable |
| Comparador.Comum | comparador_de_notas.py:68 | the common rows are exactly the merged rows with both quantities present |
| Comparador.DatasErradas | comparador_de_notas.py:71-74 | a subsequence of the common rows: exactly those with a missing date or differing timestamps |
| Comparador.TiposTrocados | comparador_de_notas.py:84 | a subsequence of the common rows: exactly those whose types differ, blank differing from everything |
| Comparador.ValoresErrados | comparador_de_notas.py:93 | a subsequence of the common rows: exactly those whose quantities are not `isclose` |
| Comparador.ComumPartition | comparador_de_notas.py:50-68 | only-in-A, only-in-B and common together count every merged row once, and rows with no quantity at all twice |
| Comparador.CompararPlanilhas | comparador_de_notas.py:42-99 | the merge is the outer merge of the coerced tables; each reported list is its finding over that merge; the partition count holds; every merged row is well paired; every divergence is a common row; common rows are in neither presence finding |
| Comparador.AgreesWithAppOnCommonRows | comparador_de_notas.py:68-93 | on common rows the script's date and quantity findings match app.py's, under the fill-value test and the corrected one; the script never reports a row with an absent quantity, which app.py reports under the fill-value test when its quantities are non-negative and under the corrected test always |
| Comparador.BlankTypesContrast | comparador_de_notas.py:84 | two blank types on a common row are reported by the script but not by app.py |
| Scenarios.PairMerge | app.py:103 | two one-row tables sharing a code merge into the one row pairing them |
| Scenarios.SwappedMerge | app.py:66-103 | code "7" in both one-row tables merges into one row "0007" pairing the two records |
| Scenarios.SwappedFuelType | comparador_de_notas.py:42-93 | code "7" with 50 litres on the same day in both tables, gasoline against diesel: the script reports one merged row "0007" as a type divergence and nothing else |
| Scenarios.SwappedFuelTypeInApp | app.py:103-121 | the same tables in app.py: the one merged row is a type divergence only, under the fill-value quantity test and the corrected one |
| Scenarios.NegativeQuantity | app.py:81-82 | a -5 litre row is a negative and adds -5 to the total |
| Scenarios.LoneMerge | app.py:66-103 | code "0003" in A and an empty B merge into one row with an absent B side |
| Scenarios.CodeOnlyInA | app.py:103-121 | a code present only in A is reported only as missing by the script, and by app.py also as a date divergence, a type divergence and, under both quantity tests, a quantity divergence |

## Left out

- Streamlit UI, charts, `sum_by_sector` and session state: these are presentation code.
- `gerar_excel` and `gerar_pdf`: these are file rendering. The Excel writer cuts sheet names to 31 characters.
- Reading the workbooks, file names, the try/except around loading, and every `print`: these are I/O. The script's report lines use `row["Setor"]`, but after the merge that column is named `Setor_A` / `Setor_B` when both tables have it. That lookup happens in the printing, so it is not modelled.
- The internals of `pd.to_numeric` and `pd.to_datetime`, including pandas inferring one date format per column. Their results are taken as given in each cell.
- The `astype(str)` text of a cell is taken as given. For example, the model does not derive that a float 7.0 prints as "7.0".
- Floating-point rounding. Quantities are exact reals, sums are exact, and `np.isclose` is evaluated on reals with numpy's default tolerances.
- `str.contains` regular-expression semantics. The bucket patterns contain no metacharacters, so they are matched as plain substrings.
- Case mapping outside the letter pairs that stay inside Latin-1. ß, ÿ and µ are Latin-1 letters, but Python upper-cases them to "SS", U+0178 and U+039C, outside Latin-1; the model leaves them, and every letter beyond Latin-1, unchanged.
- Statistical outlier checks: the code contains none.
- Columns other than the five canonical ones. They travel through pandas untouched and play no part in any check, so they are dropped.
- Schema.GuessColumn: headers are modelled as strings. A non-string header, such as a number, makes `c.lower()` raise `AttributeError` in the source; that failure is not modelled.
- Schema.Normalize: a canonical name that renaming leaves on two columns and that a later step reads is a failure (`SchemaError.DuplicateColumn`); pandas raises there when the step applies a column method to the two-column frame. A doubled SETOR that nothing reads is not a failure; the model then keeps the first SETOR column, where pandas carries both to the merge, since nothing reads either.
- Comparador.CompararPlanilhas: it takes its tables already read under the five fixed column names. A missing column raises `KeyError` in the script, which is not modelled.
- Comparador.CompararPlanilhas: a quantity cell that is text but not a number counts as absent here (the numeric parser's result). The script would raise in `np.isclose`.
- Comparador.TiposTrocados: two present type values are compared by their text, not by Python object equality. For example, 1 and 1.0 count as different.
- Join.JoinKeys: merge keys come out in lexicographic order, as in recent pandas outer merges. Older pandas versions may order the keys differently.
- Summary.Analisar: it requires rectangular tables, where every row has one cell per header, as every DataFrame does.

## Findings

| source | as written | input that shows it | evidently intended | confidence | as-written member | corrected member |
|---|---|---|---|---|---|---|
| app.py:119-121 | absent quantities are replaced by -999999 (A side) and -888888 (B side) before `np.isclose`, so a fill value can meet a real quantity equal to it | a code only in B whose B quantity is -999999.0: the A fill -999999 `isclose` to it, so the row is not reported | every row with an absent quantity on either side is a quantity divergence | not executed | Reconcile.FillValueHidesAbsentQuantity | Reconcile.ValueDivergences |

The summary keeps the test as written, since that is what the program reports.
The corrected test is related to it by `Reconcile.FillValuesHarmlessForNonNegative`,
`Reconcile.OneSidedRowsDiverge` and `Comparador.AgreesWithAppOnCommonRows`.
