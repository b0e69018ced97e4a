# Cafe sales cleaning, modelled in Dafny

This project models the row-table cleaning of the cafe point-of-sale script
`analis.py` and proves properties of it. The script loads one CSV of
transactions and runs these stages in order:

1. It renames the headers to snake case.
2. It strips `$` and `,` from the three numeric columns and parses them.
3. It parses the date column.
4. It fills missing categorical cells with the sentinel `"Unknown"`.
5. It drops every row that lacks a quantity, price, total or date.
6. It title-cases the three text columns.
7. It collapses the error labels into the sentinel.
8. It recovers `"Unknown"` items from their price. This happens only where, among the rows whose item is
   known, exactly one distinct item was ever sold at that price.

Modules:

- `Wrappers` (`wrappers.dfy`): `Option`. `None` stands for pandas' missing-value marker.
- `Sequences` (`sequences.dfy`): order-preserving sub-sequences.
- `Text` (`text.dfy`): the string operations, ASCII only. These are header snake-casing,
  `str.replace` used for deletion and substitution, `str.title`, and the label correction.
- `Table` (`table.dfy`): the `Row` record and the `RawRow` record as loaded. It also holds the
  coercion and `TransformColumns`, the method that models the `for col in ...: df[col] = ...`
  loops. The fill, drop and text-normalisation stages are here too.
- `Imputation` (`imputation.dfy`): the price map (the group-by unique), the loop that fills
  `mapping_dict`, `fill_unknown_items` with its row-wise application, and the Unknown counts.
- `Pipeline` (`pipeline.dfy`): `CleanSales` runs the script's stages in order, reassigning the table.
  Beside it are the lemmas that the final table is clean and stable.

The two parsers are external to the model. They are parameters of `CleanSales`, and the
intended reading is that they return `None` where the original parsers produce NaN or NaT
(for the text "nan" of a missing numeric cell in particular); the model does not constrain them.
Every number is an exact fixed-point integer (hundredths), so the imputation joins on exact price equality. Text values that pandas would hold as
NaN are `None` throughout. A missing item counts as "known" when prices are grouped, exactly as
`!= "Unknown"` counts it.

An observation on the source: after `str.title`, the values `"ERROR"` and `"unknown"` can no
longer occur, so those two entries of the correction list never fire.
`Text.NormalizeCollapsesErrors` shows this, and shows that the correction still maps every
case variant of "error" and "unknown" to the sentinel.

## Model

| member | source | states |
|---|---|---|
| Text.SnakeCase | analis.py:44 | `str.replace(" ", "_")` (Text.ReplaceChar) then `str.lower()`: the renamed header has the same length and agrees with the original up to case; each space becomes `_`; no space and no upper-case letter is left |
| Text.SnakeCaseIdempotent | analis.py:44 | renaming an already renamed header changes nothing |
| Text.Lower | analis.py:44 | `str.lower` keeps the text up to case and leaves no upper-case letter |
| Table.NormalizeColumns | analis.py:44 | the column list keeps its length; each name keeps its header's length; a space in the header becomes `_` and every other character keeps its letter in lower case; no name has a space or an upper-case letter |
| Table.SourceHeadersNormalize | analis.py:44 | the file's header `Transaction ID` … `Transaction Date` renames to exactly the column names the later stages index (`quantity`, `price_per_unit`, …) |
| Table.NormalizeColumnsIdempotent | analis.py:44 | renaming the columns twice is renaming them once |
| Text.RemoveChar | analis.py:52 | `str.replace(c, "")` leaves no `c`, keeps the other characters in order with their counts, and is the identity on text without `c` |
| Text.DropCurrencyMarks | analis.py:52 | one-pass reference: no `$` or `,` left, other characters kept in order with their counts |
| Text.StripCurrencyDropsMarks | analis.py:52 | the two chained replaces equal the one-pass deletion of `$` and `,` |
| Text.StripCurrencyAppend | analis.py:52 | stripping distributes over concatenation |
| Text.StripCurrency | analis.py:52 | the two chained replaces leave no `$` and no `,`, keep the count of every other character, and pass text without marks unchanged |
| Text.StripCurrencyIdempotent | analis.py:52 | stripping twice is stripping once; text without `$` and `,` passes unchanged |
| Table.AsText | analis.py:52 | `astype(str)` keeps present text and renders a missing cell as "nan" |
| Table.CoerceNumber | analis.py:51-54 | a numeric cell is the parse of its text with every `$` and `,` deleted (the one-pass reference); a missing cell is the parse of "nan" |
| Table.CoerceDate | analis.py:57-59 | a date cell is the date parse of its text; a missing cell never becomes a date |
| Table.CoerceRow | analis.py:49-59 | one loaded row after coercion: id, item, payment method and location kept; each numeric cell the parse of its mark-free text; a present date cell is the date parse of its text, and a missing one never becomes a date |
| Table.CoerceNumberIgnoresMarks | analis.py:50-54 | inserting a `$` or `,` anywhere into a numeric cell does not change its parsed value |
| Table.CoerceTable | analis.py:49-59 | coercion keeps the row count and the id, item, payment method and location cells of every row; each numeric cell becomes the parse of its text with `$` and `,` removed (a missing cell read as "nan"); a date cell stays missing or becomes the date parse of its text |
| Text.TitleCase | analis.py:83-85 | `str.title` gives the titled spelling of the same letters: equal up to case, a letter that begins a run of letters is upper case, any other letter lower case |
| Text.TitledUnique | analis.py:83-85 | two titled strings equal up to case are equal, so the titled spelling is unique |
| Text.TitleCaseFixpoint | analis.py:83-85 | title-casing leaves a string unchanged exactly when it is already titled |
| Text.TitleCaseIdempotent | analis.py:83-85 | title-casing twice is title-casing once |
| Text.TitleCaseIsWord | analis.py:83-91 | title-casing yields a given titled word exactly when the input spells that word in some case |
| Text.CorrectLabel | analis.py:88-91 | a label of the correction list becomes the sentinel, any other is kept; the result is never "Error", "ERROR" or "unknown" |
| Text.NormalizeCollapsesErrors | analis.py:83-91 | after title-casing and correction, a value is the sentinel exactly when the input spells "error" or "unknown" in some case; any other value is the title-cased input; "Error", "ERROR" and "unknown" never remain; title-casing alone never yields "ERROR" or "unknown", so those list entries never match |
| Text.NormalizeIdempotent | analis.py:83-91 | title-casing and correcting a second time changes nothing |
| Table.MapColumn | analis.py:65 | the column assignment of the fill, title-case and correction loops rewrites column `col` of every row with `f` and keeps the row count, the other text columns and every other field |
| Table.ApplyColumnsAllText | analis.py:63-91 | a loop over the three text columns in any order applies the cell function once to each of them and to nothing else |
| Table.TransformColumns | analis.py:63-91 | the `for col in cols: df[col] = f(df[col])` loop keeps the row count; each row ends as the in-order application of `f` to the listed columns |
| Table.FillUnknown | analis.py:65 | `fillna("Unknown")` on a cell: the result is present; a present value is kept; a missing one becomes `"Unknown"` |
| Table.FillCategorical | analis.py:63-65 | the filled table has the same rows, each the fill loop's result on it, with every categorical cell present and every present value kept |
| Table.FillCategoricalSpec | analis.py:63-65 | after the fill, item, payment method and location all hold a value; a present value is kept; a missing one becomes `"Unknown"`; no other field changes |
| Table.DropIncomplete | analis.py:68-72 | the kept rows all have quantity, price, total and date; they are a sub-sequence of the input in its order; each complete row is kept as often as it occurs and each incomplete one is removed; every row not kept lacks a critical field |
| Table.DropIncompleteIdempotent | analis.py:68-72 | dropping again removes nothing; a table of complete rows is left as is |
| Table.DropIncompleteShrinks | analis.py:68-72 | dropping never increases the row count |
| Table.TitleCell | analis.py:85 | `str.title()` on a cell keeps a missing cell missing and gives a present one its titled spelling |
| Table.CorrectCell | analis.py:89-91 | the correction on a cell keeps a missing cell missing, turns every label of the list into `"Unknown"`, keeps any other label, and never leaves "Error", "ERROR" or "unknown" |
| Table.NormalizeText | analis.py:83-91 | the normalised table has the same rows, each the two text loops' result on it, with every text cell normal |
| Table.TextPassesSpec | analis.py:83-91 | the title-case loop followed by the correction loop normalises each text cell once, leaves the numeric, date and id fields alone, and leaves every text cell normal |
| Table.NormalCellOfNormalize | analis.py:83-91 | a normalised cell is a fixed point of both text passes |
| Table.NormalCellHasNoErrorLabel | analis.py:88-91 | a normal cell is never "Error", "ERROR" or "unknown" |
| Imputation.GroupItemsByPrice | analis.py:118-120 | every group of the price map is non-empty and duplicate-free and never contains `"Unknown"` (its specification against the known items is GroupItemsByPriceSpec) |
| Imputation.KnownItemsAtSnoc | analis.py:118-120 | one more row adds at most its own item to the known items of its price, and only if the item is not the sentinel |
| Imputation.GroupItemsByPriceSpec | analis.py:118-120 | the price map has a group for exactly the prices with a known item; each group lists the known items at that price, each once |
| Imputation.BuildMappingDict | analis.py:121-126 | the loop's dictionary holds exactly the prices whose group has one item, each mapped to that item |
| Imputation.Unambiguous | analis.py:121-126 | `mapping_dict` keys are prices of the price map; each key's group consists of exactly its mapped item; every single-item group is a key |
| Imputation.DistinctSingleton | analis.py:124 | a duplicate-free group has length one exactly when it names one item |
| Imputation.TableMappingSpec | analis.py:118-126 | a price is a key of `mapping_dict` exactly when the known rows at that price have one distinct item; the value is that item; it is never the sentinel |
| Imputation.AmbiguousPriceUnmapped | analis.py:118-126 | a price at which two different known items were sold is never a key |
| Imputation.TableMappingNoSentinel | analis.py:119-126 | no value of `mapping_dict` is `"Unknown"` |
| Imputation.FillUnknownItem | analis.py:132-135 | `fill_unknown_items` keeps a known item; it changes an item only for a sentinel row whose price is a key, and such a row gets the mapped item of its price; with a sentinel-free mapping a sentinel row stays the sentinel exactly when its price is not a key (the table-level statement is ImputedSpec) |
| Imputation.Impute | analis.py:132-138 | the row-wise fill keeps the row count and every non-item field; a known item is never overwritten; a sentinel row whose price is not a key stays the sentinel; one whose price is a key gets the mapped item |
| Imputation.Imputed | analis.py:118-138 | imputation with the table's own mapping keeps the row count, changes only the item column, and never turns a row into the sentinel |
| Imputation.ImputedSpec | analis.py:118-138 | a row changes only if it was the sentinel and its price has one known item, which it then receives; a sentinel row with a missing price, or a price with no or several known items, stays the sentinel |
| Imputation.ImputedItemsComeFromTable | analis.py:132-135 | an imputed item is the row's own item or the known item of some row of the table |
| Imputation.ImputeChangesExactlyFillable | analis.py:132-139 | with a mapping that never yields the sentinel, a row's item changes exactly when it is the sentinel and its price is a key |
| Imputation.CountUnknown | analis.py:129 | the Unknown count is at most the row count |
| Imputation.CountUnknownSpec | analis.py:129 | the recursive count equals the number of positions whose item is `"Unknown"`, as the boolean-mask sum counts them |
| Imputation.ImputeCounts | analis.py:129-143 | the Unknown count after plus the number of fillable rows equals the Unknown count before |
| Imputation.DeductiveImputation | analis.py:118-143 | the stage produces the imputed table; the Unknown count after is at most the count before; `unknown_awal - unknown_akhir` is the number of filled rows |
| Imputation.CoffeeIsRecovered | analis.py:113-138 | `[Coffee at 3.00, Unknown at 3.00]`: the second row becomes Coffee |
| Imputation.AmbiguousPriceStaysUnknown | analis.py:113-138 | `[Tea at 5.00, Cake at 5.00, Unknown at 5.00]`: the third row stays Unknown |
| Pipeline.FilledRows | analis.py:63-65 | no row of the filled table has a missing categorical cell |
| Pipeline.NormalizedRows | analis.py:83-91 | text normalisation of complete, filled rows yields clean rows |
| Pipeline.ImputedRowsStayClean | analis.py:132-138 | imputation keeps every row complete, filled and normalised |
| Pipeline.CleanedTableIsClean | analis.py:41-139 | every row of the final table has all critical fields, no missing categorical cell and normalised text; there are no more rows than were loaded |
| Pipeline.CleanTableIsStable | analis.py:63-91 | on a clean table the fill, the drop and the text passes change nothing |
| Pipeline.CleanSales | analis.py:41-143 | the script renames the columns and produces the cleaned table; every row is clean; it has no more rows than the input; `unknown_awal` and `unknown_akhir` are the Unknown counts before and after imputation, the second is at most the first, and their difference is the number of filled rows |

## Left out

- Loading the CSV (analis.py:22), the CSV and Excel export (analis.py:161, 166) and every printed audit or report (analis.py:25-32, 45, 74, 107, 141-143, 153-156, 170): file and console I/O. `read_csv`'s reading of empty cells as missing is taken as given: a `RawRow` cell is already `None` or text.
- `pd.to_numeric` and `pd.to_datetime` (analis.py:51-59): external parsers with float and calendar semantics. They are function parameters; only the `astype(str)` rendering (a missing cell reads as "nan") and the `$`/`,` stripping are modelled.
- The numeric loop `for col in nums_cols` (analis.py:50) is one per-row function, `Table.CoerceRow`, because coercion changes the record type from text cells to numbers.
- The arithmetic check and its helper column (analis.py:103-111): a float tolerance comparison whose only effect is a printed count.
- Total revenue and the top-5 group-by (analis.py:152-156): float aggregation for display.
- Float64 values and float equality as the imputation key (analis.py:119, 133). Prices are exact integers, so representation drift (2.999999 against 3.0) is not modelled.
- Unicode behaviour of `str.title` and `str.lower`: case conversion is ASCII only; other characters are treated as non-letters and kept.
- `Table.NormalizeColumns`: does not model looking columns up by name. The record's fields stand for the renamed columns, and the KeyError a differently named header would raise is not modelled. `Table.SourceHeadersNormalize` shows that the file's own header renames to those names.
- The row index and `reset_index` (analis.py:72): a table is a sequence, so positions are the index.
