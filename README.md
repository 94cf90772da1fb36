# VAT refund data cleaning — a Dafny model

`Vat_Data_Analysis.py` loads a table of VAT refund records keyed by taxpayer
identification number (TPIN), inspects the rows whose TPIN is shared, and
cleans the table before writing it out. This project models the part of the
script that computes something:

- the duplicate-TPIN inspection (lines 27-41): keep every row whose TPIN occurs
  more than once, cast TPIN to integer, sort by TPIN, take the last four rows;
- the cleaning pipeline (lines 78-114), in the script's order: encode
  REFUND_STATUS through the fixed eight-entry status table (anything else, a
  missing cell included, becomes 0), fill missing REFUND_AMOUNT_CLAIMED,
  REFUND_AMOUNT_PAID and REJECTED_REFUNDS with 0, drop rows whose TPIN is
  missing, drop the RETURN_ID and REFUND_ID columns.

A table is a `Frame`: a set of column names and a sequence of rows, each row a
map from column name to a cell, `None` for a missing cell (pandas' NaN) and
`Some(Num(n))` or `Some(Text(s))` for a present one. A well-formed frame has
every column in every row. Each step that names a column raises pandas'
`KeyError` when the column is absent; the model returns `Err(MissingColumns(...))`
listing the absent labels.

Files:

- `seqs.dfy` (module `Seqs`): `Map` and `Filter` on sequences, the indices a
  filter keeps (`Positions`), and the facts about them the steps share.
- `frames.dfy` (module `Frames`): cells, rows, frames, errors, column names.
- `cleaning.dfy` (module `Cleaning`): the four cleaning steps, each as a rule on
  one row and as a step on the frame.
- `duplicates.dfy` (module `Duplicates`): the duplicate-TPIN inspection.
- `pipeline.dfy` (module `Pipeline`): the composed pipeline `Clean`, the whole
  run `Script` (inspection, the plots' column reads, then cleaning), a
  reference row-wise description `Cleaned` and the lemmas relating them, and a
  `DataFrame` class whose methods update one frame in place, as the script's
  column reassignments and `inplace=True` calls do.

Facts about the code that the model makes precise:

- The script runs the inspection first; an exception there (a missing TPIN
  column, or a duplicate-TPIN row whose TPIN is not an integer) ends the run
  before the cleaning starts (`Pipeline.Script`). So does a `KeyError` from the
  plots at lines 50-66, which read SUM_OF_OUTPUT_INVOICES, SUM_OF_INPUT_INVOICES,
  REFUND_AMOUNT_CLAIMED, REFUND_AMOUNT_PAID and REFUND_STATUS in that order. Two rows with a missing TPIN
  count as duplicates of each other, so in every run that reaches line 111 the
  TPIN filter drops at most one row (`Pipeline.ScriptDropsAtMostOneRow`).
  Line 41 is a bare expression: the four rows are computed and discarded.
- `drop(columns=['RETURN_ID', 'REFUND_ID'])` at line 114 uses pandas' default
  `errors='raise'` and fails when either column is absent.
- Encoding REFUND_STATUS a second time sends every code to 0: the codes are
  numbers, which the table does not list (`Cleaning.EncodeStatusTwiceZeroes`).
- The zero-fill is idempotent (`Cleaning.FillAmountsIdempotent`).
- Encoding and filling before the TPIN filter, as the script does, gives the
  same rows as filtering first, and rows the filter drops never influence the
  result (`Pipeline.RowStepsCommuteWithTpinFilter`,
  `Pipeline.CleanIgnoresDroppedRows`).
- The comment at line 40 speaks of the last five rows; the call is `tail(4)`,
  and the model takes four.

## Model

| member | source | states |
|---|---|---|
| `Frames.Absent` | Vat_Data_Analysis.py:101-114 | the labels a `KeyError` reports: empty exactly when every label is a column, and a label is reported exactly when it is not a column |
| `Cleaning.StatusTableShape` | Vat_Data_Analysis.py:78-87 | every listed status has a code in 1..8 and `StatusName` recovers it; every code 1..8 belongs to a listed status |
| `Cleaning.StatusTableInjective` | Vat_Data_Analysis.py:78-87 | no two statuses share a code, the codes used are exactly 1..8, and 0 is not one of them |
| `Cleaning.StatusCode` | Vat_Data_Analysis.py:78-90 | the code is in 0..8, is the table's code for a listed status, and is 0 exactly when the cell is missing, not text, or not listed |
| `Cleaning.EncodeStatusRow` | Vat_Data_Analysis.py:90 | REFUND_STATUS becomes a present number, the cell's status code; every other cell is unchanged |
| `Cleaning.EncodeStatus` | Vat_Data_Analysis.py:90 | fails exactly when REFUND_STATUS is not a column; otherwise same schema, same row count, every row encoded, still well-formed |
| `Cleaning.EncodeStatusTwiceZeroes` | Vat_Data_Analysis.py:78-90 | encoding an encoded row sets REFUND_STATUS to 0 whatever it was, so the encoding is not idempotent |
| `Cleaning.FillRow` | Vat_Data_Analysis.py:98-101 | each of the three amount columns keeps a present value and gets 0 for a missing one; every other cell is unchanged |
| `Cleaning.FillRowIdempotent` | Vat_Data_Analysis.py:98-101 | filling a filled row changes nothing |
| `Cleaning.FillAmounts` | Vat_Data_Analysis.py:98-101 | fails exactly when one of the three amount columns is absent, naming those absent; otherwise same schema, same row count, every row filled |
| `Cleaning.FillAmountsIdempotent` | Vat_Data_Analysis.py:98-101 | filling the filled frame gives the filled frame again |
| `Cleaning.DropMissingTpin` | Vat_Data_Analysis.py:111 | fails exactly when TPIN is not a column; otherwise a row is kept exactly when it is an input row with a TPIN, and the count is the number of TPIN-present indices |
| `Cleaning.DropMissingTpinKeepsOrder` | Vat_Data_Analysis.py:111 | the k-th kept row is the input row at the k-th TPIN-present index, so order is preserved |
| `Cleaning.DropIdsRow` | Vat_Data_Analysis.py:114 | the row loses exactly RETURN_ID and REFUND_ID and keeps every other cell |
| `Cleaning.DropIdColumns` | Vat_Data_Analysis.py:114 | fails exactly when RETURN_ID or REFUND_ID is absent; otherwise the schema loses exactly those two, row count and all other cells unchanged |
| `Seqs.FilterMapCommute` | Vat_Data_Analysis.py:90-111 | a row-wise step that never changes whether a row passes the filter commutes with the filter |
| `Duplicates.OccursOnce` | Vat_Data_Analysis.py:27 | a TPIN value is counted at least once exactly when some row carries it |
| `Duplicates.OccursTwice` | Vat_Data_Analysis.py:27 | a TPIN value is counted at least twice exactly when two different rows carry it |
| `Duplicates.IsDuplicate` | Vat_Data_Analysis.py:27 | a row is a duplicate exactly when two different table rows carry its TPIN (a missing TPIN counted as one value) |
| `Duplicates.SelectDuplicates` | Vat_Data_Analysis.py:27 | fails exactly when the frame has rows and TPIN is not a column; an empty frame gives an empty selection; otherwise keeps the schema and is well-formed |
| `Duplicates.DuplicateSelectionExact` | Vat_Data_Analysis.py:27 | a row is selected exactly when two different table rows carry its TPIN (all occurrences kept, unique TPINs excluded), in table order |
| `Duplicates.TpinsToInt` | Vat_Data_Analysis.py:35 | succeeds exactly when every TPIN is a present number and then changes nothing; a missing TPIN gives the non-finite casting error |
| `Duplicates.Insert` | Vat_Data_Analysis.py:38 | the result holds the input rows plus the inserted one, as a multiset |
| `Duplicates.InsertSorted` | Vat_Data_Analysis.py:38 | inserting into a TPIN-sorted sequence keeps it sorted |
| `Duplicates.SortByTpin` | Vat_Data_Analysis.py:38 | the result is a permutation of the input |
| `Duplicates.SortByTpinSorted` | Vat_Data_Analysis.py:38 | the result is in non-decreasing TPIN order |
| `Duplicates.Tail` | Vat_Data_Analysis.py:41 | the last min(k, n) rows, in order |
| `Duplicates.TailHoldsLargest` | Vat_Data_Analysis.py:41 | the tail of a sorted sequence is sorted, part of it, and no row left out has a larger TPIN than a row kept |
| `Duplicates.InspectDuplicates` | Vat_Data_Analysis.py:27-41 | a missing TPIN column is a `KeyError` whether the frame has rows or not; a success shows at most four rows; the full failure and success conditions are `InspectDuplicatesFails` and `InspectDuplicatesShows` |
| `Duplicates.InspectDuplicatesFails` | Vat_Data_Analysis.py:27-41 | the inspection fails exactly when TPIN is absent or a duplicate-TPIN row has no integer TPIN (two missing TPINs are duplicates of each other) |
| `Duplicates.InspectDuplicatesShows` | Vat_Data_Analysis.py:27-41 | on success it shows min(4, n) selected rows, sorted, each a duplicate-TPIN table row with an integer TPIN, none smaller than a selected row left out |
| `Pipeline.Clean` | Vat_Data_Analysis.py:90-114 | a successful run is well-formed, has the schema minus the two identifier columns and no more rows than the input; its failure and success conditions are `CleanFails` and `CleanRows` |
| `Pipeline.CleanFails` | Vat_Data_Analysis.py:90-114 | the pipeline fails exactly when a column some step names is absent, with the error of the first such step |
| `Pipeline.CleanRowCells` | Vat_Data_Analysis.py:90-114 | a cleaned row has the status code in REFUND_STATUS, no identifier columns, and TPIN and every untouched column unchanged |
| `Pipeline.CleanRowAmounts` | Vat_Data_Analysis.py:98-101 | a cleaned row keeps present amounts and has 0 for missing ones |
| `Pipeline.RowStepsCommuteWithTpinFilter` | Vat_Data_Analysis.py:90-111 | encoding and filling before the TPIN filter gives the same rows as filtering first |
| `Pipeline.CleanColumns` | Vat_Data_Analysis.py:90-114 | with every named column present the pipeline succeeds with the schema minus RETURN_ID and REFUND_ID |
| `Pipeline.CleanRowsAreCleanedKeptRows` | Vat_Data_Analysis.py:90-114 | with every named column present the output rows are the TPIN-present input rows, each cleaned |
| `Pipeline.CleanRows` | Vat_Data_Analysis.py:90-114 | with every named column present the pipeline's result is the reference row-wise table `Cleaned` |
| `Pipeline.CleanedWellFormed` | Vat_Data_Analysis.py:90-114 | every row of the cleaned table has exactly the cleaned schema |
| `Pipeline.CleanedOrder` | Vat_Data_Analysis.py:111-114 | the cleaned table has one row per TPIN-present input row, in input order, each the cleaned input row |
| `Pipeline.CleanedRows` | Vat_Data_Analysis.py:90-114 | every cleaned row has a TPIN, a status code in 0..8, all three amounts present, and no identifier column |
| `Pipeline.CleanIgnoresDroppedRows` | Vat_Data_Analysis.py:90-111 | cleaning the table equals cleaning only its TPIN-present rows, errors included |
| `Pipeline.RowWithoutTpinDropped` | Vat_Data_Analysis.py:111 | a row without a TPIN never reaches the output, whatever its status, and the output is shorter than the input |
| `Pipeline.ApprovedRowExample` | Vat_Data_Analysis.py:78-101 | a row with status "APPROVED" and a missing claimed amount ends with code 6 and claimed amount 0 |
| `Frames.FirstAbsent` | Vat_Data_Analysis.py:51-66 | the index of the first label that is not a column: every earlier label is a column, and the one at the index (if any) is not |
| `Pipeline.ReadPlotColumns` | Vat_Data_Analysis.py:50-66 | the plots leave the table as it is and, among the failures modelled, fail exactly when one of the five plotted columns is absent, naming the first absent one in reading order |
| `Pipeline.Script` | Vat_Data_Analysis.py:27-114 | the run fails with the inspection's error when the inspection raises, then with the plots' `KeyError` when a plotted column is absent, and is otherwise the cleaning's result (the drawing failures of lines 18, 66 and 123 are not modelled) |
| `Pipeline.ScriptFails` | Vat_Data_Analysis.py:27-114 | among the failures modelled, the run fails exactly when the inspection raises or a column some line reads is absent |
| `Pipeline.InspectionAdmitsOneMissingTpin` | Vat_Data_Analysis.py:27-35 | a table the inspection gets through has at most one row without a TPIN |
| `Pipeline.MissingTpinCount` | Vat_Data_Analysis.py:111 | the rows with a TPIN and the rows without one add up to the table |
| `Pipeline.ScriptDropsAtMostOneRow` | Vat_Data_Analysis.py:27-111 | a successful run of the whole script has the input's row count or one fewer |
| `Pipeline.DataFrame.MapRefundStatus` | Vat_Data_Analysis.py:90 | the frame becomes the encoded frame, or is untouched and the error is reported |
| `Pipeline.DataFrame.FillMissingAmounts` | Vat_Data_Analysis.py:101 | the frame becomes the filled frame, or is untouched and the error is reported |
| `Pipeline.DataFrame.DropRowsWithoutTpin` | Vat_Data_Analysis.py:111 | the frame loses its TPIN-less rows in place, or is untouched and the error is reported |
| `Pipeline.DataFrame.DropIdentifierColumns` | Vat_Data_Analysis.py:114 | the frame loses the two identifier columns in place, or is untouched and the error is reported |
| `Pipeline.CleanedUpToFailure` | Vat_Data_Analysis.py:90-114 | the frame the four steps leave: well-formed, the cleaned table when the pipeline succeeds, the input when REFUND_STATUS is absent |
| `Pipeline.FailedFillKeepsEncoding` | Vat_Data_Analysis.py:90-101 | when the fill raises, the statuses stay encoded and the rows and schema are as before |
| `Pipeline.DataFrame.CleanInPlace` | Vat_Data_Analysis.py:90-114 | running the four in-place steps in order leaves the frame equal to `Clean` of the original, or reports `Clean`'s error with the frame as the steps before it left it |

## Left out

- Loading the CSV over HTTP (line 6) and writing `clean_vat_data_v1.csv` (line 127): I/O; the model starts from a `Frame` and ends with one.
- `data.info()` and `duplicates.info()` (lines 9, 28): console output only.
- All drawing: the missingness heatmap (line 18), the two scatter plots (lines 50-61), the status bar chart (lines 65-66) and the correlation heatmap (lines 122-125) are display side effects. Only the column reads of lines 51-66 are modelled (`Pipeline.ReadPlotColumns`), and the failures of the drawing itself are not (see the next three lines).
- Pipeline.Script: the drawing can end the run where the model calls it successful. The heatmap at line 18 raises on a table with no rows, before the inspection runs. The bar chart at line 66 raises when no REFUND_STATUS value is present. `data.corr()` at line 123 raises under pandas 2 for a column it cannot convert to a number. The correlation matrix itself is floating-point statistics computed inside pandas and is not modelled either.
- Pipeline.ReadPlotColumns: it fails only for an absent plotted column; the bar chart at line 66 also raises when the table has no rows or no present REFUND_STATUS, and that failure is not modelled.
- Pipeline.ScriptFails: its "exactly when" covers only the failures modelled; the drawing failures of lines 18, 66 and 123 named above are not among them.
- pandas dtypes: the encoded statuses become floats 0.0-8.0 and TPIN is a float column; the model keeps integers, so the float-to-integer truncation of `astype(int)` and the parsing of numeric strings are not modelled, and a textual TPIN is reported as `NonIntegerTpin`.
- Duplicates.SelectDuplicates: a frame with rows but no columns at all is reported as a missing TPIN column; pandas treats such a frame as empty in `duplicated` and then fails the boolean indexing with an indexing error, not a `KeyError`.
- Duplicates.TpinsToInt: when both a missing and a non-numeric TPIN are selected it reports the missing one; which exception pandas raises for such a mix is not modelled.
- Duplicates.SortByTpin: pandas' default sort is not stable, so its contract promises only a permutation in non-decreasing TPIN order; the model's particular order among equal TPINs (input order) is one of the orders pandas may produce, not a claim about which.
- Column order and the row index labels: the schema is a set, and the labels `dropna` keeps are not tracked (the output is written with `index=False`).
- The copy-versus-view behaviour of `duplicates.loc[:, 'TPIN'] = ...` on a filtered frame: the model casts a copy.
