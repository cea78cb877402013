# PT-Tuya data pipeline, modelled in Dafny

This project models the data-preparation core of the PT-Tuya customer
segmentation pipeline and proves properties of it:

- **Record cleaning** (`scripts/utils.py`):
  - `filtrar_fechas_validas` drops the rows with no date. It renders each
    remaining date as text and splits the table into the rows whose text
    matches `^\d{8}$` and the rest.
  - `limpiar_columna_numerica` converts the transaction value with `float`
    through `es_float`. It counts the values that became missing and drops
    those rows.
- **Silver table** (`scripts/data_clean.py`, lines 13-20):
  - The valid-date rows are parsed with `%Y%m%d`; a string that names no
    calendar date becomes missing.
  - The cleaned transaction sheet is left-joined on `Id_tx`.
- **Gold features** (`scripts/data_gold.py`):
  - Per (customer, class) counts and sums.
  - Their pivot to one row per customer, with lower-cased
    `num_tx_<clase>` / `total_valor_<clase>` columns and 0 for absent pairs.
  - The avance/compra ratio, the recency in days, and the total number of
    transactions, composed in the order of `main`.
- **Discount fallback** (`main.py`, lines 24-33): when the clustered table has
  no discount column, the median ratio of cluster 1 is computed once. Each row
  then gets 0, 25, 20 or 5 percent from its cluster and how its ratio
  compares with that median.

Modules:

| module | file | role |
|---|---|---|
| `Wrappers` | wrappers.dfy | `Option` |
| `Seqs` | seqs.dfy | order-preserving filter (`dropna`, mask indexing), its index characterisation, mask partitions, concatenating map (one-to-many join) |
| `Text` | text.dfy | Python's `str` of an integer, the eight-digit pattern, a decimal grammar for `float` of text, ASCII lower-casing |
| `Calendar` | calendar.dfy | Gregorian calendar, day numbers, `%Y%m%d` |
| `RecordCleaner` | record_cleaner.dfy | the two cleaners of `scripts/utils.py`, as methods over the caller's table |
| `DataClean` | data_clean.dfy | date parsing, left join, the whole of lines 13-20 |
| `Floats` | floats.dfy | float cells: numbers, infinities, NaN; numpy division, addition, comparison |
| `FeatureBuilder` | feature_builder.dfy | the four steps of `scripts/data_gold.py` and their composition |
| `DiscountAssignor` | discount_assignor.dfy | `Series.median`, `asignar_descuento`, the block at lines 25-33 |

Representation choices:

- Tables are sequences of rows. The cleaners take the caller's table as an
  `array`, never modify it, and return new sequences.
- Gold frames are `Frame(index, columns)`: the sorted customer ids and a map
  from column name to column. The frame updated in place by
  `add_ratio_avance_compra` and `add_total_transacciones` is the class
  `FeatureTable`, and the table that gets its discount column is the class
  `ClusteredData`.
- A date on the silver table is a day number (days since 0001-01-01), so
  "days between two timestamps" is a difference of day numbers.
- A value cell before cleaning is a number, text, or an empty cell (NaN).
- Float cells of the gold frame are `Num(real)`, `PosInf`, `NegInf` or `NaN`.

## Model

| member | source | states |
|---|---|---|
| `Seqs.KeptIndices` | scripts/utils.py:88 | a filter keeps, in order, exactly the positions where the row survives, and the j-th output is the image of the j-th kept position |
| `Seqs.FilterMapCount` | scripts/utils.py:80-88 | the rows dropped are exactly the ones counted as missing: kept plus counted equals the input length |
| `Seqs.Partition` | scripts/utils.py:34-35 | a boolean mask and its negation together hold every row exactly once (multiset union) and their lengths add up to the input's |
| `Seqs.FlatMapSound` | scripts/data_clean.py:20 | every output of a one-to-many expansion comes from the block of some input row |
| `Seqs.FlatMapComplete` | scripts/data_clean.py:20 | the whole block of every input row is part of the output |
| `Text.NatToString` | scripts/utils.py:28 | the rendering of a natural number is a non-empty digit string with no leading zero whose positional value is the number |
| `Text.NatToStringOfDigits` | scripts/utils.py:28 | a digit string without a leading zero is the rendering of its own value, so rendering and reading digits are inverse |
| `Text.EightDigitsIff` | scripts/utils.py:31 | the rendered integer matches `^\d{8}$` exactly when it lies between 10000000 and 99999999 (negative numbers carry a sign) |
| `Text.ParseIntToString` | scripts/utils.py:67-72 | `ParseDecimal`, the model of `float` on text, applied to the rendering of any integer gives back that integer |
| `Text.IntToStringHasNoDot` | scripts/utils.py:28 | the rendering of an integer has no decimal point |
| `Text.ParseDigits` | scripts/utils.py:67-72 | `ParseUnsigned` reads a run of digits as its positional value |
| `Text.ParseWithFraction` | scripts/utils.py:67-72 | `ParseUnsigned` reads `whole.frac` as the whole value plus the fraction digits scaled by a power of ten |
| `Text.NotANumber` | scripts/utils.py:67-72 | `ParseDecimal` rejects text starting with anything but a digit, a sign or a dot |
| `Text.LowerAppend` | scripts/data_gold.py:24 | lower-casing distributes over concatenation |
| `Text.LowerAt` | scripts/data_gold.py:24 | lower-casing keeps the length and maps each character on its own |
| `Calendar.YearStep` | scripts/data_clean.py:14 | consecutive years are 365 or 366 days apart, following the 4/100/400 leap rule |
| `Calendar.MonthTiling` | scripts/data_clean.py:14 | the cumulative month table agrees with the month lengths and ends at the year length |
| `Calendar.DayNumberBounds` | scripts/data_clean.py:14 | a date's day number lies inside its year and inside its month |
| `Calendar.DayNumberOrder` | scripts/data_clean.py:14 | `DayNumber` orders dates exactly as the calendar does; two dates share a day number only when they are equal |
| `Calendar.NextDayIsOneLater` | scripts/data_gold.py:39 | consecutive calendar days are one day apart |
| `Calendar.StoredDateRoundTrip` | scripts/data_clean.py:13-14 | a date stored as the integer YYYYMMDD (four-digit year) passes the pattern and is read back as that same date |
| `Calendar.ParseYmdRendersBack` | scripts/data_clean.py:14 | the converse of the round trip: an eight-digit string without a leading zero that `ParseYmd`, the model of `%Y%m%d`, reads as a date names a valid date with a four-digit year, and is exactly the rendering of that date stored as the integer YYYYMMDD |
| `Calendar.ParseStoredInteger` | scripts/data_clean.py:14 | `%Y%m%d` on a rendered eight-digit integer gives a date exactly when the integer is YYYYMMDD for some calendar date, and then it gives that date |
| `Calendar.IntToStringInjective` | scripts/utils.py:28 | two integers with the same rendering are equal |
| `RecordCleaner.DropNullDates` | scripts/utils.py:25 | the copy keeps, in order, the rows whose date is present |
| `RecordCleaner.RenderDates` | scripts/utils.py:28 | each kept date is replaced by the text of the integer, row for row |
| `RecordCleaner.SplitByMask` | scripts/utils.py:31-35 | the first part holds the rows matching the pattern and the second the others, both in table order |
| `RecordCleaner.FilterValidDates` | scripts/utils.py:5-44 | the whole function: the valid and invalid parts are `ValidDates` and `InvalidDates`, the rendered dated rows selected by the pattern and by its negation |
| `RecordCleaner.RenderedDatesProvenance` | scripts/utils.py:25-28 | a rendered row is exactly the text form of an input row that had a date |
| `RecordCleaner.DateRouting` | scripts/utils.py:31-35 | a dated row goes to the valid part when its date has eight digits and to the invalid part otherwise |
| `RecordCleaner.DatePartition` | scripts/utils.py:25-35 | the two parts are disjoint, agree with the pattern, together hold every dated row exactly once, and their lengths sum to the number of dated rows |
| `RecordCleaner.RenderedDateIsPlainInteger` | scripts/utils.py:28 | every rendered date has no decimal point and reads back as the integer stored on the input row with the same customer and transaction ids |
| `RecordCleaner.ConvertColumn` | scripts/utils.py:74-77 | on a copy, each value becomes its float when `es_float` accepts it and becomes missing otherwise |
| `RecordCleaner.CountMissing` | scripts/utils.py:80 | the count of values that are missing after conversion |
| `RecordCleaner.DropMissing` | scripts/utils.py:88 | the converted rows with a present value, in order |
| `RecordCleaner.CleanNumericColumn` | scripts/utils.py:48-90 | the whole function: the cleaned rows are `CleanedRows` and the invalid count is `InvalidCount`, which equals the number of rows dropped |
| `RecordCleaner.CleanedRowsSpec` | scripts/utils.py:67-88 | a row survives `CleanedRows` exactly when its value converts; survivors keep their order, their id and class, and carry the converted number |
| `RecordCleaner.ExampleParses` | scripts/utils.py:67-72 | "10" and "20.5" are numbers; "abc" and "" are not |
| `RecordCleaner.ExampleConverted` | scripts/utils.py:74-77 | the values 10, "abc", "20.5" and an empty cell convert to 10, missing, 20.5, missing |
| `RecordCleaner.CleanNumericExample` | scripts/utils.py:48-90 | those four rows clean to the rows with 10 and 20.5, with 2 invalid values |
| `DataClean.ParseDates` | scripts/data_clean.py:14 | the conversion keeps every row, its order and its identifiers |
| `DataClean.ParsedDateIsCalendarDate` | scripts/data_clean.py:13-14 | every row of the converted valid partition comes from a dated row of the detail sheet with the same ids; its date is present exactly when that row's stored integer is YYYYMMDD for some calendar date, and is then that date's day number |
| `DataClean.MonthThirteenIsMissing` | scripts/data_clean.py:14 | "20231301" is coerced to missing |
| `DataClean.FebruaryThirtiethIsMissing` | scripts/data_clean.py:14 | "20230230" is coerced to missing |
| `DataClean.CommonYearLeapDayIsMissing` | scripts/data_clean.py:14 | "20230229" is coerced to missing |
| `DataClean.CenturyLeapDayIsMissing` | scripts/data_clean.py:14 | "19000229" is coerced to missing (1900 is not a leap year) |
| `DataClean.LeapYearLeapDayIsDate` | scripts/data_clean.py:14 | "20240229" is 29 February 2024 |
| `DataClean.QuadricentennialLeapDayIsDate` | scripts/data_clean.py:14 | "20000229" is 29 February 2000 |
| `DataClean.JoinRowSpec` | scripts/data_clean.py:20 | `JoinRow` gives a left row one output per transaction row with its `Id_tx`, combined in right-table order, or exactly one with missing transaction fields when there is none |
| `DataClean.LeftJoinAppend` | scripts/data_clean.py:20 | the output order of `LeftJoin`, the model of the merge, follows the left table: joining concatenated tables concatenates the results |
| `DataClean.LeftJoinSingle` | scripts/data_clean.py:20 | a single left row yields exactly its own block |
| `DataClean.JoinRowKeepsLeft` | scripts/data_clean.py:20 | every row produced for a left row carries its identifiers and date, and takes its transaction fields from a matching row or has them missing |
| `DataClean.LeftJoinSound` | scripts/data_clean.py:20 | every row of `LeftJoin` extends some left row; its class and value come from a transaction row with the same `Id_tx`, or are missing because no such row exists |
| `DataClean.LeftJoinKeepsLeft` | scripts/data_clean.py:20 | no left row is lost by the join |
| `DataClean.AtMostOneMatch` | scripts/data_clean.py:20 | with unique transaction ids each `Id_tx` matches at most once |
| `DataClean.LeftJoinOnKey` | scripts/data_clean.py:20 | with unique transaction ids the join keeps the left rows one for one and in order |
| `DataClean.BuildMasterTable` | scripts/data_clean.py:13-20 | the lines as a procedure: the unified table `MasterTable`, the invalid-date partition and the invalid-value count, which is the number of dropped transaction rows; neither sheet is modified |
| `DataClean.MasterRowsComeFromValidDates` | scripts/data_clean.py:13-20 | every unified row comes from a valid-date row, which is not in the invalid partition, and carries its parsed date |
| `DataClean.MasterValueProvenance` | scripts/data_clean.py:17-20 | every joined value is the converted value of a transaction row with the same `Id_tx` and class, or is missing because no cleaned row has that `Id_tx` |
| `DataClean.StoredDateReachesJoin` | scripts/data_clean.py:13-14 | a row whose stored integer is YYYYMMDD of a valid date reaches the join carrying that date |
| `Floats.DivideByOne` | scripts/data_gold.py:31 | dividing by the default 1 changes nothing, whatever the numerator |
| `Floats.DivideFinite` | scripts/data_gold.py:31 | the quotient is finite exactly when the numerator is finite and the denominator is a non-zero number or an infinity; a finite quotient times the denominator gives the numerator back |
| `Floats.BelowOrder` | main.py:26 | the order used by the median is a strict total order on non-NaN values |
| `Floats.GreaterThanSpec` | main.py:32 | `>` is false when either side is NaN, is the real comparison between numbers, and is asymmetric |
| `FeatureBuilder.LookupFound` | scripts/data_gold.py:10-11 | a group lookup succeeds exactly when some aggregate row has the key, and returns such a row |
| `FeatureBuilder.AccumulateSpec` | scripts/data_gold.py:10-11 | folding a value into one group changes only that group's row and keeps the group keys distinct |
| `FeatureBuilder.AggregateSpec` | scripts/data_gold.py:6-14 | `Aggregate`, the model of `generate_aggregates`, has exactly one row per (customer, class) pair that occurs with a present class, holding the count and the sum of the group's present values |
| `FeatureBuilder.AggregateStep` | scripts/data_gold.py:10-11 | one more row keeps the aggregate in agreement with its groups |
| `FeatureBuilder.GroupStep` | scripts/data_gold.py:11 | a row of a group adds one to its count and its value to its sum when the value is present |
| `FeatureBuilder.Insert` | scripts/data_gold.py:21 | inserting an id keeps the index strictly increasing and adds exactly that id |
| `FeatureBuilder.SortedDistinct` | scripts/data_gold.py:21 | the pivot index is strictly increasing and holds exactly the customers of the aggregate |
| `FeatureBuilder.AggregateClasses` | scripts/data_gold.py:10-11 | the classes of the aggregate are exactly the present class labels of the table |
| `FeatureBuilder.ColumnNameSplit` | scripts/data_gold.py:24 | a column name is the metric, an underscore and the lower-cased class |
| `FeatureBuilder.ColumnNamesDistinct` | scripts/data_gold.py:24 | when no two classes collide once lower-cased, a column name determines its metric and its class |
| `FeatureBuilder.ColumnNamesOfDistinctClasses` | scripts/data_gold.py:24 | classes that differ after lower-casing get four distinct column names |
| `FeatureBuilder.ColumnNameExamples` | scripts/data_gold.py:24 | "Compra" and "Avance" give `total_valor_compra`, `total_valor_avance`, `num_tx_compra` and `num_tx_avance` |
| `FeatureBuilder.PivotColumnsKeys` | scripts/data_gold.py:21-24 | the pivot has a column for exactly each metric and class, each as long as the index |
| `FeatureBuilder.PivotColumnsCells` | scripts/data_gold.py:21-22 | with distinct lower-cased classes, each column of a class holds that class's metric per customer |
| `FeatureBuilder.PivotShape` | scripts/data_gold.py:17-26 | `Pivot`, the model of `pivot_features`, is well formed, its index is exactly the aggregate's customers, and its columns are exactly the metric names of its classes |
| `FeatureBuilder.PivotCell` | scripts/data_gold.py:21-22 | each cell of `Pivot` is the group's count or sum, or 0 for a (customer, class) pair with no group |
| `FeatureBuilder.PivotOfSpec` | scripts/data_gold.py:62-63 | `PivotOf`, the pivot of the aggregate of the unified table: every customer of the pivot has a row with a class, and its cells are the count and sum of its present values in that class |
| `FeatureBuilder.WithColumnSpec` | scripts/data_gold.py:31 | assigning a column keeps the index and every other column, and adds or replaces exactly that one |
| `FeatureBuilder.RatioSpec` | scripts/data_gold.py:29-32 | `RatioColumn`, the column `WithRatio` adds, is avance over compra row by row; a missing compra column divides by 1, a missing avance column gives 0 wherever compra is a non-zero number or an infinity, and a compra of 0 gives no finite ratio |
| `FeatureBuilder.RatioExamples` | scripts/data_gold.py:31 | avance 50 with no compra column gives 50; with compra 0 it gives infinity |
| `FeatureBuilder.MaxOf` | scripts/data_gold.py:37-38 | the maximum is missing only for no dates, and is otherwise one of them and at least every other |
| `FeatureBuilder.LastDateSpec` | scripts/data_gold.py:37 | a customer's last date is the largest of its present dates, and is missing exactly when it has none |
| `FeatureBuilder.RecencySpec` | scripts/data_gold.py:38-39 | `Recency`, the value `AddRecency` joins for a customer, is present exactly when the customer has a date, is never negative, and is 0 exactly for a customer whose last date is the latest overall |
| `FeatureBuilder.TxCountSpec` | scripts/data_gold.py:45 | `TxCount`, the total `WithTotal` assigns, is the number of the customer's rows with a present value, and is at least its count in any one class |
| `FeatureBuilder.PivotNamesAreFree` | scripts/data_gold.py:62-66 | no pivot column is named like one of the three derived columns |
| `FeatureBuilder.ModelDataSpec` | scripts/data_gold.py:62-66 | `ModelData`, the frame `main` builds, keeps the pivot's rows and columns unchanged and adds exactly the ratio, recency and total columns, each computed from the pivot's rows |
| `FeatureBuilder.ModelDataTotals` | scripts/data_gold.py:66 | in the `ModelData` frame every customer's `num_transacciones` is its count of present values, never NaN |
| `FeatureBuilder.ModelDataRecency` | scripts/data_gold.py:65 | in the `ModelData` frame a customer's `dias_desde_ultima_tx` is NaN exactly when the customer has no date, is otherwise a non-negative number, and is 0 exactly for the customers with the latest date |
| `FeatureBuilder.FeatureTable.constructor` | scripts/data_gold.py:63 | the table holds the given frame |
| `FeatureBuilder.FeatureTable.AddRatio` | scripts/data_gold.py:29-32 | the frame gains the ratio column in place |
| `FeatureBuilder.FeatureTable.AddTotalTransactions` | scripts/data_gold.py:43-47 | the frame gains the total-count column in place |
| `FeatureBuilder.BuildModelData` | scripts/data_gold.py:57-66 | the procedure of `main` yields a new table holding the composed frame |
| `DiscountAssignor.InsertValue` | main.py:26 | inserting a non-NaN value into a sorted sequence keeps it sorted and adds exactly that value |
| `DiscountAssignor.SortValues` | main.py:26 | sorting gives a sorted permutation of the non-NaN values |
| `DiscountAssignor.MedianSpec` | main.py:26 | `Median`, the model of `Series.median`, is NaN for no present values; otherwise at least half of the present values (counted with multiplicity) are at most the median and at least half are at least it |
| `DiscountAssignor.MedianExamples` | main.py:26 | NaN values are skipped, and an empty series has a NaN median |
| `DiscountAssignor.AssignDiscount` | main.py:27-32 | a discount is always 0, 5, 20 or 25 |
| `DiscountAssignor.AssignDiscountSpec` | main.py:27-32 | cluster 0 gets 0 and cluster 2 gets 25; any other cluster gets 20 exactly when its ratio is strictly above the median and 5 otherwise, so an equal ratio or a NaN on either side gets 5 |
| `DiscountAssignor.AssignDiscountMonotone` | main.py:32 | within a cluster a larger ratio never gets a smaller discount |
| `DiscountAssignor.DiscountExamples` | main.py:27-32 | four rows cover the four outcomes, including a ratio equal to the median |
| `DiscountAssignor.ClusterMedianIgnoresOthers` | main.py:26 | `ClusterMedian`: replacing a row outside cluster 1 by another such row leaves the median unchanged |
| `DiscountAssignor.DiscountColumn` | main.py:33 | the applied column has one entry per row, each given by the rule with the fixed median |
| `DiscountAssignor.WithDiscountSpec` | main.py:25-33 | `WithDiscount`, the column after the block, always exists, keeps an existing one, computes one entry per row in {0, 5, 20, 25} otherwise, and a second run changes nothing |
| `DiscountAssignor.WithDiscountRows` | main.py:26-33 | each entry `WithDiscount` computes for a table without the column follows the rule with the one `ClusterMedian` of cluster 1: 0 for cluster 0, 25 for cluster 2, otherwise 20 exactly when the ratio is strictly above it and 5 otherwise |
| `DiscountAssignor.ClusteredData.constructor` | main.py:21 | the table holds the given rows and discount column |
| `DiscountAssignor.ClusteredData.EnsureDiscount` | main.py:25-33 | in place, the rows are unchanged and the discount column becomes that of the block |

## Left out

- Reading and writing files (`read_excel`, `load_data`, `to_csv`,
  `save_output`), the progress messages printed by the cleaners, and the
  Streamlit interface of main.py are I/O and are not modelled.
- scripts/model.py (scaling, k-means, the discount table) is not part of this
  model. The cluster labels are an input of `DiscountAssignor`.
- The wiring of `load_data` that the scripts import is not modelled. Each
  step takes the table it would have read as a parameter, and the
  CSV round trip of the silver table is not modelled: the join's dates go
  straight to the gold step as day numbers.
- `pd.to_datetime(..., errors="coerce")` at nanosecond resolution (pandas'
  default) represents timestamps from 1677-09-21 00:12:43.145224193 to
  2262-04-11 23:47:16.854775807. A midnight date is kept only from 1677-09-22
  to 2262-04-11, and it becomes missing outside that range. The model keeps
  those dates: `ParseYmd` and `ParseDates` give a day number for every valid
  date of the years 1000 to 9999 that eight digits can name.
- Stored dates are taken as integers: the input column has type
  `Option<int>`. Line 28 of scripts/utils.py raises on a non-numeric text
  date such as "2023-01-01" and on a fractional stored date such as
  20230101.5, which cannot be cast to `Int64`. Those cases are not modelled.
- The `Int64` cast at line 28 of scripts/utils.py also raises for a stored
  value outside the `Int64` range (below -2^63, or 2^63 or more). The model
  renders such a value as a long digit string and puts it in the invalid
  partition.
- `float(...)` on text: the model accepts an optional sign, digits and an
  optional fraction. It does not accept exponents, surrounding spaces,
  underscores, `inf`/`nan` spellings or a bare dot with no digits.
  `es_float` on a number cell is always true. An empty cell is NaN, passes
  `es_float`, and is then dropped by `dropna`.
- `\d` and `str.lower()` are modelled on ASCII only.
- Customer ids are assumed never missing: `ClientId` is a plain integer. In
  the source, the groupbys at lines 10, 37 and 45 of scripts/data_gold.py drop
  rows with no `Id_cliente`. The overall maximum at line 38 still counts those
  rows, so the latest date can come from a row with no customer, and then no
  customer has recency 0. The model cannot express such a row.
- Value cells are assumed to be a number, text or empty (`RawCell`). A cell of
  another type, such as a datetime read from an Excel date cell, makes `float`
  raise `TypeError`. `es_float` (lines 67-72 of scripts/utils.py) catches only
  `ValueError`, so `limpiar_columna_numerica` raises on such a cell. This case
  is not modelled.
- `float(value)` at line 69 of scripts/utils.py also accepts non-ASCII
  Unicode decimal digits: full-width "１０" gives 10.0. `ParseDecimal`
  accepts ASCII digits only and rejects such text.
- Floating point: values are exact reals. There is no rounding, no signed
  zero, and no integer-to-float precision loss.
- Column order of pandas frames and the row order of the long-form aggregate
  are not modelled. A frame is a map from column name to column, and the
  aggregate is looked up by key.
- FeatureBuilder.PivotColumnsCells, FeatureBuilder.PivotCell,
  FeatureBuilder.PivotOfSpec: these require the classes to be distinct after
  lower-casing. Classes that coincide once lower-cased produce duplicate
  column names in pandas; in the model the later class takes the name.
- The merge on `Id_tx` is modelled for ids that are never missing, so how
  pandas matches NaN keys to each other is left out.
- Line 14 of scripts/data_clean.py assigns a column on the same frame. It is
  modelled as a function producing the converted table, because nothing else
  refers to the old one.
- Line 31 of scripts/data_gold.py gives a missing compra column a per-row
  divisor of 1, and a compra of 0 gives infinity or NaN; no guard is added,
  and the model adds none either.
- `FeatureBuilder.AddRecency` returns nothing when the frame already has a
  recency column, where pandas' `join` raises. In the pipeline the column is
  never present beforehand (`PivotNamesAreFree`).
- DiscountAssignor.MedianSpec: the two half bounds are stated only for a
  median that is not NaN. With an even count the median is the mean of the
  two middle values, and the mean of two opposite infinities is NaN, as numpy
  also gives.
