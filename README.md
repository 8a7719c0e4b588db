# A verified model of polars window, construction and temporal logic

This project models four parts of polars, the DataFrame library, in Dafny and proves properties of each.

- **Window functions** (`Window`, `WindowOps`, `WindowCases`). This covers `expr.over(keys)`:
  - Rows are partitioned by their key, and a null key is an ordinary key value.
  - A reducing aggregate (max, sum, count, mean) is broadcast to every row of its group.
  - A row-preserving expression (shift, arange, cumulative max and mean, ordinal rank, reverse) is evaluated per group and written back to the group's rows.
  - `implode` gives each row its group's list, and `flatten` concatenates the group outputs in group order.

  The model has two layers. A *reference meaning* states, row by row, what row i receives. An *evaluator* builds a grouping map and materializes the group outputs, and it comes in two forms: the hashed path and the sorted fast path. The lemmas show that both paths compute the reference meaning, that the two paths agree on sorted keys, and that sorting commutes with the window. The expected outputs of the window tests are derived as lemmas.
- **Frame construction helpers** (`PyValues`, `Nested`, `Schema`, `Frames`, `Fallbacks`, `Chunks`). These are the bookkeeping parts of `py-polars/polars/utils/_construction.py`:
  - `_unpack_schema` and `include_unknowns`;
  - `_handle_columns_arg`, which renames series objects in place and is modelled as a `PySeries` class;
  - `_expand_dict_scalars`, whose fill loop and pop loop are methods;
  - the schema-key check of `dict_to_pydf`;
  - orientation inference in `_sequence_of_sequence_to_pydf`;
  - the column count of `numpy_to_pydf`;
  - the constructor-fallback retry loop;
  - `contains_nested`, `nt_unpack` and `_get_first_non_none`;
  - the chunked read loops of `iterable_to_pyseries` and `iterable_to_pydf`, with chunked series and frame classes.

  A Python dict is an insertion-ordered list of entries with distinct keys.
- **Temporal dispatch** (`Temporal`). These are the planner functions of `function_expr/temporal.rs`:
  - `temporal_range_dispatch`: the length check, the Date-to-milliseconds scaling, flat versus list output, and null rows. Its loop over zipped bounds appends to a list-builder class.
  - the dtype dispatch of `combine`;
  - the dtype dispatch of `date_offset`, and `offset_fn`.

  The range generators, `Duration::add_*` and `replace_time_zone` are function parameters.
- **Calendar arithmetic** (`Calendar`, `CalendarFields`, `Offsets`, `Units`, `DatetimeCases`, `TemporalCases`). This is the proleptic Gregorian calendar over day counts since 1970-01-01, with ISO 8601:2004 weekdays and week numbers (sections 3.2.1 and 4.1.4):
  - civil dates and ordinal days;
  - leap years, quarters, month start and month end;
  - saturating and erroring month offsets;
  - epoch and time-unit conversion, duration components, and fixed-size truncate and round.

  `DatetimeCases` and `TemporalCases` derive the expected values of the `dt` namespace tests. Day-count-to-date conversion is exact: it round-trips in both directions.

The calendar offset of `offset_by` lives in polars-time, which is not part of this model. The model follows the behaviour the tests pin down: months move and the day is kept; a missing day fails, or is clamped with `_saturating`; then days are added.

## Model

| member | source | states |
|---|---|---|
| Window.Members | py-polars/tests/unit/operations/test_window.py:10-22 | every row listed for key k carries key k, the null key included |
| Window.MembersComplete | py-polars/tests/unit/operations/test_window.py:10-22 | every row with key k is listed for k, once, in increasing row order |
| Window.PosInMembers | py-polars/tests/unit/operations/test_window.py:124-130 | row i is found in its group's row list at its own position Pos(keys, i) |
| Window.PartitionOfRows | py-polars/tests/unit/operations/test_window.py:10-31 | in a grouping map every row lies in exactly one group, and each group's rows are increasing and in range |
| Window.HashGroupsDescribe | py-polars/tests/unit/operations/test_window.py:10-22 | the hashed path builds the grouping map of the keys: one group per distinct key, holding exactly its rows, groups in order of first occurrence |
| Window.RunsAreHashGroups | py-polars/tests/unit/operations/test_window.py:323-340 | on keys whose equal values are contiguous, the sorted fast path builds the same grouping map as the hashed path |
| Window.GroupingTotal | py-polars/tests/unit/operations/test_window.py:132-138 | the group sizes of either path add up to the number of rows, so an empty frame has no groups |
| Window.Materialize | py-polars/tests/unit/operations/test_window.py:113-121 | writing group outputs back succeeds exactly when every output fits its group and every row is located; row i then receives the entry at its position in its group |
| Window.MaterializeDescribed | py-polars/tests/unit/operations/test_window.py:113-119 | materializing a grouping map gives row i the output of its key's group at its position |
| Window.MaterializeIsRefMap | py-polars/tests/unit/operations/test_window.py:141-153 | materializing the grouping map of the keys computes the reference row-preserving result |
| Window.OverMapIsRefMap | py-polars/tests/unit/operations/test_window.py:124-130 | a row-preserving window on the hashed path equals its reference meaning |
| Window.MaterializeFails | py-polars/tests/unit/operations/test_window.py:113-121 | materializing fails exactly when some row's group output does not have the group's length |
| Window.OverMapFails | py-polars/tests/unit/operations/test_window.py:113-121 | a row-preserving window fails exactly when some group's output does not have the group's length |
| Window.OverReduceIsRefReduce | py-polars/tests/unit/operations/test_window.py:203-212 | a reducing window on the hashed path gives every row the aggregate of its group |
| Window.SortedAgreesWithHashed | py-polars/tests/unit/operations/test_window.py:323-340 | on sorted keys, the sorted fast path and the hashed path give the same window and flatten results |
| Window.BroadcastConsistent | py-polars/tests/unit/operations/test_window.py:10-22 | a reducing window never fails, has one value per row, and rows with equal keys receive equal values, on either path |
| Window.ImplodeBroadcastsList | py-polars/tests/unit/operations/test_window.py:113-119 | implode over keys gives every row the list of its group's values in row order, not one row per group |
| Window.ElementwiseOver | py-polars/tests/unit/operations/test_window.py:267-280 | an elementwise inner expression is unaffected by the window |
| Window.FlattenLength | py-polars/tests/unit/operations/test_window.py:120 | with a row-preserving inner expression, flatten never fails and yields one value per row |
| Window.RunsSlicesConcat | py-polars/tests/unit/operations/test_window.py:120 | concatenating the runs' values in group order gives back the column |
| Window.FlattenSortedIsIdentity | py-polars/tests/unit/operations/test_window.py:120 | on sorted keys, implode, over and flatten give the column back unchanged, on either path |
| Window.ImplodeFlattenAgree | py-polars/tests/unit/operations/test_window.py:113-120 | on sorted keys, flattened row i is the entry at row i's position of the list that implode gives row i |
| Window.PermutedMembers | py-polars/tests/unit/operations/test_window.py:267-280 | after a reordering that keeps each group's relative order, a key's rows are its old rows renumbered |
| Window.PermutedPos | py-polars/tests/unit/operations/test_window.py:267-280 | after such a reordering, each row keeps its position in its group |
| Window.PermutedGroupValues | py-polars/tests/unit/operations/test_window.py:267-280 | after such a reordering, each group has the same values in the same order |
| Window.ReorderCommutes | py-polars/tests/unit/operations/test_window.py:267-280 | sorting then evaluating a row-preserving window equals evaluating then sorting, for a sort that keeps each group's relative order |
| WindowOps.SumOf | py-polars/tests/unit/operations/test_window.py:317-321 | a sum is null exactly when every value of the group is null |
| WindowOps.SumOfConcat | py-polars/tests/unit/operations/test_window.py:317-321 | the sum of a group split in two is the null-skipping sum of the parts' sums |
| WindowOps.MaxOf | py-polars/tests/unit/operations/test_window.py:10-22 | a max is null exactly when every value is null; otherwise it is one of the values and at least every non-null value |
| WindowOps.CountValid | py-polars/tests/unit/operations/test_window.py:194-200 | the number of non-null values, which the null-skipping mean divides by: at most the group size, equal to it exactly when no value is null, 0 exactly when all are null |
| WindowOps.MeanOf | py-polars/tests/unit/operations/test_window.py:400 | the mean of integer values, an exact rational, is null exactly on an empty group and otherwise times the count gives the total |
| WindowOps.KeepFlagged | py-polars/tests/unit/operations/test_window.py:400 | a filter keeps at most the group's rows: all of them when every flag is 1, none when no flag is |
| WindowOps.FlaggedRows | py-polars/tests/unit/operations/test_window.py:400 | the rows whose flag is 1, each exactly once, in increasing row order |
| WindowOps.KeepFlaggedInRowOrder | py-polars/tests/unit/operations/test_window.py:400 | the filter keeps one value per flagged row, and the p-th kept value is the field of the p-th flagged row |
| WindowOps.Shift | py-polars/tests/unit/operations/test_window.py:141-153 | shift keeps the length, makes the first row null and moves every value down one row |
| WindowOps.Arange | py-polars/tests/unit/operations/test_window.py:124-130 | arange(0, count()) has one entry per row |
| WindowOps.CumMaxIsRunningMax | py-polars/tests/unit/operations/test_window.py:171-192 | entry i of the cumulative max is the largest of rows 0..i and is one of them |
| WindowOps.MeanSkipNull | py-polars/tests/unit/operations/test_window.py:194-200 | the mean of a column with nulls is null exactly when every value is null, and otherwise times the count of non-null values gives their sum |
| WindowOps.CumMeanIsRunningMean | py-polars/tests/unit/operations/test_window.py:194-200 | entry i of the cumulative mean is null exactly while every row so far is null, and a null row repeats the mean of the row before |
| WindowOps.NullRowKeepsMean | py-polars/tests/unit/operations/test_window.py:194-200 | a trailing null changes neither the sum nor the count, so the mean is that of the rows before it |
| WindowOps.OrdinalRankOrder | py-polars/tests/unit/operations/test_window.py:215-235 | ordinal ranks run from 1 to the group size, follow the values, break ties by row order and are distinct |
| WindowOps.Reverse | py-polars/tests/unit/operations/test_window.py:104-109 | reverse keeps the length and puts row i at position n-1-i |
| WindowOps.ShiftOver | py-polars/tests/unit/operations/test_window.py:141-153 | shift over keys gives null to the first row of each group and the previous value of its own group to every other row |
| WindowOps.ShiftRows | py-polars/tests/unit/operations/test_window.py:141-153 | the reference meaning of shift over keys, row by row |
| WindowOps.ArangeOver | py-polars/tests/unit/operations/test_window.py:124-130 | arange over keys numbers the rows of each group from 0, in row order |
| WindowOps.CountOver | py-polars/tests/unit/operations/test_window.py:203-212 | count over keys gives every row the size of its group |
| WindowOps.PosMonotone | py-polars/tests/unit/operations/test_window.py:124-130 | within a group an earlier row has a smaller position |
| WindowOps.RankOver | py-polars/tests/unit/operations/test_window.py:215-235 | ordinal rank over keys runs from 1 to the group size and, within a group, follows the values with ties broken by row order |
| WindowOps.NullKeysOneGroup | py-polars/tests/unit/operations/test_window.py:310-321 | the null-keyed rows form exactly one group |
| WindowOps.SortedNullsFirstContiguous | py-polars/tests/unit/operations/test_window.py:323-328 | a column sorted with nulls first keeps equal keys in one run, so the sorted fast path applies |
| WindowOps.Zip | py-polars/tests/unit/operations/test_window.py:24-31 | the tuple key of a window over two columns has one entry per row |
| WindowOps.TupleKeyGroups | py-polars/tests/unit/operations/test_window.py:24-31 | over two columns, two rows share a group exactly when they agree on both columns |
| WindowOps.DistinctKeySingletons | py-polars/tests/unit/operations/test_window.py:24-31 | over a key without repeats, every row receives the aggregate of its own value alone |
| WindowCases.MembersFrom | py-polars/tests/unit/operations/test_window.py:10-22 | a front-to-back scan lists exactly the rows with key k from a given row on, increasing |
| WindowCases.MembersForward | py-polars/tests/unit/operations/test_window.py:10-22 | the scan agrees with the group's members |
| WindowCases.MembersOfRun | py-polars/tests/unit/operations/test_window.py:124-130 | a key held by exactly one contiguous run has that run as its group |
| WindowCases.MaxOverOneColumn | py-polars/tests/unit/operations/test_window.py:19-22 | max of c = [3, 2, 1] over a = [a, a, b] is [3, 3, 1] |
| WindowCases.DistinctMax | py-polars/tests/unit/operations/test_window.py:24-27 | over keys without repeats, max gives each row its own value |
| WindowCases.MaxOverTwoColumns | py-polars/tests/unit/operations/test_window.py:24-31 | max over the tuple (a, b) gives [3, 2, 1], for the list form and the positional form alike |
| WindowCases.CountOverCase | py-polars/tests/unit/operations/test_window.py:203-212 | count over a = [1, 1, 2] is [2, 2, 1] |
| WindowCases.NullKeyMax | py-polars/tests/unit/operations/test_window.py:310-315 | max of [null, 2] over id [null, 1] is [null, 2] |
| WindowCases.NullKeySum | py-polars/tests/unit/operations/test_window.py:317-328 | sum of a over a = [null, 1, 2, 3, 3, 3, 4, 4] is [null, 1, 2, 9, 9, 9, 8, 8], on the hashed and the sorted path |
| WindowCases.DropNullsSum | py-polars/tests/unit/operations/test_window.py:330-340 | after dropping nulls the same window gives [1, 2, 9, 9, 9, 8, 8], on either path |
| WindowCases.FilteredMeanCase | py-polars/tests/unit/operations/test_window.py:391-410 | the mean of field1 filtered on flag == 1 over group is [2.0, 2.0, 7.0, 7.0] |
| WindowCases.GroupsOfAB | py-polars/tests/unit/operations/test_window.py:87-92 | the hashed grouping of [A, A, B, B, B] is A = rows 0, 1 and B = rows 2, 3, 4 |
| WindowCases.ImplodeCase | py-polars/tests/unit/operations/test_window.py:113-119 | implode over groups is [[0, 1], [0, 1], [2, 3, 4], [2, 3, 4], [2, 3, 4]] |
| WindowCases.FlattenAB | py-polars/tests/unit/operations/test_window.py:99-103 | the flattened window concatenates group A's output and then group B's |
| WindowCases.FlattenCase | py-polars/tests/unit/operations/test_window.py:120 | implode, over and flatten give [0, 1, 2, 3, 4] |
| WindowCases.ReverseFlattenCase | py-polars/tests/unit/operations/test_window.py:121 | reverse, implode, over and flatten give [1, 0, 4, 3, 2] |
| WindowCases.ArangeCase | py-polars/tests/unit/operations/test_window.py:124-130 | arange(0, count()) over x = [5, 5, 4, 4, 2, 2] is [0, 1, 0, 1, 0, 1] |
| WindowCases.ArangeNoRows | py-polars/tests/unit/operations/test_window.py:132-138 | on a frame without rows the window yields no rows, without error |
| WindowCases.ShiftCase | py-polars/tests/unit/operations/test_window.py:141-153 | shift over group gives [null, 1, 2, null, 4, 5] |
| WindowCases.CumMaxCase | py-polars/tests/unit/operations/test_window.py:171-192 | the cumulative max over group gives [20, 40, 40, 2, 4, 4] |
| WindowCases.CumMeanCase | py-polars/tests/unit/operations/test_window.py:194-200 | the cumulative mean of value [1, null, 3, null] over group [1, 1, 2, 3] gives [1.0, 1.0, 3.0, null] |
| WindowCases.RankCase | py-polars/tests/unit/operations/test_window.py:215-235 | ordinal rank of date over customer_ID is [1, 2, 1], on the sorted fast path that the sorted frame takes as on the hashed path |
| WindowCases.RankCountCase | py-polars/tests/unit/operations/test_window.py:215-235 | count of date over customer_ID, the size of each row's group, is [2, 2, 1] on either path |
| PyValues.Set | py-polars/polars/utils/_construction.py:692-693 | assigning a key keeps an existing key's place and appends a new one; that key then maps to the value and other keys are unaffected |
| PyValues.FromPairs | py-polars/polars/utils/_construction.py:625-631 | a dict comprehension keeps each key once, in order of first occurrence, with the value of its last pair |
| PyValues.GetAt | py-polars/polars/utils/_construction.py:556-557 | in a dict whose keys are distinct, looking up an entry's key finds that entry's value |
| PyValues.Remove | py-polars/polars/utils/_construction.py:693 | after popping a key it is absent and every other key keeps its value |
| PyValues.NotIn | py-polars/polars/utils/_construction.py:636-638 | the filtered list holds exactly the items of the first list that are not in the second |
| PyValues.SetAppends | py-polars/polars/utils/_construction.py:634 | setting a key the dict lacks appends its entry at the end |
| Nested.ContainsNestedWithin | py-polars/polars/utils/_construction.py:111-119 | contains_nested is true exactly when some value reachable through dict values, list items and tuple items satisfies is_nested |
| Nested.NtUnpackLeavesNoNamedTuple | py-polars/polars/utils/_construction.py:132-143 | after nt_unpack no named tuple is left anywhere the nested search looks |
| Nested.NtUnpackKeepsPlainValues | py-polars/polars/utils/_construction.py:132-143 | a value holding no named tuple comes back from nt_unpack unchanged |
| Nested.NtUnpackIdempotent | py-polars/polars/utils/_construction.py:132-143 | unpacking twice is unpacking once |
| Nested.FirstIn | py-polars/polars/utils/_construction.py:224-232 | the first non-None element, or None exactly when every element is None |
| Nested.FirstNonNone | py-polars/polars/utils/_construction.py:224-232 | _get_first_non_none of None, or of an all-None sequence, is None; otherwise it is the first element that is not None |
| Schema.DecimalRoundTrip | py-polars/polars/utils/_construction.py:620 | the decimal text of i in f"column_{i}" reads back as i |
| Schema.DefaultNameInjective | py-polars/polars/utils/_construction.py:620-624 | different positions get different default names |
| Schema.Entries | py-polars/polars/utils/_construction.py:617-618 | a dict schema is read as its (name, dtype) items, in order |
| Schema.UnpackNames | py-polars/polars/utils/_construction.py:619-624 | there is one column name per schema entry |
| Schema.DefaultNames | py-polars/polars/utils/_construction.py:622-624 | with no schema, n_expected gives column_0 ... column_{n-1}, all different; no schema and no count give no names |
| Schema.LookupAt | py-polars/polars/utils/_construction.py:625-627 | with distinct column names, a column maps to the lookup name at its position when that is non-empty and is absent otherwise |
| Schema.SchemaDtypesMeaning | py-polars/polars/utils/_construction.py:628-632 | a key has a dtype exactly when some (name, dtype) entry with a dtype is keyed by it, through lookup, and the dtype is that of the last such entry |
| Schema.ApplyOverrides | py-polars/polars/utils/_construction.py:633-634 | column_dtypes.update(overrides): override keys take the override's dtype, others keep the base one, and keys new to the base follow its keys in override order |
| Schema.UnpackSchema | py-polars/polars/utils/_construction.py:604-646 | the names and the dtype dict of _unpack_schema: the schema's dtypes updated with the overrides; when asked for and a schema is given, every key of that dict missing from the names (a lookup-renamed schema key included) is appended to the names |
| Schema.IncludeUnknowns | py-polars/polars/utils/_construction.py:122-129 | include_unknowns has exactly the given columns, in first-occurrence order, each with its schema dtype or Unknown when missing or None |
| Fallbacks.NextConstructor | py-polars/polars/utils/_construction.py:303-331 | each constructor is picked exactly when its own branch is the first that applies, in the source's order: float when the text mentions 'float'; str when it mentions 'str' or is the real-number message; int for the PyBool message; Decimal when it mentions decimal.Decimal; and the error is re-raised exactly when no branch applies |
| Fallbacks.ConstructSeriesWithFallbacks | py-polars/polars/utils/_construction.py:296-331 | the retry loop returns what the recursive definition of the fallbacks gives |
| Fallbacks.RunOutcome | py-polars/polars/utils/_construction.py:303-331 | a series returned was built by some constructor; a TypeError raised has a text that picks no constructor; any other exception is raised unchanged |
| Fallbacks.FallbacksOutcome | py-polars/polars/utils/_construction.py:296-331 | the retry loop's result was built by some constructor, and a TypeError escapes only when its text picks no constructor |
| Fallbacks.ImmediateSuccess | py-polars/polars/utils/_construction.py:305 | a constructor that succeeds is returned at once |
| Fallbacks.FloatMessage | py-polars/polars/utils/_construction.py:312-313 | a message starting with 'float' selects the float constructor |
| Fallbacks.RealNumberMessage | py-polars/polars/utils/_construction.py:319-320 | "must be real number, not str" selects the str constructor |
| Fallbacks.SecondAttempt | py-polars/polars/utils/_construction.py:303-331 | a TypeError whose text picks a constructor that then builds the series gives that series |
| Fallbacks.Reraised | py-polars/polars/utils/_construction.py:330-331 | a TypeError whose text picks no constructor is raised again |
| Frames.PySeries.Rename | py-polars/polars/utils/_construction.py:560 | rename changes the series' name |
| Frames.LastRef | py-polars/polars/utils/_construction.py:559-561 | the last position before i holding a given series, when there is one |
| Frames.LastRefOfDistinct | py-polars/polars/utils/_construction.py:559-561 | when each series object occurs once, its last position is its position |
| Frames.NamedPairs | py-polars/polars/utils/_construction.py:555 | the (name, series) pairs of series_map, one per series |
| Frames.HandleColumnsArg | py-polars/polars/utils/_construction.py:544-563 | no columns returns the data; no data gives empty series named by the columns; differing lengths fail; with from_dict and every column a series name they are picked by name, each the last series bearing that name; otherwise each object ends up with the column name of its last position, and no name changes on the other paths |
| Frames.NewEmptySeries | py-polars/polars/utils/_construction.py:552 | one new empty series per column, named after it |
| Frames.ByName | py-polars/polars/utils/_construction.py:557 | each column's series is the one series_map holds for that name: the series of the last pair with that name |
| Frames.RenamePositionally | py-polars/polars/utils/_construction.py:559-561 | after renaming, each series object carries the column name of its last position in data |
| Frames.NamedEntry | py-polars/polars/utils/_construction.py:555-557 | the series a name maps to in series_map is one of the pairs with that name |
| Frames.ArrayLength | py-polars/polars/utils/_construction.py:659 | array_len is the largest of the value lengths, with unsized values as 0, and 0 for an empty dict |
| Frames.ExpansionOf | py-polars/polars/utils/_construction.py:658-690 | the branch taken: broadcast when some value has positive length, to the largest length; all-empty when every value has length 0; all-unsized when no value has a length; otherwise no columns |
| Frames.ExpandedKeys | py-polars/polars/utils/_construction.py:655-694 | the expanded columns keep the dict's keys in order, unless no branch builds columns |
| Frames.NoColumnsWhen | py-polars/polars/utils/_construction.py:655-690 | no columns are built exactly when the dict is empty, or every length is 0 or missing with both kinds present |
| Frames.BroadcastHeights | py-polars/polars/utils/_construction.py:660-679 | when broadcasting, a scalar is repeated array_len times, and a sized value keeps its own length, at most array_len |
| Frames.UnbroadcastHeights | py-polars/polars/utils/_construction.py:681-690 | when every value is empty each column is empty; when none has a length, every non-generator value gives a one-row column |
| Frames.FillColumns | py-polars/polars/utils/_construction.py:655-690 | the loop builds exactly the columns of the branch taken |
| Frames.FillUnder | py-polars/polars/utils/_construction.py:661-690 | each branch's loop builds one column per entry, in order |
| Frames.PoppableAll | py-polars/polars/utils/_construction.py:692-693 | every column of the order can be popped exactly when the order lists distinct keys of the dict |
| Frames.PopInOrder | py-polars/polars/utils/_construction.py:692-693 | the pop comprehension gives the entries named by the order, in that order, or a KeyError at the first column that is missing or popped already |
| Frames.ExpandDictScalars | py-polars/polars/utils/_construction.py:649-694 | _expand_dict_scalars gives the expanded columns, put into the requested order |
| Frames.FirstMissing | py-polars/polars/utils/_construction.py:709 | the first column the dict lacks |
| Frames.SelectColumns | py-polars/polars/utils/_construction.py:709 | {col: data[col] for col in cols}: a KeyError at the first missing column, otherwise the columns' values in first-occurrence order |
| Frames.CheckDictSchema | py-polars/polars/utils/_construction.py:704-709 | with a dict schema and non-empty data it succeeds exactly when the data keys and the schema columns are the same set: a data key outside the schema raises the names error, and otherwise the first schema column missing from the data raises a KeyError; on success the data is re-read in schema order with values unchanged, and without a dict schema or with empty data it is returned as is |
| Frames.SingleDtypeMeaning | py-polars/polars/utils/_construction.py:886-890 | the first row resolves to one dtype exactly when its non-None values share one type, or are ints and floats |
| Frames.InferOrient | py-polars/polars/utils/_construction.py:880-892 | a first row over 1000 long gives col exactly when the schema length equals the data length; a shorter row gives col exactly when it resolves to one dtype, provided the schema is absent, empty or as long as the data; otherwise row |
| Frames.SequenceOrient | py-polars/polars/utils/_construction.py:880-942 | an explicit row or col is used, none is inferred, and any other string is a ValueError |
| Frames.MixedNumericRowIsColumn | py-polars/polars/utils/_construction.py:887-890 | a row of ints and floats resolves to a column; ints and bools do not |
| Frames.FirstDeepField | py-polars/polars/utils/_construction.py:1148-1152 | the first field with more than two dimensions, or none when all have at most two |
| Frames.PlainColumns | py-polars/polars/utils/_construction.py:1156-1190 | the column count of a plain array: 0 for shape (0,), 1 for 1-D, for 2-D the second axis for row and the first for col, inferred from the schema when no orient is given; other ranks and other orients are errors |
| Frames.NumpyColumns | py-polars/polars/utils/_construction.py:1141-1193 | a structured array has one column per field and orient col, refuses fields over 2-D, and a schema of another length fails; so does a schema whose length is not the plain array's column count |
| Frames.NumpyColumnExamples | py-polars/polars/utils/_construction.py:1165-1193 | a 3x4 array with a 3-name schema has 3 columns, without one it has 4, a cube is refused, and a 2-name schema for a 1-D array fails |
| Chunks.Slice | py-polars/polars/utils/_construction.py:277 | islice takes the first min(n, remaining) items |
| Chunks.ChunkedSeries.Append | py-polars/polars/utils/_construction.py:285 | appending adds a chunk and extends the values |
| Chunks.ChunkedSeries.Rechunk | py-polars/polars/utils/_construction.py:290-291 | rechunking leaves one chunk with the same values |
| Chunks.IterableToSeries | py-polars/polars/utils/_construction.py:253-292 | every value is read into one chunk (none for chunk size 0), with the dtype given or inferred from the first chunk |
| Chunks.FirstSize | py-polars/polars/utils/_construction.py:1402-1413 | the first chunk size is positive and at least infer_schema_length |
| Chunks.ReadRowsCases | py-polars/polars/utils/_construction.py:1414-1427 | every row is read, unless the size is recomputed for a first frame with more columns than the item budget, when only the first chunk is |
| Chunks.GivenChunkSizeKept | py-polars/polars/utils/_construction.py:1402-1424 | a given chunk size at least the inference length is used throughout |
| Chunks.NamedColumnsChunkSize | py-polars/polars/utils/_construction.py:1404-1413 | without a chunk size, 40 named columns read 25000 rows per chunk |
| Chunks.ChunkedFrame.VStack | py-polars/polars/utils/_construction.py:1426 | vstack adds a chunk of rows |
| Chunks.ChunkedFrame.Rechunk | py-polars/polars/utils/_construction.py:1432 | rechunk leaves one chunk with the same rows |
| Chunks.IterableToFrame | py-polars/polars/utils/_construction.py:1399-1432 | a size recomputed for a first frame of no columns divides by zero; otherwise the frame has the first chunk's width and one chunk with the rows read |
| Temporal.MsToDays | polars/polars-lazy/polars-plan/src/dsl/function_expr/temporal.rs:135 | casting milliseconds to Date gives, for each value, the day whose milliseconds start at or before it and end after it |
| Temporal.ListModeOf | polars/polars-lazy/polars-plan/src/dsl/function_expr/temporal.rs:143-155 | list mode accepts exactly Date, Datetime and Time; a Date is scaled by TO_MS, generated in milliseconds without a zone and cast back to Date |
| Temporal.ListBuilder.constructor | polars/polars-lazy/polars-plan/src/dsl/function_expr/temporal.rs:161-166 | a new list builder holds no rows |
| Temporal.ListBuilder.AppendSlice | polars/polars-lazy/polars-plan/src/dsl/function_expr/temporal.rs:174 | append_slice adds one row holding the slice |
| Temporal.ListBuilder.AppendNull | polars/polars-lazy/polars-plan/src/dsl/function_expr/temporal.rs:176 | append_null adds one null row |
| Temporal.RangeRowsFailureSticks | polars/polars-lazy/polars-plan/src/dsl/function_expr/temporal.rs:167-178 | once a prefix of the rows fails, the `?` in the loop makes the whole call fail with that error |
| Temporal.RangeRowsStep | polars/polars-lazy/polars-plan/src/dsl/function_expr/temporal.rs:188-197 | one more loop iteration extends the rows by that row's entry, or fails with its error |
| Temporal.BuildRangeList | polars/polars-lazy/polars-plan/src/dsl/function_expr/temporal.rs:159-203 | the builder loop over the zipped bounds returns exactly the list column of the row-by-row specification |
| Temporal.TemporalRangeDispatch | polars/polars-lazy/polars-plan/src/dsl/function_expr/temporal.rs:91-205 | the dispatch method returns exactly the range specification: the length check, the flat range for length 1, else the list loop |
| Temporal.RangeRowsAt | polars/polars-lazy/polars-plan/src/dsl/function_expr/temporal.rs:167-178 | the list call succeeds exactly when every row's range succeeds, and then row i holds row i's own entry |
| Temporal.RangeRowsFirstFailure | polars/polars-lazy/polars-plan/src/dsl/function_expr/temporal.rs:170 | a failing list call fails with the error of its first failing row, every earlier row succeeding |
| Temporal.RangeLengthCheck | polars/polars-lazy/polars-plan/src/dsl/function_expr/temporal.rs:101-104 | the call fails with the length error exactly when start and stop differ in length |
| Temporal.RangeShape | polars/polars-lazy/polars-plan/src/dsl/function_expr/temporal.rs:111-203 | the result is flat exactly when the bounds have length 1; otherwise it is typed List(dtype), has one row per bound, and a row is null exactly when one of its bounds is |
| Temporal.DateRangeInMilliseconds | polars/polars-lazy/polars-plan/src/dsl/function_expr/temporal.rs:126-150 | Date bounds are multiplied by TO_MS, generated in milliseconds (with the given zone when flat, with none in list mode) and cast back to days |
| Temporal.CombineZone | polars/polars-lazy/polars-plan/src/dsl/function_expr/temporal.rs:67-73 | combine's zone is none for a Date and the input's own for a Datetime; any other dtype is refused with "expected Date or Datetime" |
| Temporal.NanosIn | polars/polars-lazy/polars-plan/src/dsl/function_expr/temporal.rs:78 | a tick of unit tu is at least one nanosecond, and a second's ticks of tu times it make the 10^9 nanoseconds of a second |
| Temporal.TimeAsDuration | polars/polars-lazy/polars-plan/src/dsl/function_expr/temporal.rs:78 | the time column cast to a duration fails exactly when it is not a Time column |
| Temporal.AddColumns | polars/polars-lazy/polars-plan/src/dsl/function_expr/temporal.rs:79 | adding columns fails exactly on lengths that differ with neither being 1; the result has the longer length, and on equal lengths each row is the sum, null when either side is |
| Temporal.CombineRefuses | polars/polars-lazy/polars-plan/src/dsl/function_expr/temporal.rs:67-73 | combine is refused with "expected Date or Datetime, got ..." exactly when the first column is neither |
| Temporal.CombineDtype | polars/polars-lazy/polars-plan/src/dsl/function_expr/temporal.rs:75-88 | a successful combine is a Datetime in unit tu, without a zone for a Date input and with the input's zone for a Datetime input |
| Temporal.CombineKeepsDay | polars/polars-lazy/polars-plan/src/dsl/function_expr/temporal.rs:75-79 | without a zone, each result divided by a day's ticks is the input's day and the remainder is the time of day in unit tu |
| Temporal.OffsetFn | polars/polars-lazy/polars-plan/src/dsl/function_expr/temporal.rs:25-33 | offset_fn picks the add function of the column's own time unit |
| Temporal.OffsetFnOfUnit | polars/polars-lazy/polars-plan/src/dsl/function_expr/temporal.rs:25-33 | each add function is the one offset_fn picks for its unit |
| Temporal.TryApply | polars/polars-lazy/polars-plan/src/dsl/function_expr/temporal.rs:52 | try_apply succeeds exactly when the function succeeds on every non-null value, and then maps each non-null value and keeps each null |
| Temporal.DateOffsetRefuses | polars/polars-lazy/polars-plan/src/dsl/function_expr/temporal.rs:57-59 | date_offset is refused with "cannot use 'date_offset'" exactly on columns that are neither Date nor Datetime |
| Temporal.DateOffsetOfDatetime | polars/polars-lazy/polars-plan/src/dsl/function_expr/temporal.rs:22-55 | a Datetime(tu, tz) column keeps its dtype; it succeeds exactly when the unit's add function succeeds on every non-null value with the column's zone, and then holds those results with nulls kept |
| Temporal.DateOffsetOfDate | polars/polars-lazy/polars-plan/src/dsl/function_expr/temporal.rs:16-21 | a Date column stays Date; each day is offset as its midnight in milliseconds with add_ms and no zone, succeeding exactly when every such offset does, and is divided back into days |
| TemporalCases.OffsetByOnDates | py-polars/tests/unit/namespaces/test_datetime.py:506-529 | on a Date column, offset_by with a calendar offset succeeds exactly when every day's calendar offset does, and gives each day's offset with nulls kept |
| TemporalCases.DayAddOnDay | polars/polars-lazy/polars-plan/src/dsl/function_expr/temporal.rs:16-21 | a day offset applied to a day's midnight in milliseconds and divided back fails exactly when the day's offset fails, and otherwise gives it |
| TemporalCases.DayAddAt | py-polars/tests/unit/namespaces/test_datetime.py:533-537 | a day offset moves a value's day and keeps its time of day, failing exactly when the day's offset fails |
| TemporalCases.OffsetNewYearByMinus14 | py-polars/tests/unit/namespaces/test_datetime.py:519-529 | 1 January of any year offset by "-1y2mo" is 1 November two years earlier |
| TemporalCases.FirstsOf | py-polars/tests/unit/namespaces/test_datetime.py:509-511 | the yearly first-of-month column of n years has n rows |
| TemporalCases.OffsetByAllDefined | py-polars/tests/unit/namespaces/test_datetime.py:555-559 | a Date column without nulls whose every day offsets successfully gives the column of the offset days |
| TemporalCases.OffsetYearlyDates | py-polars/tests/unit/namespaces/test_datetime.py:506-529 | a Date column of 1 January of consecutive years offset by "-1y2mo" is 1 November of the years two earlier |
| TemporalCases.YearlyFirstsOffset | py-polars/tests/unit/namespaces/test_datetime.py:506-529 | row by row, each 1 January of the yearly column lands on the 1 November two years earlier |
| TemporalCases.NewYearInFirsts | py-polars/tests/unit/namespaces/test_datetime.py:506-529 | row i of the yearly columns is 1 January of year y0 + i and lands fourteen months back on row i of the November column |
| TemporalCases.MidnightsOf | py-polars/tests/unit/namespaces/test_datetime.py:509-511 | the yearly midnight column of n years has n rows |
| TemporalCases.OffsetYearlyDatetimes | py-polars/tests/unit/namespaces/test_datetime.py:506-529 | the microsecond datetimes at midnight of 1 January 2000 ... offset by "-1y2mo" are midnight of 1 November two years earlier, with the dtype kept |
| TemporalCases.OffsetMarch30Fails | py-polars/tests/unit/namespaces/test_datetime.py:540-544 | the datetime 2022-03-30 offset by "-1mo" fails |
| TemporalCases.CombineDatesWithTimes | py-polars/tests/unit/namespaces/test_datetime.py:390-441 | the dates 2022-10-10 and 2022-07-05 combined with 01:02:03.456 and 07:08:09.101 in microseconds are those days at those times, as a Datetime in us without a zone |
| Calendar.DaysInMonth | py-polars/tests/unit/namespaces/test_datetime.py:207-217 | a month has 28 to 31 days |
| Calendar.YearLengthRule | py-polars/tests/unit/namespaces/test_datetime.py:478-498 | a March-based year of an era is long exactly when the year after it is a Gregorian leap year within the 400-year cycle |
| Calendar.LeapRule | py-polars/tests/unit/namespaces/test_datetime.py:478-498 | a March-based year is 366 days long exactly when the civil year holding its February is a leap year |
| Calendar.CivilFromDays | py-polars/tests/unit/namespaces/test_datetime.py:26-61 | the civil date of a day count is a valid date that counts back to that day |
| Calendar.DaysFromCivilRoundTrip | py-polars/tests/unit/namespaces/test_datetime.py:26-61 | every valid date is the date of its own day count |
| Calendar.CivilFromEraDay | py-polars/tests/unit/namespaces/test_datetime.py:26-61 | a day count is split into a 400-year era and a day of era exactly as its date is |
| Calendar.YearLength | py-polars/tests/unit/namespaces/test_datetime.py:478-498 | a civil year has 366 days exactly when it is a leap year, 365 otherwise |
| Calendar.DaysBeforeMonth | py-polars/tests/unit/namespaces/test_datetime.py:53 | the days of a year before month m are the common-year table plus the leap day after February |
| Calendar.NextMonthStart | py-polars/tests/unit/namespaces/test_datetime.py:174-217 | the first of a month follows the first of the previous one by that month's length |
| Calendar.NextYearStart | py-polars/tests/unit/namespaces/test_datetime.py:174-217 | 1 January follows 1 December by 31 days |
| Calendar.FirstOfNextMonth | py-polars/tests/unit/namespaces/test_datetime.py:174-217 | the first of the following month is a valid date with day 1 |
| Calendar.FollowingMonth | py-polars/tests/unit/namespaces/test_datetime.py:174-217 | the next month starts right after the last day of month m |
| Calendar.CivilAt | py-polars/tests/unit/namespaces/test_datetime.py:26-61 | day z has date c exactly when c counts to z |
| Calendar.MonthStartInYear | py-polars/tests/unit/namespaces/test_datetime.py:53 | the first of month m lies DaysBeforeMonth(y, m) days after 1 January |
| Calendar.DayOffset | py-polars/tests/unit/namespaces/test_datetime.py:161-171 | the days of one month are consecutive day counts |
| Calendar.MonthFitsYear | py-polars/tests/unit/namespaces/test_datetime.py:53 | a month ends within its year |
| Calendar.OrdinalOf | py-polars/tests/unit/namespaces/test_datetime.py:53 | a date's position in its year, from 1 for 1 January, is the days before its month plus its day, and lies within the year |
| Calendar.YearSpan | py-polars/tests/unit/namespaces/test_datetime.py:478-498 | a civil year spans YearLength(y) days from its 1 January to the next |
| CalendarFields.OrdinalDay | py-polars/tests/unit/namespaces/test_datetime.py:53 | the ordinal day of day z is its distance from 1 January of its year, plus one |
| CalendarFields.DayOfJanuary | py-polars/tests/unit/namespaces/test_datetime.py:53 | a January day at ordinal position k is y-01-k |
| CalendarFields.Weekday | py-polars/tests/unit/namespaces/test_datetime.py:567-576 | weekday numbers run from 1 (Monday) to 7 (Sunday), with 1970-01-01 a Thursday |
| CalendarFields.WeekdayNext | py-polars/tests/unit/namespaces/test_datetime.py:567-576 | the day after day z has the next weekday, and Monday follows Sunday |
| CalendarFields.WeekThursday | py-polars/tests/unit/namespaces/test_datetime.py:51 | the Thursday of day z's Monday-to-Sunday week lies within three days of z |
| CalendarFields.IsoWeek | py-polars/tests/unit/namespaces/test_datetime.py:51 | ISO 8601 week numbers run from 1 to 53 |
| CalendarFields.IsoWeekChangesOnMonday | py-polars/tests/unit/namespaces/test_datetime.py:51 | the ISO week and ISO year only change on a Monday |
| CalendarFields.FourthJanuaryInWeekOne | py-polars/tests/unit/namespaces/test_datetime.py:51 | 4 January is in week 1 of its own ISO year |
| CalendarFields.Quarter | py-polars/tests/unit/namespaces/test_datetime.py:500-503 | quarter q holds months 3(q - 1) + 1 to 3q |
| CalendarFields.MonthStart | py-polars/tests/unit/namespaces/test_datetime.py:161-171 | month_start of a Date is the first of its month, z - day + 1 |
| CalendarFields.FirstOfMonth | py-polars/tests/unit/namespaces/test_datetime.py:161-171 | the first day of a valid date's month is day - 1 days before it |
| CalendarFields.MonthEnd | py-polars/tests/unit/namespaces/test_datetime.py:207-217 | month_end of a Date is the last day of its month |
| CalendarFields.LastOfMonth | py-polars/tests/unit/namespaces/test_datetime.py:207-217 | the last day of a valid date's month is DaysInMonth - day days after it |
| CalendarFields.AfterLastDay | py-polars/tests/unit/namespaces/test_datetime.py:207-217 | the day after a month's last day is the first of the next month |
| CalendarFields.LastThenNext | py-polars/tests/unit/namespaces/test_datetime.py:207-217 | the day after the last day of a month counts one past its last day to the first of the next month |
| CalendarFields.MonthEndThenFirst | py-polars/tests/unit/namespaces/test_datetime.py:207-217 | the day after month_end starts a month |
| CalendarFields.MonthBoundsIdempotent | py-polars/tests/unit/namespaces/test_datetime.py:161-217 | month_start and month_end are idempotent, bracket every day of the month, and each absorbs the other |
| Offsets.ShiftMonth | py-polars/tests/unit/namespaces/test_datetime.py:547-559 | n months after (y, m) has the month index n larger, with a month in 1..12 |
| Offsets.MonthIndexInjective | py-polars/tests/unit/namespaces/test_datetime.py:547-559 | a year and month are determined by their month index |
| Offsets.AddMonths | py-polars/tests/unit/namespaces/test_datetime.py:540-559 | a month offset keeps the day when the target month has it; otherwise it clamps to the last day when saturating and fails with "cannot advance" when not |
| Offsets.AddMonthsDefined | py-polars/tests/unit/namespaces/test_datetime.py:547-559 | a saturating offset, or one from a day every month has, never fails |
| Offsets.AddMonthsCompose | py-polars/tests/unit/namespaces/test_datetime.py:506-529 | offsets from a day every month has compose, and an offset is undone by its negation |
| Offsets.OffsetDateFails | py-polars/tests/unit/namespaces/test_datetime.py:540-544 | offsetting a day count fails exactly when the month offset of its date fails, with that error |
| Offsets.OffsetDateLands | py-polars/tests/unit/namespaces/test_datetime.py:506-529 | the offset day count minus the extra days is the date the month offset gives |
| Units.TruncDiv | py-polars/tests/unit/namespaces/test_datetime.py:264-282 | integer division truncates toward zero, as Rust does |
| Units.FloorDiv | py-polars/tests/unit/namespaces/test_datetime.py:379-383 | floor division of the tests leaves a remainder in [0, d) |
| Units.CastTimeUnit | py-polars/tests/unit/namespaces/test_datetime.py:355-370 | casting to a finer unit multiplies exactly; casting an exact multiple to a coarser unit divides exactly |
| Units.CastRoundTrip | py-polars/tests/unit/namespaces/test_datetime.py:355-370 | a value cast to a finer unit and back is unchanged |
| Units.EpochSeconds | py-polars/tests/unit/namespaces/test_datetime.py:379 | epoch("s") is the milliseconds floor-divided by 1000 |
| Units.EpochDays | py-polars/tests/unit/namespaces/test_datetime.py:380-383 | epoch("d") is the milliseconds floor-divided by a day's milliseconds |
| Units.EpochDaysOfDate | py-polars/tests/unit/namespaces/test_datetime.py:380-383 | a datetime on day z, at any time of that day, has epoch day z |
| Units.TicksPer | py-polars/tests/unit/namespaces/test_datetime.py:264-282 | every component a unit can express takes at least one tick |
| Units.WholeDays | py-polars/tests/unit/namespaces/test_datetime.py:264-282 | a duration of k whole days reads as k days, 24k hours, 1440k minutes ... 86400·10^9·k nanoseconds, in every unit |
| Units.Truncate | py-polars/tests/unit/namespaces/test_datetime.py:294-317 | truncate gives the grid point at or before t |
| Units.TruncateUnique | py-polars/tests/unit/namespaces/test_datetime.py:294-317 | the truncation is the unique multiple of every in (t - every, t] |
| Units.Round | py-polars/tests/unit/namespaces/test_datetime.py:329-352 | round gives the nearest grid point, halves going up |
| Units.HalfStepGrid | py-polars/tests/unit/namespaces/test_datetime.py:294-352 | on a half-step grid, the k-th point truncates to k / 2 steps and rounds to (k + 1) / 2 steps |
| Units.MonthStartAt | py-polars/tests/unit/namespaces/test_datetime.py:131-158 | month_start of a Datetime is the first of its month at the same time of day |
| Units.MonthEndAt | py-polars/tests/unit/namespaces/test_datetime.py:174-204 | month_end of a Datetime is the last day of its month at the same time of day |
| DatetimeCases.DateOf | py-polars/tests/unit/namespaces/test_datetime.py:26-61 | with a date known for a day count, its ordinal day is read off it |
| DatetimeCases.FixtureDay10000 | py-polars/tests/unit/namespaces/test_datetime.py:28-61 | day 10000 is 1997-05-19, ordinal day 139, ISO week 21 |
| DatetimeCases.FixtureDay20000 | py-polars/tests/unit/namespaces/test_datetime.py:28-61 | day 20000 is 2024-10-04, ordinal day 278, ISO week 40 |
| DatetimeCases.FixtureDay30000 | py-polars/tests/unit/namespaces/test_datetime.py:28-61 | day 30000 is 2052-02-20, ordinal day 51, ISO week 8 |
| DatetimeCases.FridayWeekday | py-polars/tests/unit/namespaces/test_datetime.py:572-576 | 2023-02-17 has weekday 5 |
| DatetimeCases.LeapYears1990To2004 | py-polars/tests/unit/namespaces/test_datetime.py:478-498 | among 1990 ... 2004 the leap years are 1992, 1996, 2000 and 2004 |
| DatetimeCases.QuartersOfYear | py-polars/tests/unit/namespaces/test_datetime.py:500-503 | the months of a year fall in quarters 1, 1, 1, 2, 2, 2, 3, 3, 3, 4, 4, 4 |
| DatetimeCases.MarchBoundaries | py-polars/tests/unit/namespaces/test_datetime.py:161-217 | 2022-03-15 and 2022-03-31 start on 2022-03-01 and end on 2022-03-31 |
| DatetimeCases.SaturatingOffsets | py-polars/tests/unit/namespaces/test_datetime.py:547-559 | 2018-01-31 +1mo is 2018-02-28, 2024-02-29 +1y and 2024-01-30 +1y1mo are 2025-02-28 |
| DatetimeCases.CannotAdvanceMarch30 | py-polars/tests/unit/namespaces/test_datetime.py:540-544 | 2022-03-30 -1mo, not saturating, fails with "cannot advance 2022-03-30 by -1 month" |
| DatetimeCases.YearlyOffsets | py-polars/tests/unit/namespaces/test_datetime.py:506-529 | from 1 January, "1y" gives 1 January of the next year and "-1y2mo" 1 November two years back |
| DatetimeCases.YearlyMinusOneYearTwoMonths | py-polars/tests/unit/namespaces/test_datetime.py:524-529 | the dates 2000-01-01 ... 2020-01-01 offset by "-1y2mo" are 1998-11-01 ... 2018-11-01 |
| DatetimeCases.EpochOf2020 | py-polars/tests/unit/namespaces/test_datetime.py:234-252 | 2020-01-01 is epoch day 18262 and second 1577836800; 2020-02-02 03:20:10 is day 18294 and second 1580613610 |
| DatetimeCases.CastTimeUnits2001 | py-polars/tests/unit/namespaces/test_datetime.py:355-383 | 2001-01-01 and 2001-02-01 10:08:09 are 978307200000 and 981022089000 ms, scaled by 10^3 and 10^6 for us and ns, with their epoch seconds and days |
| DatetimeCases.OneDayDuration | py-polars/tests/unit/namespaces/test_datetime.py:264-282 | the duration 2022-01-02 - 2022-01-01 in microseconds reads as 1 day, 24 h, 1440 min, 86400 s and 86400·10^3, 10^6, 10^9 ms, us and ns |
| DatetimeCases.HourlyGrid | py-polars/tests/unit/namespaces/test_datetime.py:294-352 | the half-hourly points of 2022-01-01 truncate to start + (k / 2) h and round to start + ((k + 1) / 2) h, the last one being 2022-01-02 |
| DatetimeCases.HalfHoursOfDay | py-polars/tests/unit/namespaces/test_datetime.py:294-352 | the same half-hourly grid over any day |

## Left out

- Floating-point windows are left out because the model's values are integers: std, var and quantile (test_window.py 34-81, 156-168), and the date mean and median of the datetime tests. A mean is an exact rational.
- Window tests on list-typed shift (238-264) and on nested when/then aggregation (283-307) are left out. They exercise expression typing, not grouping.
- The implode-contention and cached-windows tests (343-388) are left out because their point is concurrency and the window cache.
- WindowCases.RankCountCase: `count("date")` is taken as the number of rows of the group, nulls included, as `CountRows` states. No text of this model fixes how `count` treats nulls; the test's column has none, so counting only the non-null values (`CountValid`) gives the same [2, 2, 1].
- A panic of the dispatch code is modelled as an error result: the `unwrap()` of a null length-1 range bound (temporal.rs 112-113) is `Err(NullBound)`, and the `unimplemented!()` arms for other dtypes (temporal.rs 140, 154, 199) are `Err(UnsupportedRange)`. The model does not distinguish a panic from a returned error.
- Time zones and DST are left out because the tz database is external. `replace_time_zone`, `Tz` and `parse_offset` are parameters, and the Kathmandu and US/Central cases are not derived.
- strptime/strftime and `to_string` are left out because their implementation is not shown. Fractional-second parsing of the string fixture is also left out.
- `date_range_impl`, `time_range_impl` and `Duration::add_ns/us/ms` are function parameters, with only the properties the dispatch relies on.
- Temporal.DaysOf: a Datetime's day is its ticks floor-divided by a day's ticks. This stands for the cast `date.cast(&DataType::Date)` of temporal.rs line 75, a foreign call whose rounding of instants before 1970 is not shown. Temporal.MsToDays and the Date branch of Temporal.DateOffset make the same choice for the Date casts of lines 20, 135 and 171.
- Temporal.TimeAsDuration: only a Time column is accepted. The cast `time.cast(&DataType::Duration(tu))` of temporal.rs line 78 is foreign and would also accept Duration and integer columns; the model refuses them with `CannotCastToDuration`.
- `month_start`/`month_end` refusing a Time column (test_datetime.py 220-231) and the dtype of `year` on an empty frame (562-564) are not modelled.
- The epoch "ms" and "us" cases with a fractional input are not derived; only whole-millisecond instants are.
- The calendar `offset_by` of polars-time is not part of this model. Its behaviour, as the tests pin it down, is written in `Offsets`.
- The `multiprocessing.dummy` thread pool, `lru_cache` and `singledispatch` of `_construction.py` are left out as runtime machinery.
- The numpy, pandas, pyarrow, dataclass and pydantic conversions, and every `PySeries`/`PyDataFrame` constructor, are foreign calls. `Fallbacks` takes the constructor as the function `attempt`, `Chunks` takes dtype inference and frame width as the functions `infer` and `width`, and `Frames` describes the series it would create by a `ColumnSource`.
- The `py_type_to_dtype` rewrite loop of `_unpack_schema` (639-641) is left out because `polars.datatypes` is not part of this model. Dtypes pass through as given.
- `arrlen` and `_is_generator` come from `polars.utils.various`, which is not part of this model. `arrlen` is taken as the length of a sized value other than a string, and None otherwise.
- Fallbacks.ConstructWithFallbacks: a fallback that picks a constructor already tried would make the source retry forever. The model ends such a run with `Cycles`.
- Schema.UnpackSchema: a `schema` or `lookup_names` argument of None is taken as empty, as the source's `or []` does, and Frames.HandleColumnsArg takes `columns=None` as the empty list.
- Dicts are assumed `WellFormed` (distinct keys) where the source receives them. This is a property of every Python dict, not a check the source makes.
- Frames.BroadcastHeights: the height of a nested dict value that becomes a struct column is not stated, because `pl.DataFrame(val).to_struct(name)` is a foreign call.
- Frames.ExpandDictScalars: the scalar branch (`extend_constant`) and the replicate branch (`[val] * array_len`) both appear as `Repeated`. They give the same values.
- In `_sequence_of_sequence_to_pydf` only the orientation decision is modelled. The row-length ShapeError (900-901), `read_rows`/`read_dicts` and `_post_apply_columns` are not part of the model.
- Chunks.IterableToFrame: the replacement of an empty `original_schema` by the first frame's schema is not modelled. The `orient == "col"` branch of `iterable_to_pydf` is left out.
- Only the schema check and re-keying of `dict_to_pydf` (704-709) are modelled. Its remainder calls `_expand_dict_scalars`, which is modelled on its own, and then foreign constructors.
- `nan_to_null` is left out, because floats carry only their literal text.
- The texts of error messages are abstracted to the constructors of `ConstructionError`, `TemporalError` and `OffsetError`, except the fallback messages, which drive the control flow.
