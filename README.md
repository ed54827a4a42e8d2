# Data-frame normalisation, modelled in Dafny

Grafana's data layer accepts query results in several legacy shapes and turns
them into one columnar representation, the *data frame*: an ordered list of
fields, each a named, optionally typed column of values, all of one length.
This project models that normalisation layer as exercised by
`processDataFrame.test.ts`:

- `toDataFrame`: converts a time series (`target` + `datapoints` of
  `[value, time]` pairs), a bag of JSON documents (`type: "docs"`), a table
  (`columns` + `rows`), or a columnar frame DTO (`fields`, including the
  6.3-style `fields` + `rows` form) into a frame. A value that is already a
  frame comes back unchanged.
- `toLegacyResponseData`: projects a frame back to a document bag, a time
  series or a table.
- `isDataFrame` and `isTableData`: tell the shapes apart.
- `guessFieldTypeFromValue`: the type one value suggests. Strings are
  trimmed, then read as a numeral, then as `true`/`false` in any case.
- `guessFieldTypes`: gives every untyped column a type from its name ("time"
  or "date" in any case), or else from its first present value. A column with
  no present value becomes `other`.
- `sortDataFrame`: a stable sort of the rows of every column by one key
  column, ascending or descending.
- `MutableDataFrame`: the stateful frame a DTO is loaded into. Fields are
  added one at a time and 6.3-style rows are appended one at a time.

Modules, one per file:

- `Values`: values, fields, frames and the frame invariant (every column
  holds `length` values).
- `Text`: whitespace trimming, ASCII case folding, the numeral grammar with
  its parser and renderer, and code-point string order.
- `Inference`: type guessing for one value, one column and one frame.
- `Convert`: the payload union, classification, `toDataFrame` and
  `toLegacyResponseData`.
- `RoundTrip`: the round-trip, idempotence and DTO-loading theorems.
- `MutableFrames`: the `MutableDataFrame` class and the DTO loading method
  that drives it.
- `Sorting`: the row order as a function, the insertion sort over an index
  array that computes it, and `sortDataFrame` as a method.
- `Scenarios`: a lemma for each test case of `processDataFrame.test.ts`,
  derived from the general theorems. `TimeSeriesExample` also covers the
  series round trip of lines 137-149, and `EmptyTableExample` also covers the
  empty table of lines 179-187.

Numbers are modelled as integers. A date or time object is an opaque
`TimeVal`. `null` and `undefined` are both `Null`.

## Model

Every row cites the test block that exercises the operation its member models.
Three groups of rows go beyond what those tests assert:

- padding of DTO columns of unequal length (92-99);
- stability and the order of indeterminate keys in sorting (242-262);
- trimming of strings padded with white space (81-89).

| member | source | states |
|---|---|---|
| Text.TrimPadded | packages/grafana-data/src/dataframe/processDataFrame.test.ts:81-89 | text with no white space at its ends, padded on either side with any JavaScript white space (the characters `trim` removes), trims back to exactly itself |
| Text.SpaceCharacters | packages/grafana-data/src/dataframe/processDataFrame.test.ts:81-89 | white space is exactly the characters JavaScript's `trim` removes: tab, vertical tab, form feed, space, no-break space, byte-order mark, the space separators and the four line terminators |
| Text.TrimIdempotent | packages/grafana-data/src/dataframe/processDataFrame.test.ts:81-89 | a trimmed string has no whitespace at either end, and trimming it again changes nothing |
| Text.TrimStartDropsSpace | packages/grafana-data/src/dataframe/processDataFrame.test.ts:81-89 | what trimming removes at the start is whitespace only |
| Text.TrimEndDropsSpace | packages/grafana-data/src/dataframe/processDataFrame.test.ts:81-89 | what trimming removes at the end is whitespace only |
| Text.ParseRender | packages/grafana-data/src/dataframe/processDataFrame.test.ts:82-84 | every well-formed numeral (sign, digits, optional point and fraction, optional exponent), once written out, is recognised with exactly the same parts |
| Text.RenderParse | packages/grafana-data/src/dataframe/processDataFrame.test.ts:82-84 | every recognised text is a well-formed numeral that writes back to the same text |
| Text.NumeralCharacterised | packages/grafana-data/src/dataframe/processDataFrame.test.ts:82-84 | a text is recognised as a numeral if and only if it is the rendering of some well-formed numeral |
| Text.StrLessIrreflexive | packages/grafana-data/src/dataframe/processDataFrame.test.ts:257-262 | no string sorts before itself in code-point order |
| Text.StrLessTransitive | packages/grafana-data/src/dataframe/processDataFrame.test.ts:257-262 | code-point order on strings is transitive |
| Text.StrLessTotal | packages/grafana-data/src/dataframe/processDataFrame.test.ts:257-262 | of two different strings, one sorts before the other |
| Inference.GuessFieldTypeFromValue | packages/grafana-data/src/dataframe/processDataFrame.test.ts:71-89 | no type for a missing value only; `time` exactly for time values; `other` exactly for lists and objects; numbers give `number` and booleans `boolean`; `string` only for strings |
| Inference.NumeralStringIsNumber | packages/grafana-data/src/dataframe/processDataFrame.test.ts:82-84 | any well-formed numeral, written out and padded with whitespace, is guessed `number` |
| Inference.NumeralIsNumber | packages/grafana-data/src/dataframe/processDataFrame.test.ts:82-84 | any well-formed numeral written out is guessed `number` |
| Inference.StringNumberIff | packages/grafana-data/src/dataframe/processDataFrame.test.ts:81-89 | a string is guessed `number` if and only if its trimmed text renders some well-formed numeral |
| Inference.BooleanWordIff | packages/grafana-data/src/dataframe/processDataFrame.test.ts:85-87 | a string is guessed `boolean` if and only if its trimmed text is `true` or `false` in some mix of cases, since no such word is a numeral |
| Inference.FirstNonNull | packages/grafana-data/src/dataframe/processDataFrame.test.ts:91-105 | the index found holds a present value and every earlier one is missing; no index only when every value is missing |
| Inference.GuessFieldTypeForField | packages/grafana-data/src/dataframe/processDataFrame.test.ts:91-105 | a time-like name gives `time`; otherwise no type exactly when every value is missing, and else the type of the first present value |
| Inference.InferFieldSpec | packages/grafana-data/src/dataframe/processDataFrame.test.ts:91-105 | inference changes only the type: a declared type stays, a time-like name gives `time`, an all-missing column gives `other`, and otherwise the first present value decides |
| Inference.GuessFieldTypesSpec | packages/grafana-data/src/dataframe/processDataFrame.test.ts:100-104 | `guessFieldTypes` keeps the frame's metadata, length and field count, and in every field keeps name, config and values. A declared type stays. An undeclared field becomes `time` when its name says time, otherwise `other` when every value is missing, otherwise the type of its first present value |
| Inference.GuessFieldTypesStable | packages/grafana-data/src/dataframe/processDataFrame.test.ts:100-104 | guessing types keeps the frame invariant, types every field, and is idempotent |
| Convert.SeriesFieldName | packages/grafana-data/src/dataframe/processDataFrame.test.ts:32-39 | the value column is named after a non-empty target, and "Value" when the target is missing or empty; the name is never empty |
| Convert.FromTimeSeries | packages/grafana-data/src/dataframe/processDataFrame.test.ts:14-49 | a time series gives two columns of its length: a `number` column of the first pair entries named after the target, and a `time` column of the second entries |
| Convert.FromDocuments | packages/grafana-data/src/dataframe/processDataFrame.test.ts:107-133 | a document bag gives one `other` column holding each document whole, with the bag's other keys in its config and the frame marked as made from documents |
| Convert.TableColumn | packages/grafana-data/src/dataframe/processDataFrame.test.ts:164-177 | column j of a table holds `rows[i][j]` at slot i, one slot per row |
| Convert.FromTable | packages/grafana-data/src/dataframe/processDataFrame.test.ts:164-187 | a table gives one untyped field per column, named by its `text`, with its other keys (`unit`) as config, holding that column of the rows; the frame has one row per table row, no name, and the table's `refId` and `meta` |
| Convert.Pad | packages/grafana-data/src/dataframe/processDataFrame.test.ts:92-99 | padding keeps the column as a prefix and fills the rest up to the length with missing values |
| Convert.AddField | packages/grafana-data/src/dataframe/processDataFrame.test.ts:92-99 | adding a DTO field makes the length the larger of the old length and the new column's, keeps name, `refId`, `meta` and the invariant, pads every existing column to the new length and puts the new column, padded, last |
| Convert.AddFields | packages/grafana-data/src/dataframe/processDataFrame.test.ts:92-99 | loading DTO fields keeps the invariant, and the length is the longest column's, or the old length |
| Convert.FromDTOColumns | packages/grafana-data/src/dataframe/processDataFrame.test.ts:189-201 | a DTO's columns give a well-formed frame with one field per DTO field |
| Convert.AppendRow | packages/grafana-data/src/dataframe/processDataFrame.test.ts:62-69 | appending a row adds one slot to every column and keeps the invariant |
| Convert.AppendRows | packages/grafana-data/src/dataframe/processDataFrame.test.ts:62-69 | appending rows grows the length by the number of rows and keeps the invariant |
| Convert.FromDTO | packages/grafana-data/src/dataframe/processDataFrame.test.ts:62-69 | a DTO, with or without 6.3-style rows, gives a well-formed frame |
| Convert.ToDataFrame | packages/grafana-data/src/dataframe/processDataFrame.test.ts:51-60 | a frame comes back unchanged; any other payload gives a well-formed frame; an unrecognised payload gives the empty frame |
| Convert.TableRow | packages/grafana-data/src/dataframe/processDataFrame.test.ts:202-207 | a table row has one cell per field |
| Convert.ClassifyDispatch | packages/grafana-data/src/dataframe/processDataFrame.test.ts:143-175 | `isDataFrame` holds exactly for a frame or a frame DTO, and `isTableData` exactly for a table. The shape decides the conversion: a frame is kept; a DTO is loaded; a document bag gives one `other` column of the documents, marked as JSON; a time series gives a `number` and a `time` column; a table gives one column per descriptor with its `refId` and `meta`; anything else gives the empty frame |
| Scenarios.TimeTableReadsAsSeries | packages/grafana-data/src/dataframe/processDataFrame.test.ts:164-177 | a table of two columns whose second is named "Time" projects back to a time series, not to table data |
| Convert.ToLegacy | packages/grafana-data/src/dataframe/processDataFrame.test.ts:143-149 | the projection is never a frame, and is a table exactly when the frame is not a document frame and does not have exactly two fields whose second is a time column (by declared type, by name or by its first value), whatever payload the frame came from |
| RoundTrip.TimeSeriesRoundTrip | packages/grafana-data/src/dataframe/processDataFrame.test.ts:137-149 | a time series projects back to a time series with the same target ("Value" for a missing or empty one), the same other keys and as many points; when every point is a pair, the same points |
| RoundTrip.DocumentsRoundTrip | packages/grafana-data/src/dataframe/processDataFrame.test.ts:210-239 | a document bag converts to one field named after its target holding the documents, and projects back to a bag with the same documents, `type`, other keys and target, except that a missing or empty target comes back as "Value" |
| RoundTrip.TableRoundTrip | packages/grafana-data/src/dataframe/processDataFrame.test.ts:164-177 | a rectangular table whose `meta` does not mark JSON documents and that does not read as a time series projects back to the same columns and rows, tagged `table`, with its `refId` and `meta` |
| RoundTrip.FrameTableRoundTrip | packages/grafana-data/src/dataframe/processDataFrame.test.ts:189-208 | a frame projected to a table converts back to the same frame, less its name and declared types |
| RoundTrip.TableProjection | packages/grafana-data/src/dataframe/processDataFrame.test.ts:189-208 | the table projection copies `refId` and `meta`, has one column per field named in field order, and row i holds each field's value i |
| RoundTrip.ToDataFrameIdempotent | packages/grafana-data/src/dataframe/processDataFrame.test.ts:51-60 | converting a converted payload again changes nothing; the result is a frame and its projection is not |
| RoundTrip.ExtendsTransitive | packages/grafana-data/src/dataframe/processDataFrame.test.ts:92-99 | padding a padded column is padding the original |
| RoundTrip.AddFieldExtends | packages/grafana-data/src/dataframe/processDataFrame.test.ts:92-99 | adding a field only pads the existing columns, and the new column is the declared one padded |
| RoundTrip.AddFieldsSpec | packages/grafana-data/src/dataframe/processDataFrame.test.ts:92-99 | after loading DTO fields, every old and every new column is its declared self padded with missing values |
| RoundTrip.DTOColumnsSpec | packages/grafana-data/src/dataframe/processDataFrame.test.ts:189-201 | a DTO loads into a well-formed frame with its name, `refId` and `meta`, whose length is its longest column's, and whose fields are the declared ones padded |
| RoundTrip.UniformDTOColumns | packages/grafana-data/src/dataframe/processDataFrame.test.ts:189-201 | when every DTO column has the same length, each field is exactly the declared one |
| RoundTrip.NamesAndMetaKept | packages/grafana-data/src/dataframe/processDataFrame.test.ts:203-204 | loading fields keeps the frame's name, `refId` and `meta` |
| RoundTrip.AppendRowsSpec | packages/grafana-data/src/dataframe/processDataFrame.test.ts:62-69 | appending rows adds column j of the rows to field j and changes nothing else |
| RoundTrip.RowsMigration | packages/grafana-data/src/dataframe/processDataFrame.test.ts:62-69 | a 6.3-style DTO gives a frame of one row per row, whose field j is named as declared and holds column j of the rows |
| MutableFrames.MutableFrame.constructor | packages/grafana-data/src/dataframe/processDataFrame.test.ts:92-99 | `new MutableDataFrame(dto)` holds a well-formed frame equal to the DTO's columns loaded in order |
| MutableFrames.MutableFrame.AddField | packages/grafana-data/src/dataframe/processDataFrame.test.ts:92-99 | adding a field in place keeps the invariant and leaves the frame that the value-level `AddField` gives |
| MutableFrames.MutableFrame.AppendRow | packages/grafana-data/src/dataframe/processDataFrame.test.ts:62-69 | appending a row in place keeps the invariant and leaves the frame that the value-level `AppendRow` gives |
| MutableFrames.DataFrameFromDTO | packages/grafana-data/src/dataframe/processDataFrame.test.ts:62-69 | loading a DTO into a mutable frame and appending its rows one by one gives exactly `toDataFrame` of the DTO |
| Sorting.OrderForSpec | packages/grafana-data/src/dataframe/processDataFrame.test.ts:242-262 | a key column is compared as text exactly when it is declared `string`, or has no declared type and its first present value is a string; otherwise as numbers |
| Sorting.BeforeIrreflexive | packages/grafana-data/src/dataframe/processDataFrame.test.ts:242-262 | no key goes before itself |
| Sorting.BeforeTransitive | packages/grafana-data/src/dataframe/processDataFrame.test.ts:242-262 | the key order is transitive in both directions |
| Sorting.BeforeSplits | packages/grafana-data/src/dataframe/processDataFrame.test.ts:242-262 | if a goes before c, then any b goes after a or before c, so equivalence of keys is transitive |
| Sorting.InsertSorted | packages/grafana-data/src/dataframe/processDataFrame.test.ts:242-262 | inserting a row into a sorted order keeps it sorted |
| Sorting.InsertStable | packages/grafana-data/src/dataframe/processDataFrame.test.ts:242-262 | inserting a later row into a stable order keeps it stable |
| Sorting.InsertMultiset | packages/grafana-data/src/dataframe/processDataFrame.test.ts:242-262 | insertion adds exactly the new row |
| Sorting.SortOrderBound | packages/grafana-data/src/dataframe/processDataFrame.test.ts:242-262 | the sort order of n rows names rows below n only |
| Sorting.SortOrderPermutes | packages/grafana-data/src/dataframe/processDataFrame.test.ts:242-262 | the sort order of n rows is a permutation of 0..n-1 |
| Sorting.SortOrderSorted | packages/grafana-data/src/dataframe/processDataFrame.test.ts:242-262 | the sort order is sorted by key and stable on equivalent keys |
| Sorting.SortOrderSpec | packages/grafana-data/src/dataframe/processDataFrame.test.ts:242-262 | the sort order is a stable, sorted permutation of the rows |
| Sorting.PermutedMultiset | packages/grafana-data/src/dataframe/processDataFrame.test.ts:242-262 | reading a column through the sort order keeps the multiset of its values |
| Sorting.SortFrameKeepsRows | packages/grafana-data/src/dataframe/processDataFrame.test.ts:250-262 | sorting fails exactly on an out-of-range key index; otherwise it keeps the length, metadata and field descriptors, and applies one permutation to every column |
| Sorting.SortFrameOrdersKey | packages/grafana-data/src/dataframe/processDataFrame.test.ts:250-262 | after sorting, the key column is in order and rows with equivalent keys keep their original order |
| Sorting.InsertLast | packages/grafana-data/src/dataframe/processDataFrame.test.ts:242-262 | one pass of insertion sort over the index array places row i where the functional insertion does, touching nothing beyond slot i |
| Sorting.SortIndex | packages/grafana-data/src/dataframe/processDataFrame.test.ts:242-262 | the index array holds the sort order: a sorted, stable permutation of the row indices |
| Sorting.Reorder | packages/grafana-data/src/dataframe/processDataFrame.test.ts:253-254 | a column is rebuilt by reading it through the index array |
| Sorting.SortDataFrame | packages/grafana-data/src/dataframe/processDataFrame.test.ts:250-262 | `sortDataFrame` computes exactly the functional sort of the frame, error case included |
| Scenarios.GuessValueExamples | packages/grafana-data/src/dataframe/processDataFrame.test.ts:71-79 | 1 is a number, true and false are booleans, a date is a time |
| Scenarios.GuessNumeralExamples | packages/grafana-data/src/dataframe/processDataFrame.test.ts:82-84 | "1", "1.234" and "3.125e7" are guessed `number` |
| Scenarios.GuessWordExamples | packages/grafana-data/src/dataframe/processDataFrame.test.ts:85-87 | "True", "FALSE" and "true" are guessed `boolean` |
| Scenarios.GuessPlainExample | packages/grafana-data/src/dataframe/processDataFrame.test.ts:88 | "xxxx" is guessed `string` |
| Scenarios.ColumnTypesExample | packages/grafana-data/src/dataframe/processDataFrame.test.ts:91-105 | the four example columns are typed `number`, `string`, `other` and `time` (by name) |
| Scenarios.TimeSeriesExample | packages/grafana-data/src/dataframe/processDataFrame.test.ts:14-49 | the example series gives columns [100, 200] and [1, 2] named "Field Name"; an empty target gives "Value"; a target "time" still gives a `number` column; the frame projects back to the same target |
| Scenarios.UntargetedSeriesExample | packages/grafana-data/src/dataframe/processDataFrame.test.ts:51-60 | a series without a target gives length 2 and a "Value" column, and converting that frame again returns it unchanged |
| Scenarios.DocumentsExample | packages/grafana-data/src/dataframe/processDataFrame.test.ts:210-239 | the document bag gives one field "docs" holding the document, and reads back with `type`, `target` and `filterable` |
| Scenarios.EmptyTableExample | packages/grafana-data/src/dataframe/processDataFrame.test.ts:151-162 | an empty table gives no fields and projects back to an empty `table` |
| Scenarios.TableExample | packages/grafana-data/src/dataframe/processDataFrame.test.ts:164-177 | the example table keeps unit "ms" on field 0 and projects back to itself |
| Scenarios.DTOTableExample | packages/grafana-data/src/dataframe/processDataFrame.test.ts:189-208 | the typed DTO projects to a table with `refId` "Z", the same `meta`, and columns T, N, S |
| Scenarios.RowsExample | packages/grafana-data/src/dataframe/processDataFrame.test.ts:62-69 | three 6.3-style rows give length 3 |
| Scenarios.ReversedOrder | packages/grafana-data/src/dataframe/processDataFrame.test.ts:242-262 | descending keys that rise with the row number give the order 2, 1, 0 |
| Scenarios.DateKeyKeepsOrder | packages/grafana-data/src/dataframe/processDataFrame.test.ts:242-262 | sorting by a `time` column of dates leaves the frame unchanged |
| Scenarios.UndeclaredTextKeySorts | packages/grafana-data/src/dataframe/processDataFrame.test.ts:242-262 | an undeclared key column of strings ["b", "a"] sorts ascending to ["a", "b"] |
| Scenarios.SortExamples | packages/grafana-data/src/dataframe/processDataFrame.test.ts:242-262 | sorting the example descending by field 0 or by field 1 gives [3, 2, 1] and ["c", "b", "a"], and length 3 |

## Left out

- The model follows the assertions of `processDataFrame.test.ts`; where they are silent, the model's choices are listed below.
- Graph-style series and other payload shapes that the layer may accept beyond the four above are not modelled. Any other payload converts to the empty frame rather than failing.
- The payload is a closed union, so a value cannot be a table and a time series at once, and shape priority never arises. JSON documents are told apart from a time series by `type: "docs"`, as in the examples.
- Dates and the moment wrapper are an opaque `TimeVal`. Date arithmetic and formatting are not modelled.
- Numbers are integers. Floating point, `NaN`, `Infinity` and JavaScript's number parsing are not modelled.
- Inference.GuessFieldTypeFromValue: a string is a number when its trimmed text matches an explicit numeral grammar, with an optional sign, digits, an optional point and fraction, and an optional exponent. This is weaker than JavaScript's number parsing, which also accepts hexadecimal and `Infinity`.
- Convert.ToDataFrame: a frame comes back equal to the input, not as the same reference. Reference identity has no meaning for Dafny values.
- Convert.FromTimeSeries: the value column is always `number` without sampling its values, as the test "assumes TimeSeries values are numbers" expects. An empty time series gives two empty columns, not zero fields.
- Convert.ToLegacy: a frame reads as a time series when it has exactly two fields and the second is a time column, by declared type, by name or by its first value. Other field orders are projected as tables.
- Sorting.SortFrame: strings compare by code point, not by locale collation. The comparison is chosen per key column, from its declared type or else from its first present value. Keys that are not of the key column's kind (missing values, objects, mixed kinds) are equivalent and sort after the others in both directions.
- Sorting.SortFrame: only numbers and strings are ever ordered. A column declared `time` or `boolean` is compared as numbers, so its dates (`TimeVal`) or booleans are all equivalent and the column keeps its input order.
- Sorting.SortFrame: an out-of-range key index is an `Err`, not an exception.
- Vector classes (`values.get`, `toArray`, sorted views over the original vectors) are plain sequences. `sortDataFrame` returns new columns rather than lazy views.
- MutableDataFrame's value parsers, its automatic time field, and its other update methods (`set`, `add` by name, `reverse`) are not modelled. Only loading a DTO and appending 6.3-style rows are.
- Jest plumbing and TypeScript casts (`as TimeSeries`, `as any`) are not behaviour and are not modelled.
