# goon: a Dafny model of the TOON codec

This project models the encode/decode engine of `goon`, a Go codec for TOON.
TOON is a compact, line-oriented and indentation-sensitive text notation for
records and arrays. The model covers three pieces of the Go package:

- `recognizeType` (goon/utils.go) turns one trimmed token into a Bool,
  Null, Int, Float, list of strings or String.
- The encoder (goon/marshal.go) covers several parts:
  - the string quoting rule;
  - `marshalSolve` and `normalize`;
  - the `key : value` record layout of `marshalStruct`, with nested
    records re-indented;
  - the four array shapes of `arrayMarshal`, `arrayMixMarshal` and
    `doTheCSVThingORNothing`: empty, inline, tabular and block.
- The decoder (goon/unmarshal.go) is the line loop of `Unmarshal`. It
  splits each line at its first `:`, measures indentation, buffers deeper
  lines, matches the two header regexes and dispatches each line. The model
  also covers the counted block readers `csvLike` and `multipleLineList`
  and the kind-checked assignment `signToStruct`.

Modules and files:

| file | module | content |
|---|---|---|
| wrappers.dfy | Wrappers | `Option` and `Result` |
| gotext.dfy | GoText | the Go string and number helpers the codec calls: `TrimSpace`, `SplitN`, `Split`, `Count`, `Replace`, `CutPrefix`/`CutSuffix`, `bufio.Scanner` lines, `fmt.Sprint` of an `int`, `strconv.Atoi` |
| classify.dfy | Classify | `recognizeType` and its branch lemmas |
| marshal_spec.dfy | MarshalSpec | the value tree `Val` and the encoder as functions returning the whole text or the error |
| marshal_impl.dfy | MarshalImpl | the encoder's routines as methods with the source's loops and early returns, each proved to build exactly the text of its specification function |
| marshal_props.dfy | MarshalProps | the layout of records and of the four array shapes, the tabular key union, the error cases |
| unmarshal_spec.dfy | UnmarshalSpec | the destination, the header matchers, the block readers, one turn of the line loop (`Step`) and the whole loop (`RunFrom`, `Decode`) |
| unmarshal_impl.dfy | UnmarshalImpl | the class `Decoder`: lines, cursor, `lastIndent`, the nested buffer and the destination, with the loop methods proved against `UnmarshalSpec` |
| unmarshal_props.dfy | UnmarshalProps | indentation, the swallowed first line, the no-op re-decode, the header matchers, the block readers and the assignment rules |
| roundtrip.dfy | RoundTrip | what the decoder makes of the encoder's text |

Float formatting and `strconv.ParseFloat` are floating-point numerics and are
not modelled. A float is the token `fmt.Sprint` writes for it. Whether
`ParseFloat` accepts a token is a function parameter `floatOk` that every
decoder function takes.

Several behaviours of the code are worth knowing:

- The comma rule of `recognizeType` applies only after both number rules.
  Each of its elements is the whole token without one trailing quote; no
  part is classified on its own (`Classify.CommaBranch`).
- The empty token is the String "", not Null (`UnmarshalProps.EmptyTokenIsEmptyString`).
- The first `key : value` line of an encoded record measures one space of
  indentation, so it is buffered and never assigned. A flat record
  therefore comes back without its first entry
  (`RoundTrip.FlatRecordIntoMap`, `RoundTrip.FlatRecordIntoStruct`).
- The re-decode of the nested buffer targets a `*reflect.Value` rather
  than the named child, and it has no effect (`UnmarshalProps.NestedRedecodeIsNoOp`).
- An inline list of two or more ints, `name[N]: 1,2`, is not read as a
  list header. It is read as one scalar token, and that token is a number
  format error (`RoundTrip.InlineIntListDoesNotDecode`).
- `name[0]: ` is not a header, so it is not a header format error. It is
  a scalar assignment of the String "" (`UnmarshalProps.ZeroLengthIsNoHeader`,
  `UnmarshalProps.EmptyListIntoMap`).
- A struct key that no field carries is not ignored. It resolves to
  field 0 (`UnmarshalProps.MissingKeyResolvesToFieldZero`).
- `omitempty` acts only on a nil pointer. A nil pointer fails the record
  in either case, so the flag never changes the output (`MarshalProps.OmitEmptyInert`).
- `marshalSolve` has no Bool case. A bool at top level or in a tabular
  cell is an error, and the failing table falls back to the block form
  (`MarshalProps.BoolCellFails`, `MarshalProps.UnsupportedAtTopLevel`).
- Tabular rows are written indented by two spaces.

## Model

| member | source | states |
|---|---|---|
| Classify.ClassifyCases | goon/utils.go:9-43 | the result is an error exactly when the token has a digit and no quote, and then either has a dot and is rejected by the float parser or has no dot and is rejected by Atoi; the error names the token; Bool exactly for `true`/`false`; Null exactly for `null`; Int exactly when the Atoi branch accepts, with Atoi's value; Float only for an accepted token |
| Classify.CommaBranch | goon/utils.go:23-36 | a token with a comma, not starting with a quote and outside both number branches, gives a list of (commas + 1) elements, each equal to the whole token less one trailing quote |
| Classify.StringBranch | goon/utils.go:38-41 | every other token gives a String with at most one leading and one trailing quote removed |
| Classify.QuotedIsString | goon/utils.go:38-41 | a token wrapped in quotes is the String between them, whatever it holds |
| Classify.DecimalIsInt | goon/utils.go:17-19 | the decimal text of every 64-bit int is read back as that Int |
| Classify.BoolWords | goon/utils.go:11-14 | `true` and `false` are read back as their Bools |
| Classify.DigitTokenWithOtherCharFails | goon/utils.go:17-19 | a token with a digit, no quote and no dot fails if any character after the first is not a digit |
| Classify.DigitTokensFail | goon/utils.go:17-19 | `1,2,3`, `abc1` and `12a` are errors |
| Classify.Classify | goon/utils.go:9-43 | an error only for a token with a digit and no quote, and it names that token |
| GoText.Atoi | goon/utils.go:18 | a value comes only from a non-empty token, lies in the 64-bit range, and is negative only after a leading `-` |
| GoText.AtoiAccepts | goon/utils.go:18 | Atoi accepts only an optional sign followed by digits, within the 64-bit range |
| GoText.AtoiOfDecimal | goon/marshal.go:159 | Atoi reads back the decimal `fmt.Sprint` writes for every 64-bit int |
| MarshalSpec.Quote | goon/marshal.go:36-45 | the result is the string unchanged or wrapped in quotes with nothing escaped, and it is quoted exactly when the string has a digit, one of `: , { } [ ] " \| \ -` or a tab, is empty, is `true`/`false`/`null`, or starts or ends with a space |
| MarshalSpec.Marshal | goon/marshal.go:11-19 | a nil argument panics and nothing else does; otherwise there is no error exactly when `marshalSolve` succeeds, the bytes are then its text, and a failure carries its error |
| MarshalSpec.Solve | goon/marshal.go:21-63 | only a struct, map, string, int, float or slice can succeed |
| MarshalSpec.Normalize | goon/marshal.go:71-113 | only a struct or a map is accepted, any other kind is the unsupported-kind error; a struct's entry names are non-empty; a map gives one entry per pair |
| MarshalSpec.RecordText | goon/marshal.go:115-202 | a record is written exactly when all its entries are, and its error is that of one of its entries |
| MarshalSpec.ArrayText | goon/marshal.go:204-292 | a written array has no element of an unsupported kind |
| MarshalSpec.MixText | goon/marshal.go:294-457 | a written mixed array has no element of an unsupported kind |
| MarshalSpec.MixPiece | goon/marshal.go:324-453 | a scalar element is always written; an unsupported element or a nil pointer is the unknown-kind error |
| MarshalSpec.StructEntriesAreTaggedFields | goon/marshal.go:76-96 | a struct's entries are exactly its fields with a non-empty `toon` tag, in declaration order, with `omitempty` read from its own tag |
| MarshalSpec.MapEntries | goon/marshal.go:98-108 | a map gives one entry per key in iteration order, never omitempty |
| MarshalSpec.RowMapLookup | goon/marshal.go:483-489 | in the per-element map of the tabular form, a name holds the value of its last entry |
| MarshalSpec.Csv | goon/marshal.go:466-477 | the tabular attempt succeeds only when every element is a record |
| MarshalSpec.ArrayTextInline | goon/marshal.go:228-231 | a typed slice of scalars takes the inline form |
| MarshalSpec.ArrayTextStops | goon/marshal.go:228-230 | at the first element that cannot be written inline, the array is the mixed form for an interface, slice, struct or map, and an error otherwise |
| MarshalSpec.DedupMembers | goon/marshal.go:485-487 | the key union holds exactly the names that occur |
| MarshalImpl.NormalizeValue | goon/marshal.go:71-113 | the loop builds exactly the entries of `Normalize`, and fails on any kind other than struct or map |
| MarshalImpl.MarshalSolve | goon/marshal.go:21-63 | returns exactly the text or error of `Solve` |
| MarshalImpl.MarshalStruct | goon/marshal.go:115-202 | the entry loop with its early returns builds exactly `RecordText` |
| MarshalImpl.WriteEntry | goon/marshal.go:123-198 | one entry, after the interface and pointer steps, is exactly `EntryText` |
| MarshalImpl.IndentLines | goon/marshal.go:170-180 | the scanner loop prefixes every line of the nested record with two spaces and ends each with a newline |
| MarshalImpl.IndentAfterFirst | goon/marshal.go:416-432 | the `lock` loop keeps the first line as it is and indents every later line by four spaces |
| MarshalImpl.WriteNames | goon/marshal.go:373-384 | the header loop writes the names joined by commas |
| MarshalImpl.ArrayMarshal | goon/marshal.go:204-292 | returns exactly `ArrayText`: `: ` for an empty slice, the inline form, the mixed form, or the unknown-kind error |
| MarshalImpl.WriteInlineRun | goon/marshal.go:211-288 | the loop stops at the first element it cannot write inline; when it reaches the end, it has written the inline form |
| MarshalImpl.ArrayMixMarshal | goon/marshal.go:294-457 | returns exactly `MixText`: the table when it succeeds, otherwise the block form up to the first failing element |
| MarshalImpl.MixElement | goon/marshal.go:301-323 | a successful table is the whole result; a failed one leaves the element's block piece |
| MarshalImpl.WriteMixPiece | goon/marshal.go:324-453 | one block element is exactly `MixPiece` |
| MarshalImpl.WriteMixRecord | goon/marshal.go:366-433 | a record element is a row (with the `{names}:` header first) in a typed slice, or `  - ` and its re-indented lines in an `any` slice |
| MarshalImpl.WriteRow | goon/marshal.go:391-409 | a row is the entries' `marshalSolve` texts joined by commas, stopping at the first error |
| MarshalImpl.CsvThing | goon/marshal.go:459-529 | returns exactly `Csv` |
| MarshalImpl.CollectColumns | goon/marshal.go:466-491 | succeeds exactly when every element is a record; then the names are the key union in first-seen order and each element's map is its `RowMap` |
| MarshalImpl.AddKeys | goon/marshal.go:483-489 | adding one element's entries appends its new names to the union and builds its map |
| MarshalImpl.WriteCsvCells | goon/marshal.go:503-524 | a row's cells are its values under the union's names joined by commas, up to the first error |
| MarshalImpl.CellText | goon/marshal.go:509-518 | a cell is `null` for a missing name, otherwise the value through `marshalSolve` |
| MarshalProps.ScalarRecordLayout | goon/marshal.go:123-163 | a record of scalars is one `name : v` line per entry, in entry order |
| MarshalProps.NestedRecordLayout | goon/marshal.go:164-180 | a nested record is `name :` then every line of its text prefixed with two spaces |
| MarshalProps.NilPointerSpoilsRecord | goon/marshal.go:133-139 | a nil pointer entry makes its record fail with the unknown-kind error, omitempty or not |
| MarshalProps.OmitEmptyInert | goon/marshal.go:133-136 | the omitempty flags never change a record's text |
| MarshalProps.EmptyArrayLayout | goon/marshal.go:207-209 | an empty slice is `name[0]: ` with no newline |
| MarshalProps.InlineArrayLayout | goon/marshal.go:231-288 | a typed slice of scalars is `name[N]: v1,...,vN` and a newline unless the last value is a float |
| MarshalProps.AnyScalarListIsBlock | goon/marshal.go:324-364 | an `any` slice of scalars is `:` then one `  - v` line per element |
| MarshalProps.MissingKeyIsNull | goon/marshal.go:509-511 | a key an element lacks is the cell `null` |
| MarshalProps.BoolCellFails | goon/marshal.go:513-516 | a bool cell is an error, because `marshalSolve` has no bool case |
| MarshalProps.FailingCellSpoilsTable | goon/marshal.go:503-525 | one failing cell makes the whole tabular attempt fail |
| MarshalProps.TableLayout | goon/marshal.go:493-525 | the table is `{k1,...,km}:` over the key union, then one row per element: two spaces and its cells |
| MarshalProps.RecordsGoTabular | goon/marshal.go:318-323 | a typed slice of records whose table succeeds is written as that table |
| MarshalProps.DedupSpec | goon/marshal.go:484-487 | the key union holds each name once, exactly the names that occur, in the order of their first occurrence |
| MarshalProps.UnsupportedAtTopLevel | goon/marshal.go:60-61 | `marshalSolve` of a bool, a pointer or an unsupported kind is the invalid-type error |
| MarshalProps.FailedSliceKeepsLength | goon/marshal.go:16-18 | a slice whose array text fails still gives `[N]` together with the error |
| MarshalProps.FailedOtherIsEmpty | goon/marshal.go:53-61 | any other failing value gives no text together with the error |
| MarshalProps.UnsupportedElementKeepsLength | goon/marshal.go:53-58 | an unsupported element after an inline run gives `[N]` and the unknown-kind error |
| MarshalProps.NilArgPanics | goon/marshal.go:13-23 | `Marshal(nil)` panics: `rt` is a nil type |
| MarshalProps.UnsupportedElementFails | goon/marshal.go:285-286 | an unsupported element after an inline run is the unknown-kind error |
| UnmarshalSpec.Decode | goon/unmarshal.go:21-44 | an untyped nil destination is the panic of `rv.Type()`; any other destination that is not a non-nil pointer is an error and is left alone; a pointer keeps the shape of its target; a target that is neither struct nor map is never assigned |
| UnmarshalSpec.TagIndex | goon/unmarshal.go:35-44 | every tag, the empty tag included, maps to the position of the last field carrying it |
| UnmarshalSpec.ElemIndex | goon/unmarshal.go:102-113 | every non-empty element tag maps to the position of the last field carrying it |
| UnmarshalSpec.FindList | goon/unmarshal.go:48 | a list match is a name followed by `[` and a count without a leading zero |
| UnmarshalSpec.FindTable | goon/unmarshal.go:49 | a tabular match also has a `,`, `\|` or tab separator and a non-empty field list without `}` |
| UnmarshalSpec.MatchList | goon/unmarshal.go:48 | a match on a key starts with its name and `[`, and its count is positive |
| UnmarshalSpec.MatchTable | goon/unmarshal.go:49 | a match on a key starts with its name and `[`, has a positive count, one of the three separators and a non-empty field list without `}` |
| UnmarshalSpec.Indentation | goon/unmarshal.go:61-62 | only the characters around the trimmed key are counted |
| UnmarshalSpec.BaseName | goon/unmarshal.go:189 | the name before the first `[` is trimmed and holds no `[` |
| UnmarshalSpec.ListLineOf | goon/unmarshal.go:303-317 | a line is skipped exactly when its trimmed text does not start with `-`; the missing-space panic comes only from a trimmed line without a space |
| UnmarshalSpec.RowSoFar | goon/unmarshal.go:338-347 | the first i cells succeed only when there are at least i names |
| UnmarshalSpec.Row | goon/unmarshal.go:336-347 | a row with more cells than names never succeeds |
| UnmarshalSpec.CsvSoFar | goon/unmarshal.go:331-352 | a successful read gives exactly the requested number of rows |
| UnmarshalSpec.BuildElem | goon/unmarshal.go:117-129 | one struct element has one slot per field |
| UnmarshalSpec.StructElemRows | goon/unmarshal.go:115-130 | one struct element per row |
| UnmarshalSpec.MapElemRows | goon/unmarshal.go:155-169 | one map per row, each the row without its null cells |
| UnmarshalSpec.CountValue | goon/unmarshal.go:75-78 | Atoi of a matched count agrees with its value and is positive; it fails only beyond the int range |
| UnmarshalSpec.ListScan | goon/unmarshal.go:302-319 | a list read gives exactly the requested number of elements, never moves back, and never ends if the lines run out |
| UnmarshalSpec.ListReturn | goon/unmarshal.go:313-328 | the list is returned exactly when no element is null; a classification error gives the invalid Value with no error |
| UnmarshalSpec.Assign | goon/unmarshal.go:289-293 | assignment succeeds exactly when the field's kind equals the value's or is interface and the value is valid; a kind mismatch is the `trying to assign` error; only that field changes |
| UnmarshalSpec.DropNulls | goon/unmarshal.go:140-145 | a row keeps exactly its non-null cells |
| UnmarshalSpec.TableStep | goon/unmarshal.go:70-173 | a tabular block moves the cursor forward, changes nothing but the cursor and the destination, and keeps the destination's shape |
| UnmarshalSpec.ListStep | goon/unmarshal.go:174-215 | a list block moves the cursor forward, changes nothing but the cursor and the destination, and keeps the destination's shape |
| UnmarshalSpec.ScalarStep | goon/unmarshal.go:217-261 | a scalar line changes nothing but the destination and keeps its shape |
| UnmarshalSpec.Step | goon/unmarshal.go:54-67 | a turn moves the cursor forward, never lowers `lastIdentationN` and keeps the destination's shape |
| UnmarshalSpec.StepNoColon | goon/unmarshal.go:57-58 | a line without `:` stops the loop with the index-out-of-range panic |
| UnmarshalSpec.ViewOf | goon/unmarshal.go:57-77 | the counts that the header matchers find on a line are positive |
| UnmarshalSpec.Turn | goon/unmarshal.go:57-67 | after the split, the turn moves the cursor forward and never lowers the indentation |
| UnmarshalSpec.Branch | goon/unmarshal.go:69-217 | the header tests and the scalar assignment change nothing but the cursor and the destination |
| UnmarshalSpec.RunFrom | goon/unmarshal.go:54-263 | the whole loop keeps the destination's shape |
| UnmarshalImpl.BuildIndex | goon/unmarshal.go:37-43 | the loop builds exactly `TagIndex` |
| UnmarshalImpl.BuildElemIndex | goon/unmarshal.go:104-113 | the loop builds exactly `ElemIndex` |
| UnmarshalImpl.ReadRow | goon/unmarshal.go:338-347 | the cell loop of `csvLike` builds exactly `RowSoFar` over all cells |
| UnmarshalImpl.ReadCell | goon/unmarshal.go:341-346 | one more cell extends the row |
| UnmarshalImpl.DropNullCells | goon/unmarshal.go:139-145 | the loop keeps exactly the non-null cells |
| UnmarshalImpl.BuildMapRows | goon/unmarshal.go:155-169 | the loop builds one map per row without its null cells |
| UnmarshalImpl.BuildElement | goon/unmarshal.go:117-129 | one struct element of a tabular block is exactly `BuildElem` |
| UnmarshalImpl.BuildStructRows | goon/unmarshal.go:115-130 | the loop builds one struct element per row |
| UnmarshalImpl.AppendElements | goon/unmarshal.go:321-328 | appending the elements is exactly `ListReturn` of them |
| UnmarshalImpl.Decoder.constructor | goon/unmarshal.go:45-53 | the loop starts at line 0 with no indentation, no saved name and an empty buffer |
| UnmarshalImpl.Decoder.Scan | goon/unmarshal.go:303-304 | a scan reads the line at the cursor, or "" once the input is used up |
| UnmarshalImpl.Decoder.CsvLike | goon/unmarshal.go:331-352 | returns exactly `CsvSoFar` and consumes exactly the requested number of lines |
| UnmarshalImpl.Decoder.MultipleLineList | goon/unmarshal.go:298-329 | returns what `ListScan` and `ListReturn` give and leaves the cursor where the read stopped |
| UnmarshalImpl.Decoder.ReadListLine | goon/unmarshal.go:303-317 | one line of the list loop gives what `ListLineOf` says |
| UnmarshalImpl.Decoder.DecodeLine | goon/unmarshal.go:54-68 | one turn of the loop is exactly `Step` |
| UnmarshalImpl.Decoder.TurnLine | goon/unmarshal.go:58-67 | after the split, the saved name, the buffering of a deeper line and the dispatch are exactly `Turn` |
| UnmarshalImpl.Decoder.Dispatch | goon/unmarshal.go:69-261 | the dispatch on the headers is exactly `Branch` |
| UnmarshalImpl.Decoder.TableBlock | goon/unmarshal.go:70-173 | the tabular branch is exactly `TableStep` |
| UnmarshalImpl.Decoder.ListBlock | goon/unmarshal.go:174-215 | the list branch is exactly `ListStep` |
| UnmarshalImpl.Decoder.ScalarLine | goon/unmarshal.go:217-261 | the scalar branch is exactly `ScalarStep` |
| UnmarshalImpl.Decoder.Run | goon/unmarshal.go:54-265 | the loop leaves exactly the destination and error of `RunFrom` |
| UnmarshalImpl.Unmarshal | goon/unmarshal.go:21-266 | returns exactly the destination and error of `Decode` |
| UnmarshalProps.IndentationCountsEdges | goon/unmarshal.go:61-62 | indentation counts the spaces both before and after the trimmed key |
| UnmarshalProps.EncodedKeyMeasuresOne | goon/unmarshal.go:61-62 | the key part `name ` of `name : v` measures one |
| UnmarshalProps.TrimmedKeyMeasuresZero | goon/unmarshal.go:61-62 | a key part with no space around it, such as `name[N]`, measures zero |
| UnmarshalProps.DeeperLineIsBuffered | goon/unmarshal.go:63-67 | a deeper line is appended to the buffer without a newline, raises the indentation and assigns nothing |
| UnmarshalProps.FirstLineSwallowed | goon/unmarshal.go:61-67 | the first line `name : v` of a document is buffered, not assigned |
| UnmarshalProps.StepKeepsBufferShape | goon/unmarshal.go:63-67 | the buffer stays empty or one line without a newline whose key part measures more than zero |
| UnmarshalProps.NestedRedecodeIsNoOp | goon/unmarshal.go:229-237 | re-decoding such a buffer leaves any target unchanged and reports no error |
| UnmarshalProps.ListHeaderMatched | goon/unmarshal.go:48 | `name[N]` matches the list pattern with its name and count and does not match the tabular one |
| UnmarshalProps.TableHeaderMatched | goon/unmarshal.go:49 | `name[N]{fields}` matches the tabular pattern with its name, count, fields and the default `,` separator |
| UnmarshalProps.ZeroLengthIsNoHeader | goon/unmarshal.go:48-49 | `name[0]` matches neither pattern |
| UnmarshalProps.ListedReadsElementLines | goon/unmarshal.go:302-319 | a successful list read consists of skipped lines and element lines only, ends on an element line, and gives the elements of those lines in order |
| UnmarshalProps.RowSucceeds | goon/unmarshal.go:338-347 | a row succeeds exactly when it has no more cells than names and every cell is classified |
| UnmarshalProps.RowHoldsLastCells | goon/unmarshal.go:341-346 | a row holds exactly the names used, each with the classification of its last cell |
| UnmarshalProps.TooManyCellsPanics | goon/unmarshal.go:343 | a row with more cells than names panics |
| UnmarshalProps.QuotedSeparatorSplitsCell | goon/unmarshal.go:338 | the split has no quote awareness: a quoted cell holding the separator becomes two cells |
| UnmarshalProps.UnknownTableSkipped | goon/unmarshal.go:86-89 | a tabular block under an unknown name is consumed and sets nothing |
| UnmarshalProps.TableIntoNonSliceFails | goon/unmarshal.go:92-94 | a tabular block into a non-slice field is an error |
| UnmarshalProps.TableIntoMap | goon/unmarshal.go:153-171 | a tabular block into a map stores its rows without their null cells under the header's name and changes no other key |
| UnmarshalProps.StructElemTakesTaggedColumns | goon/unmarshal.go:104-129 | a struct element's field is set exactly when it is the last field with its non-empty tag and its column holds a non-null cell, and then to that cell |
| UnmarshalProps.MissingKeyResolvesToFieldZero | goon/unmarshal.go:226-242 | a scalar under a name no field carries is assigned to field 0, subject to its kind check |
| UnmarshalProps.ScalarMismatch | goon/unmarshal.go:289-291 | a scalar whose kind differs from its non-interface field is the `trying to assign` error |
| UnmarshalProps.EmptyListIntoMap | goon/unmarshal.go:259 | `name[0]: ` into a map stores the String "" under the key `name[0]` |
| UnmarshalProps.EmptyListIntoSliceFieldFails | goon/unmarshal.go:217-242 | `name[0]: ` into a slice field is a string-into-slice kind error |
| UnmarshalProps.EmptyTokenIsEmptyString | goon/utils.go:38-41 | the empty token is the String "", not Null |
| UnmarshalProps.NullScalarSkipped | goon/unmarshal.go:222-224 | a Null value is skipped: the scalar step leaves the destination as it was |
| UnmarshalProps.NullLineSkipped | goon/unmarshal.go:57-67 | a `key: null` line at or above the current indentation only moves the cursor |
| UnmarshalProps.BadTokenStops | goon/unmarshal.go:217-220 | a value that `recognizeType` rejects stops the decode with its error |
| UnmarshalProps.ShallowerLineNotAssigned | goon/unmarshal.go:229-238 | a line shallower than the deepest one so far is not assigned |
| UnmarshalProps.TurnBranches | goon/unmarshal.go:57-67 | a line at or above the current indentation goes on to the header tests |
| UnmarshalProps.BranchScalar | goon/unmarshal.go:174-217 | a non-empty value, or a key matching neither header, is a scalar assignment |
| RoundTrip.PlainStringRoundTrip | goon/marshal.go:36-47 | a string written without quotes is non-empty and read back as itself, and a one-line one is already trimmed |
| RoundTrip.QuoteRoundTrip | goon/marshal.go:36-45 | every string, once quoted, is a non-empty token read back as the same String, whatever it holds; the quoted text of a one-line string is trimmed and has no newline |
| RoundTrip.ScalarRoundTrip | goon/marshal.go:158-163 | the text of every readable string, 64-bit int, bool or dotted float is trimmed, one line, and read back as the scalar it came from |
| RoundTrip.FlatRecordIntoMap | goon/unmarshal.go:54-261 | a record of scalars, encoded then decoded into a map, stores every entry but the first under its name and reports no error |
| RoundTrip.FlatRecordIntoStruct | goon/unmarshal.go:54-242 | a record of scalars, encoded then decoded into a struct whose tagged fields accept the values, assigns every entry but the first and reports no error |
| RoundTrip.InlineIntListDoesNotDecode | goon/marshal.go:254-263 | a record holding a slice of two or more ints encodes to a line the decoder rejects with a number format error, leaving the destination as it was |
| RoundTrip.InlineIntsText | goon/marshal.go:182-192 | that record's text is `name[N]: ` and the ints joined by commas |
| RoundTrip.IntsTextFails | goon/utils.go:17-19 | the comma-joined ints are a number format error, not a list |

## Left out

- Float formatting (`fmt.Sprint` of a float64) and `strconv.ParseFloat` are not modelled. A float is its token, and the parser's acceptance is the parameter `floatOk`.
- Go map iteration order is not modelled. Map entries come in the order the caller gives, and map keys are strings, not `fmt.Sprint` of other key types.
- `Marshal`'s bytes are modelled as the text they hold (`MarshalSpec.Marshal`).
- The reflection machinery is not modelled. Values are the `Val` tree on the encoder side and slots with kinds on the decoder side. The panics of `Set` for mismatched element types (a `[]any` into a `[]string` field, a tabular cell into a field of another kind) are not modelled. The panics the model does keep are error values: a line without `:`, a list line without a space, a row with more cells than names, a struct without fields, and setting the invalid Value.
- The recursive `Unmarshal` on the nested buffer is modelled by its outcome only: `UnmarshalProps.NestedRedecodeIsNoOp` shows it changes nothing and succeeds.
- `multipleLineList` running out of input spins forever in Go. Here that is the outcome `NeverReturns`, not a loop.
- The pointer branches of `arrayMarshal` and `arrayMixMarshal` that call `IsNil` on the slice itself are not modelled. That test is false for every slice with an element, so it never writes anything. A pointer element of a typed slice is followed once, and a nil one is an error.
- Debug printing, the `bufio.Scanner` token limit and carriage-return stripping are not modelled. `TrimSpace` knows ASCII white space only.
- Integers are unbounded in the encoder; `Atoi` and the decoder's counts use the 64-bit range.
- goon/marshal_test.go and goon/unmarshal_test.go are not part of this model; they only read files and print.
