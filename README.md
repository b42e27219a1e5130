# US Accidents processing core in Dafny

This project models the sequential logic of the US Accidents pipeline and proves properties of it.
The pipeline reads the US Accidents CSV data set, aggregates it in a stream, writes JSON reports,
validates CSV files and exports Hive analysis tables as CSV. The model has five parts.

- **Tolerant CSV record decoding.** Both the file parser `CSVParser` and its stream-operator twin
  `AccidentCSVParser` do this decoding.
  - Lines are split with the quote-aware comma rule (`CsvSplit`).
  - The header is resolved into a column-index array (`ColumnLayout.ProcessHeaders`).
  - A field is cleaned by trimming it and then removing every `"`.
  - A record is decoded field by field with setters that never abort it (`AccidentRecord`,
    `RecordDecoder`).
  - `CsvFileParser.CsvParser` and `CsvOperator.AccidentCsvParser` are classes over a shared
    `columnIndices` array. Each is proved equal to one pure line-by-line decoder,
    `RecordDecoder.OnLine` / `RecordDecoder.Decode`.
- **Incremental aggregation** in `AccidentAnalyzer`.
  - The counters are cumulative: five counter maps and five scalar counters, grouped as one
    `Analyzer.Tally` value.
  - Each accident maps its hour to a time-of-day bucket.
  - Emission is time-triggered, and every percentage is guarded against a zero total.
  - A snapshot holds key-sorted copies of three maps. `Ordering` models Java's
    `String.compareTo` and `Integer` ordering, and proves that the sort yields exactly the map.
- **JSON serialisation.**
  - `Json` defines the escaping, the rendering of values and the document layout as functions.
  - `JsonBuilder` gives the builder loops that both writers (`AccidentOutputOperator` and
    `OutputWriter`) run, proved equal to those functions.
  - A decoder for the string escapes of section 7 of RFC 8259 states what the escaping achieves.
  - The output operator's file rotation is modelled in `OutputOperator`.
- **CSV validation.** `CsvValidator` models first-match header lookup and the validator's
  row sampling and row counting over a line reader.
- **Hive CSV export.** `HiveExport` models how `saveTableToCSV` encodes a result table, and how
  `saveAllAnalysisTablesToCSV` builds the four export paths.

The clock, file creation, writes and `Double.parseDouble` are outside the model. They become
parameters. `now` is the clock. `created`, `closed`, `written`, `canOpen` and `directoryReady`
are the outcomes of file operations. `parseDouble` is the number parser. The derived facts the
analyzer asks of an accident arrive as `Analyzer.Derived`. Java map iteration order is a given
sequence of pairs. Header resolution follows the code: when two headers name the same column,
the later one wins.

## Model

All source paths are under `src/main/java/com/usaccidents/`, written below in full.

| member | source | states |
|---|---|---|
| Text.Trim | src/main/java/com/usaccidents/io/CSVParser.java:159-162 | `String.trim`: the result is no longer than the input, starts and ends with a character above U+0020 (or is empty), and everything cut from either end is at most U+0020 |
| Text.TrimEmpty | src/main/java/com/usaccidents/io/CSVParser.java:43-45 | a line trims to empty exactly when every character is at most U+0020 (the blank-line test) |
| Text.TrimIdentity | src/main/java/com/usaccidents/io/CSVParser.java:159-162 | trimming a string whose ends are not trimmable changes nothing |
| Text.RemoveChar | src/main/java/com/usaccidents/io/CSVParser.java:159-162 | `replace("\"", "")`: no removed character is left, every remaining character comes from the input, and a string without it is unchanged |
| Text.RemoveCharAppend | src/main/java/com/usaccidents/io/CSVParser.java:159-162 | removing a character distributes over concatenation |
| Text.RemoveCharLeavesNothing | src/main/java/com/usaccidents/io/CSVParser.java:159-162 | the result is empty exactly when the input consists only of that character |
| Text.EqualsIgnoreCaseEquivalence | src/main/java/com/usaccidents/io/CSVParser.java:79 | `equalsIgnoreCase` is reflexive, symmetric and transitive |
| Text.JoinSnoc | src/main/java/com/usaccidents/hive/USAccidentsHiveDataProcessor.java:574 | `String.join` of one more element appends the separator and the element (just the element when the list was empty) |
| Text.NatToString | src/main/java/com/usaccidents/io/CSVParser.java:170-181 | decimal text of a natural number: digits only, with no leading zero unless the number is 0 |
| Text.IntToString | src/main/java/com/usaccidents/io/CSVParser.java:170-181 | `Integer.toString`: non-empty, and starts with `-` exactly for negative numbers |
| Text.NatToStringValue | src/main/java/com/usaccidents/io/CSVParser.java:170-181 | the digits of `NatToString(n)` denote `n` |
| Text.ParseInt | src/main/java/com/usaccidents/io/CSVParser.java:170-181 | `Integer.parseInt`: a parsed value lies in the 32-bit range, and empty text fails |
| Text.ParseIntRoundTrip | src/main/java/com/usaccidents/io/CSVParser.java:170-181 | parsing the text of any 32-bit integer gives it back |
| Text.ParseIntRejectsOverflow | src/main/java/com/usaccidents/io/CSVParser.java:170-181 | `2147483648` fails to parse |
| Text.IntToStringIsPlain | src/main/java/com/usaccidents/io/CSVParser.java:159-162 | an integer's text holds no quote and has no trimmable end, so cleaning leaves it alone |
| CsvSplit.FirstSeparator | src/main/java/com/usaccidents/io/CSVParser.java:47 | the next separator from a position is a separator, with none before it |
| CsvSplit.SeparatorShift | src/main/java/com/usaccidents/io/CSVParser.java:47 | whether a comma separates depends only on the text after it |
| CsvSplit.Split | src/main/java/com/usaccidents/io/CSVParser.java:47 | `split(",(?=(?:[^\"]*\"[^\"]*\")*[^\"]*$)", -1)` yields at least one field |
| CsvSplit.SplitJoin | src/main/java/com/usaccidents/io/CSVParser.java:47 | joining the fields with `,` gives back the line |
| CsvSplit.SplitSeparators | src/main/java/com/usaccidents/io/CSVParser.java:47 | a position is where two fields were cut apart exactly when it holds a comma followed by an even number of `"` |
| CsvSplit.SeparatorsFromShift | src/main/java/com/usaccidents/io/CSVParser.java:47 | counting separators commutes with dropping a prefix |
| CsvSplit.SeparatorsFromGap | src/main/java/com/usaccidents/io/CSVParser.java:47 | a stretch without separators adds none to the count |
| CsvSplit.SplitCount | src/main/java/com/usaccidents/io/CSVParser.java:47 | field count is separator count plus one (trailing empty fields are kept) |
| AccidentRecord.ColumnCountIsHeaderCount | src/main/java/com/usaccidents/io/CSVParser.java:17-28 | there are 44 expected headers, one per record field and index slot |
| AccidentRecord.Clean | src/main/java/com/usaccidents/io/CSVParser.java:159-162 | a cleaned field holds no `"`, a blank field cleans to empty, and a quote-free field with untrimmable ends is unchanged |
| AccidentRecord.CleanField | src/main/java/com/usaccidents/io/CSVParser.java:159-162 | `cleanField` maps null to null and otherwise gives the cleaned text, which holds no `"` |
| AccidentRecord.DecodeDropsOnlyWithoutId | src/main/java/com/usaccidents/io/CSVParser.java:99-104 | a record is dropped exactly when the ID index is negative or at least the field count; otherwise its ID is the cleaned ID field |
| AccidentRecord.EmptyIdIsKept | src/main/java/com/usaccidents/io/CSVParser.java:99-104 | any ID field that cleans to the empty string (blank, quote-only, or quotes inside blanks) still yields a record, whose ID is the empty string |
| AccidentRecord.DecodeFieldwise | src/main/java/com/usaccidents/io/CSVParser.java:107-149 | every field after the ID is set from its own column alone, by its setter's rule (string, int or double), whatever happens to the other fields |
| AccidentRecord.SeverityIsParsedOrDefault | src/main/java/com/usaccidents/io/CSVParser.java:170-181 | severity is the parsed cleaned value when the column is present, non-empty and parses; otherwise it stays 0, and the record is still produced |
| AccidentRecord.SeverityRoundTrip | src/main/java/com/usaccidents/io/CSVParser.java:170-181 | the text of a 32-bit integer in the severity column decodes to that integer |
| ColumnLayout.FirstExpectedFrom | src/main/java/com/usaccidents/io/CSVParser.java:78-83 | the inner loop with `break`: the smallest expected column from a point on that matches the header, or -1 when none does |
| ColumnLayout.Place | src/main/java/com/usaccidents/io/CSVParser.java:71-84 | a layout has one slot per column, each -1 or a header position |
| ColumnLayout.PlaceStep | src/main/java/com/usaccidents/io/CSVParser.java:80 | one more header overwrites only the slot it is assigned to |
| ColumnLayout.PlaceLastMatch | src/main/java/com/usaccidents/io/CSVParser.java:71-84 | a slot is -1 exactly when no header is assigned to it; otherwise it holds the largest position assigned to it |
| ColumnLayout.Resolve | src/main/java/com/usaccidents/io/CSVParser.java:69-92 | the resolved layout has one slot per expected column, each -1 or a header position |
| ColumnLayout.ResolveLastMatch | src/main/java/com/usaccidents/io/CSVParser.java:69-84 | each slot is -1 exactly when no header resolves to that column, else the last header position that does (duplicates: last match wins) |
| ColumnLayout.FirstColumnResolution | src/main/java/com/usaccidents/io/CSVParser.java:76-84 | the first expected column is -1 exactly when no cleaned header equals its name ignoring case, else the last such header position |
| ColumnLayout.IdColumnResolution | src/main/java/com/usaccidents/operators/AccidentCSVParser.java:69-82 | the `ID` slot is -1 exactly when no header cleans to `ID` ignoring case, otherwise the last header that does |
| ColumnLayout.FirstExpectedOfDistinct | src/main/java/com/usaccidents/io/CSVParser.java:78-83 | when the canonical names are pairwise different ignoring case, the inner loop assigns a header to column `j` exactly when the header names `j` |
| ColumnLayout.DistinctResolution | src/main/java/com/usaccidents/io/CSVParser.java:69-84 | with pairwise different names, every column is -1 exactly when no cleaned header equals its name ignoring case, and otherwise the last header position that does |
| ColumnLayout.ExpectedHeadersDistinct | src/main/java/com/usaccidents/io/CSVParser.java:17-26 | the 44 `EXPECTED_HEADERS` are pairwise different ignoring case |
| ColumnLayout.ExpectedColumnResolution | src/main/java/com/usaccidents/io/CSVParser.java:69-84 | for every one of the 44 columns: -1 exactly when no header, trimmed and unquoted, equals `EXPECTED_HEADERS[j]` ignoring case, otherwise the position of the last header that does (duplicates: last match wins) |
| ColumnLayout.ProcessHeaders | src/main/java/com/usaccidents/io/CSVParser.java:69-92 | the array loops leave `columnIndices` equal to the resolved layout |
| RecordDecoder.ParseAccident | src/main/java/com/usaccidents/io/CSVParser.java:94-157 | `parseAccident` over the live index array returns the pure field-by-field decoding |
| RecordDecoder.OnLine | src/main/java/com/usaccidents/operators/AccidentCSVParser.java:43-65 | a null or blank line changes nothing and emits nothing; the first other line resolves the header, sets `headersProcessed` and emits nothing; later lines keep the state and emit a record exactly when the ID column is in range |
| RecordDecoder.Decode | src/main/java/com/usaccidents/io/CSVParser.java:37-67 | decoding a sequence of lines keeps the decoder state well formed |
| RecordDecoder.HeaderIsFirstLineNotSkipped | src/main/java/com/usaccidents/io/CSVParser.java:43-54 | blank lines before the header change nothing, and the first non-blank line becomes the header, with no record |
| RecordDecoder.SkippedPrefix | src/main/java/com/usaccidents/io/CSVParser.java:43-45 | a run of blank lines changes no state and yields no record |
| RecordDecoder.HeadersStayProcessed | src/main/java/com/usaccidents/operators/AccidentCSVParser.java:51-55 | once the header is processed, no line changes the state: `headersProcessed` never returns to false |
| RecordDecoder.AtMostOneRecordPerLine | src/main/java/com/usaccidents/operators/AccidentCSVParser.java:57-61 | no more records than lines |
| RecordDecoder.MissingIdDropsEverything | src/main/java/com/usaccidents/operators/AccidentCSVParser.java:69-82 | with the ID column unresolved, every later line is dropped |
| RecordDecoder.RecordsCarryId | src/main/java/com/usaccidents/io/CSVParser.java:99-104 | every decoded record has an ID |
| RecordDecoder.InitialLayoutIrrelevant | src/main/java/com/usaccidents/io/CSVParser.java:70-73 | since `processHeaders` first resets every slot to -1, the index array's contents before the header affect neither the records nor the final layout |
| CsvFileParser.CsvParser.constructor | src/main/java/com/usaccidents/io/CSVParser.java:28 | a fresh 44-slot index array of zeros |
| CsvFileParser.CsvParser.ParseCsvFile | src/main/java/com/usaccidents/io/CSVParser.java:37-67 | the file loop returns exactly the records of the line-by-line decoder and leaves its final layout in `columnIndices` |
| CsvOperator.AccidentCsvParser.constructor | src/main/java/com/usaccidents/operators/AccidentCSVParser.java:29-30 | headers not processed, nothing emitted, a fresh 44-slot index array of zeros |
| CsvOperator.AccidentCsvParser.ProcessCsvLine | src/main/java/com/usaccidents/operators/AccidentCSVParser.java:43-65 | the operator's state moves as `OnLine` says, and its output grows by the emitted record, if any |
| Counting.IncrementCount | src/main/java/com/usaccidents/operators/AccidentAnalyzer.java:105-108 | a null key leaves the map unchanged; any other key, the empty string included, is added if absent, its count becomes old + 1 (or 1), and all other keys keep their counts |
| Counting.MapSumRemove | src/main/java/com/usaccidents/operators/AccidentAnalyzer.java:105-108 | the sum of a map's counts is one key's count plus the sum of the rest |
| Counting.MapSumIncrement | src/main/java/com/usaccidents/operators/AccidentAnalyzer.java:105-108 | an increment adds 1 to the sum of the counts exactly when the key is not null |
| Counting.CountWithinSum | src/main/java/com/usaccidents/operators/AccidentAnalyzer.java:105-108 | no key's count exceeds the sum |
| Ordering.StrLessIrreflexive | src/main/java/com/usaccidents/operators/AccidentAnalyzer.java:123-124 | `String.compareTo` order: no string is below itself |
| Ordering.StrLessTransitive | src/main/java/com/usaccidents/operators/AccidentAnalyzer.java:123-124 | the order is transitive |
| Ordering.StrLessTotal | src/main/java/com/usaccidents/operators/AccidentAnalyzer.java:123-124 | any two distinct strings are ordered |
| Ordering.CommonPrefix | src/main/java/com/usaccidents/operators/AccidentAnalyzer.java:123-124 | the longest common prefix of two strings, after which they differ or one ends |
| Ordering.StrLessIsCompareTo | src/main/java/com/usaccidents/operators/AccidentAnalyzer.java:123-124 | `a` sorts before `b` exactly when `compareTo` is negative: `a` is a proper prefix of `b`, or at the first difference `a`'s character is smaller |
| Ordering.StrLessIsStrictTotalOrder | src/main/java/com/usaccidents/operators/AccidentAnalyzer.java:123-124 | the string order is a strict total order, so a `TreeMap` over it is well defined |
| Ordering.IntLessIsStrictTotalOrder | src/main/java/com/usaccidents/operators/AccidentAnalyzer.java:125 | so is the `Integer` order |
| Ordering.KeysOfSnoc | src/main/java/com/usaccidents/operators/AccidentAnalyzer.java:123-125 | the keys of an extended entry list gain the new key |
| Ordering.DistinctKeysCount | src/main/java/com/usaccidents/operators/AccidentAnalyzer.java:123-125 | strictly increasing entries have pairwise distinct keys |
| Ordering.SubsetOfSameSize | src/main/java/com/usaccidents/operators/AccidentAnalyzer.java:123-125 | a subset as large as its superset equals it |
| Ordering.SortedCopyHasEveryKey | src/main/java/com/usaccidents/operators/AccidentAnalyzer.java:123-125 | a sorted copy holds exactly the map's keys |
| Ordering.MinimumExists | src/main/java/com/usaccidents/operators/AccidentAnalyzer.java:123-125 | every non-empty finite key set has a least key |
| Ordering.SortedCopy | src/main/java/com/usaccidents/operators/AccidentAnalyzer.java:123-125 | `new TreeMap<>(map)`: the entries are strictly increasing by key, and each pairs a key with its count |
| Analyzer.TimeBlock | src/main/java/com/usaccidents/operators/AccidentAnalyzer.java:74-82 | a negative hour has no bucket, and every other hour has one |
| Analyzer.TimeBlockBySixHours | src/main/java/com/usaccidents/operators/AccidentAnalyzer.java:74-82 | the bucket is the hour divided by 6, with every hour from 18 on in "Evening (18-24)" |
| Analyzer.Percentage | src/main/java/com/usaccidents/operators/AccidentAnalyzer.java:142-144 | 0 when the total is not positive; otherwise between 0 and 100 for a part within the total, and 100 for the whole |
| Analyzer.NoAccidentsIsConsistent | src/main/java/com/usaccidents/operators/AccidentAnalyzer.java:27-40 | fresh counters satisfy the counter invariant |
| Analyzer.CountKeepsConsistent | src/main/java/com/usaccidents/operators/AccidentAnalyzer.java:59-103 | `processAccident` keeps the invariant: severity counts sum to the total; the other maps sum to at most the total; each classification counter lies between 0 and the total; only the four buckets appear |
| Analyzer.CountAddsOne | src/main/java/com/usaccidents/operators/AccidentAnalyzer.java:62-82 | an accident adds 1 to the total and 1 to the severity counts; it adds 1 to exactly one time-of-day bucket when its hour is at least 0, and to none otherwise |
| Analyzer.CountNeverDecreases | src/main/java/com/usaccidents/operators/AccidentAnalyzer.java:59-103 | no map count goes down and no key disappears; the total and the night, bad-weather, urban-area and intersection counters each rise by at most one per accident, and a classification counter rises exactly when the accident is present and its classification holds |
| Analyzer.CountAllIsCumulative | src/main/java/com/usaccidents/operators/AccidentAnalyzer.java:45-48 | after a stream of accidents the total grew by the number of non-null ones, and the invariant holds |
| Analyzer.AccidentAnalyzer.constructor | src/main/java/com/usaccidents/operators/AccidentAnalyzer.java:27-40 | empty counters, a 60000 ms window, last emission at 0 |
| Analyzer.AccidentAnalyzer.Setup | src/main/java/com/usaccidents/operators/AccidentAnalyzer.java:55-57 | the last emission time becomes the current time; nothing else changes |
| Analyzer.AccidentAnalyzer.SetWindowDurationMillis | src/main/java/com/usaccidents/operators/AccidentAnalyzer.java:146-148 | sets the window and nothing else |
| Analyzer.AccidentAnalyzer.ProcessAccident | src/main/java/com/usaccidents/operators/AccidentAnalyzer.java:59-103 | the counters become `Count` of the old ones (unchanged for null), and nothing is emitted |
| Analyzer.AccidentAnalyzer.EmitResults | src/main/java/com/usaccidents/operators/AccidentAnalyzer.java:118-140 | one snapshot of the current counters is appended to the output; no counter is reset |
| Analyzer.AccidentAnalyzer.CheckWindowEmit | src/main/java/com/usaccidents/operators/AccidentAnalyzer.java:110-116 | it emits a snapshot and sets the last emission time to `now` exactly when `now - last >= window`; otherwise nothing changes; counters are never reset |
| Analyzer.AccidentAnalyzer.OnAccident | src/main/java/com/usaccidents/operators/AccidentAnalyzer.java:45-48 | the input port counts the accident, then checks the window once |
| Json.EscapeAppend | src/main/java/com/usaccidents/io/OutputWriter.java:89-118 | escaping works character by character, in order |
| Json.EscapeIdentity | src/main/java/com/usaccidents/io/OutputWriter.java:89-118 | a string with none of the seven characters is unchanged |
| Json.UnescapeEscape | src/main/java/com/usaccidents/operators/AccidentOutputOperator.java:151-184 | decoding the escaped text by the escapes of section 7 of RFC 8259 gives back the original string |
| Json.EscapeKeepsRawControls | src/main/java/com/usaccidents/operators/AccidentOutputOperator.java:154-183 | the control characters in the output are exactly those of the input that have no two-character escape |
| Json.EscapeIsStrictIff | src/main/java/com/usaccidents/operators/AccidentOutputOperator.java:151-184 | the output is valid string contents under section 7 of RFC 8259 exactly when the input has no control character other than `\b \f \n \r \t` |
| Json.RawControlPassesThrough | src/main/java/com/usaccidents/operators/AccidentOutputOperator.java:154-183 | U+001F passes through unescaped and makes the output invalid |
| Json.TopLevelKeyNotEscaped | src/main/java/com/usaccidents/io/OutputWriter.java:47 | a top-level key is written as it is |
| Json.NestedKeyEscaped | src/main/java/com/usaccidents/io/OutputWriter.java:75 | a nested map key is escaped |
| Json.EscapeLength | src/main/java/com/usaccidents/io/OutputWriter.java:86-119 | each escaped character adds exactly one character |
| Json.EscapeUnchangedIff | src/main/java/com/usaccidents/operators/AccidentOutputOperator.java:112 | escaping changes a key exactly when it holds one of the seven characters, so top-level and nested keys differ exactly then |
| JsonBuilder.OutputFileNameInjective | src/main/java/com/usaccidents/io/OutputWriter.java:35-36 | the file name `accidents-analysis-` + timestamp + `.json` determines the timestamp: two names are equal exactly when their timestamps are |
| JsonBuilder.EscapeJsonString | src/main/java/com/usaccidents/operators/AccidentOutputOperator.java:151-184 | the character loop gives the escaping function, with "" for null |
| JsonBuilder.AppendMember | src/main/java/com/usaccidents/io/OutputWriter.java:43-48 | writing `,\n` before every entry but the first builds the `,\n`-joined list |
| JsonBuilder.AppendJsonValue | src/main/java/com/usaccidents/operators/AccidentOutputOperator.java:126-149 | appends exactly the value's rendering: `null`; a number's or boolean's text; a quoted, escaped string; a nested map; a quoted, escaped `toString` |
| JsonBuilder.AppendJsonMap | src/main/java/com/usaccidents/io/OutputWriter.java:68-79 | appends `{\n`, the entries with escaped keys joined by `,\n`, then `\n  }` |
| JsonBuilder.BuildDocument | src/main/java/com/usaccidents/operators/AccidentOutputOperator.java:105-116 | the document is `{\n`, the entries with unescaped keys joined by `,\n`, then `\n}\n` |
| OutputOperator.AccidentOutputOperator.constructor | src/main/java/com/usaccidents/operators/AccidentOutputOperator.java:25-28 | directory `/tmp/usaccidents-output`, a one-hour rotation interval, no writer |
| OutputOperator.AccidentOutputOperator.SetOutputDirectory | src/main/java/com/usaccidents/operators/AccidentOutputOperator.java:186-188 | sets the directory and nothing else |
| OutputOperator.AccidentOutputOperator.SetFileRotateInterval | src/main/java/com/usaccidents/operators/AccidentOutputOperator.java:190-192 | sets the interval and nothing else |
| OutputOperator.AccidentOutputOperator.CreateNewOutputFile | src/main/java/com/usaccidents/operators/AccidentOutputOperator.java:78-83 | on success, a new empty file named from the clock is opened as the writer; on failure nothing changes |
| OutputOperator.AccidentOutputOperator.CloseWriter | src/main/java/com/usaccidents/operators/AccidentOutputOperator.java:85-95 | the writer is dropped only when there was one and closing succeeded |
| OutputOperator.AccidentOutputOperator.CheckFileRotation | src/main/java/com/usaccidents/operators/AccidentOutputOperator.java:65-76 | it rotates exactly when `now - last >= interval`; `lastFileRotateTime` becomes `now` only when the new file was created |
| OutputOperator.AccidentOutputOperator.WriteResults | src/main/java/com/usaccidents/operators/AccidentOutputOperator.java:97-123 | with no writer, or a failed write, nothing is written; otherwise the JSON document is appended to the open file |
| OutputOperator.AccidentOutputOperator.Process | src/main/java/com/usaccidents/operators/AccidentOutputOperator.java:33-36 | the whole new state of the port: the rotation's files and writer (a new file named after `now` after a due, successful rotation; `null` after a due rotation that closed the writer but failed to create a file), then the JSON document appended to the file open after the rotation when the write succeeds; the rotation time moves only on a due, successful rotation |
| OutputOperator.AccidentOutputOperator.Setup | src/main/java/com/usaccidents/operators/AccidentOutputOperator.java:40-58 | without a usable directory nothing changes; with one the rotation time becomes `now`, and a first file is opened when creation succeeds, else files and writer stay as they were; success exactly when both steps worked |
| OutputOperator.AccidentOutputOperator.Teardown | src/main/java/com/usaccidents/operators/AccidentOutputOperator.java:61-63 | closes the writer (it becomes `null` only on a successful close); files, directory, interval and rotation time are unchanged |
| ResultsWriter.OutputWriter.constructor | src/main/java/com/usaccidents/io/OutputWriter.java:24-26 | keeps the output directory |
| ResultsWriter.OutputWriter.WriteResults | src/main/java/com/usaccidents/io/OutputWriter.java:34-58 | a file exists exactly when it can be opened, in the directory and named from the timestamp; it holds the same JSON document as the operator writes for the same results when writing succeeds, and a prefix of it otherwise; the call fails exactly when opening or writing does |
| CsvValidator.FirstNamedFrom | src/main/java/com/usaccidents/utils/CSVValidator.java:106-113 | the first header from a point on whose quote-stripped, trimmed text equals the name ignoring case, or -1 |
| CsvValidator.FindHeaderIndex | src/main/java/com/usaccidents/utils/CSVValidator.java:106-113 | -1 exactly when no header matches; otherwise an index in range that matches, and no earlier one does (first match wins) |
| CsvValidator.TrimPadded | src/main/java/com/usaccidents/utils/CSVValidator.java:108 | trimming strips blank padding around a core with untrimmable ends |
| CsvValidator.TrimSplits | src/main/java/com/usaccidents/utils/CSVValidator.java:108 | a string is its blank lead, its trimmed middle and its blank tail |
| CsvValidator.QuotesInsidePadding | src/main/java/com/usaccidents/utils/CSVValidator.java:108 | removing quotes and then trimming discards the padding whatever quotes it holds |
| CsvValidator.NormalisationsAgree | src/main/java/com/usaccidents/utils/CSVValidator.java:108 | the validator's remove-then-trim agrees with the parsers' trim-then-remove whenever the latter leaves no trimmable end |
| CsvValidator.QuotedPaddedHeader | src/main/java/com/usaccidents/utils/CSVValidator.java:108 | the header `" NAME"` loses its quotes but keeps the inner space under the parsers' cleaning |
| CsvValidator.QuotedPaddingDiffers | src/main/java/com/usaccidents/utils/CSVValidator.java:108 | the header `" NAME"` names column NAME for the validator but not for the parsers |
| CsvValidator.LineReader.constructor | src/main/java/com/usaccidents/utils/CSVValidator.java:34 | a reader at the first line |
| CsvValidator.LineReader.ReadLine | src/main/java/com/usaccidents/utils/CSVValidator.java:56 | `readLine` gives the next line and advances by one, or null at the end without moving |
| CsvValidator.SampleRow | src/main/java/com/usaccidents/utils/CSVValidator.java:58-79 | the sample of a row: its field count and its ID, severity and state fields |
| CsvValidator.SampleRows | src/main/java/com/usaccidents/utils/CSVValidator.java:53-80 | the sample loop as written samples the first min(n, 5) data rows, and with more than 5 rows it has consumed a sixth line |
| CsvValidator.CountRemainingRows | src/main/java/com/usaccidents/utils/CSVValidator.java:85-91 | the counting loop adds one per remaining line and reaches the end |
| CsvValidator.SampleAppended | src/main/java/com/usaccidents/utils/CSVValidator.java:53-80 | one more sampled row extends the sample list by its sample |
| CsvValidator.ValidateCsvFile | src/main/java/com/usaccidents/utils/CSVValidator.java:31-104 | an empty file is the error "CSV file is empty", and only then; otherwise the report gives the header's column count and names and the first samples, with total n for n ≤ 5 data rows and n - 1 above |
| CsvValidator.ReportedRowsOffByOne | src/main/java/com/usaccidents/utils/CSVValidator.java:85-91 | 6 data rows are reported as 5, and every n > 5 as n - 1 |
| CsvValidator.SampleRowsCorrected | src/main/java/com/usaccidents/utils/CSVValidator.java:53-80 | the same samples, consuming only the sampled lines |
| CsvValidator.ValidateCsvFileCorrected | src/main/java/com/usaccidents/utils/CSVValidator.java:31-104 | the same report with every data row counted |
| HiveExport.CollectValues | src/main/java/com/usaccidents/hive/USAccidentsHiveDataProcessor.java:565-573 | the value loop builds exactly the encoded values |
| HiveExport.RowLinesSnoc | src/main/java/com/usaccidents/hive/USAccidentsHiveDataProcessor.java:564-575 | one more row appends its line |
| HiveExport.SaveTableToCsv | src/main/java/com/usaccidents/hive/USAccidentsHiveDataProcessor.java:543-578 | an empty result gives empty contents; otherwise the first row's keys joined by `,` and `\n`, then one `,`-joined line per row |
| HiveExport.OccurrencesAppend | src/main/java/com/usaccidents/hive/USAccidentsHiveDataProcessor.java:574 | occurrence counts add up over concatenation |
| HiveExport.OccurrencesAbsent | src/main/java/com/usaccidents/hive/USAccidentsHiveDataProcessor.java:574 | a character not present occurs zero times |
| HiveExport.JoinAvoids | src/main/java/com/usaccidents/hive/USAccidentsHiveDataProcessor.java:574 | joining pieces without a character by a separator without it gives text without it |
| HiveExport.OneLine | src/main/java/com/usaccidents/hive/USAccidentsHiveDataProcessor.java:561 | a joined line without line feeds, plus `\n`, holds one line feed |
| HiveExport.RowLineIsOneLine | src/main/java/com/usaccidents/hive/USAccidentsHiveDataProcessor.java:574 | a row whose values hold no line feed is written as one line |
| HiveExport.RowLinesCount | src/main/java/com/usaccidents/hive/USAccidentsHiveDataProcessor.java:564-575 | the row lines hold one line feed per row |
| HiveExport.TableLineCount | src/main/java/com/usaccidents/hive/USAccidentsHiveDataProcessor.java:550-575 | with no line feeds in keys or values, a non-empty result has rows + 1 lines and an empty one has none |
| HiveExport.QuoteCountAppend | src/main/java/com/usaccidents/hive/USAccidentsHiveDataProcessor.java:569-574 | quote counts add up over concatenation |
| HiveExport.QuoteCountAbsent | src/main/java/com/usaccidents/hive/USAccidentsHiveDataProcessor.java:569-574 | quote-free text has no quotes |
| HiveExport.EncodedQuotes | src/main/java/com/usaccidents/hive/USAccidentsHiveDataProcessor.java:567-571 | an encoded quote-free value has an even number of `"`, and one with a comma is wrapped |
| HiveExport.WrappedCommaInside | src/main/java/com/usaccidents/hive/USAccidentsHiveDataProcessor.java:569-571 | inside the wrapping quotes an odd number of quotes follows every position |
| HiveExport.InsideNoSeparator | src/main/java/com/usaccidents/hive/USAccidentsHiveDataProcessor.java:569-571 | a comma inside a wrapped value is not a separator for the parsers' split |
| HiveExport.JoinedQuotesEven | src/main/java/com/usaccidents/hive/USAccidentsHiveDataProcessor.java:574 | a joined line of encoded values has an even number of quotes |
| HiveExport.FirstFieldEnds | src/main/java/com/usaccidents/hive/USAccidentsHiveDataProcessor.java:574 | the split of a joined line first stops at the comma after the first encoded value |
| HiveExport.SplitEncodedValues | src/main/java/com/usaccidents/hive/USAccidentsHiveDataProcessor.java:564-575 | with quote-free values, the parsers' split of a written row gives back exactly the encoded values |
| HiveExport.CleanWrapped | src/main/java/com/usaccidents/hive/USAccidentsHiveDataProcessor.java:569-571 | cleaning a wrapped quote-free value gives the value with its padding kept |
| HiveExport.CleanPlain | src/main/java/com/usaccidents/hive/USAccidentsHiveDataProcessor.java:567 | cleaning an unwrapped quote-free value trims it |
| HiveExport.CleanEncoded | src/main/java/com/usaccidents/hive/USAccidentsHiveDataProcessor.java:567-571 | cleaning an encoded value gives the value read back: "" for null, the value for one with a comma, its trimmed text otherwise |
| HiveExport.RowReadsBack | src/main/java/com/usaccidents/hive/USAccidentsHiveDataProcessor.java:564-575 | a written row of quote-free values splits into one field per column, each cleaning to its value read back |
| HiveExport.EmbeddedQuoteMergesFields | src/main/java/com/usaccidents/hive/USAccidentsHiveDataProcessor.java:569-571 | embedded quotes are not escaped: a row ending in a lone `"` value splits back into one field fewer |
| HiveExport.ExportPath | src/main/java/com/usaccidents/hive/USAccidentsHiveDataProcessor.java:599 | the path is the directory, the separator, the table name and `.csv`, in that order |
| HiveExport.ExportPathsDistinct | src/main/java/com/usaccidents/hive/USAccidentsHiveDataProcessor.java:599 | two tables share a path exactly when they are the same table |
| HiveExport.AnalysisExportsDistinct | src/main/java/com/usaccidents/hive/USAccidentsHiveDataProcessor.java:585-590 | the four analysis tables export to four different paths |
| HiveExport.SaveAllAnalysisTablesToCsv | src/main/java/com/usaccidents/hive/USAccidentsHiveDataProcessor.java:584-606 | all four tables are attempted in their fixed order; a table whose query fails yields nothing and the others still export, each to its path with its table's CSV |

## Left out

- 32-bit `int` and `long` arithmetic is unbounded here. A counter wrapping after 2^31 accidents and a clock difference overflowing `long` are not modelled. `Integer.parseInt`'s range check is modelled.
- Ordering.StrLessIsCompareTo: Dafny strings are sequences of Unicode scalar values, so the model orders strings by code point. Java compares UTF-16 code units. The two orders agree except that a supplementary character (above U+FFFF, two surrogate units in Java) sorts below U+E000..U+FFFF in Java and above them here; the `TreeMap` key order of `emitResults` differs from the model only for such keys.
- `String.trim` removes exactly the leading and trailing characters at or below U+0020, as `Text.Trim` does. `equalsIgnoreCase` is reduced to ASCII case folding: non-ASCII letters that Java folds together are different here.
- Text.ParseInt: accepts only the ASCII digits `0`..`9`. Java's `Integer.parseInt` also accepts any other Unicode decimal digit (such as `٣` or `３`), so a severity written with such digits is set by Java and left at 0 by the model. The sign and the 32-bit range check are modelled.
- `Double.parseDouble` is the parameter `parseDouble`. `Number.toString`, `Object.toString` and `LocalDateTime.toString` are given as text inside the values. Percentages are reals, with no floating-point rounding.
- The catch-all `catch (Exception e)` around `parseAccident` is not modelled, because no modelled step can throw once `parseDouble` and `parseInt` return an option.
- Logging, `System.out.println` and the validator's progress line every 100000 rows are dropped.
- `Accident.java` does not match what the parsers and the analyzer call, so it is not part of this model. The record is `AccidentRecord.Accident`, with one field per expected header, typed as its setter implies. The hour, day of week and four classifications the analyzer asks for are the `Analyzer.Derived` input.
- File and directory I/O are outcome parameters. These are reading lines, `mkdirs`, opening, writing, flushing and closing. `System.currentTimeMillis` is a parameter too. `createNewOutputFile` reads the clock again; the model takes that reading to be the `now` of the rotation check.
- OutputOperator.AccidentOutputOperator.WriteResults: a write that fails part-way leaves the file unchanged in the model, while in Java the file may hold a prefix of the document. The same goes for `HiveExport.SaveAllAnalysisTablesToCsv`, where a table whose export fails produces no file in the model.
- OutputOperator.AccidentOutputOperator.CreateNewOutputFile: two files created in the same millisecond get the same name (possible with a rotation interval of 0 or less). In Java the second creation truncates that one file, and both streams write into it; the model keeps two separate entries.
- Java `HashMap` iteration order is a given sequence, and `ConcurrentHashMap` is a plain map (the aggregation path is single-threaded).
- Analyzer.AccidentAnalyzer.EmitResults: the snapshot's time-of-day and day-of-week maps are the live maps, so later counts show through in an already emitted snapshot. The model copies their values at emission, so it does not capture that aliasing.
- The five counter maps and five scalar counters of `AccidentAnalyzer` are fields of one `Tally` value held by the class, rather than ten separate fields.
- Json.UnescapeEscape: the decoder rejects `\u` escapes, since `escapeJsonString` never produces them.
- The Hive query itself (`executeQuery`), table loading, HDFS and JDBC plumbing, the HiveQL texts and the application wiring are outside the modelled logic. The result rows of a query are the input `tableResults`, with a query failure as `None`.
- HiveExport.RowReadsBack: stated only for values without `"`. The writer does not escape embedded quotes, so a value holding one can merge fields on reading back; HiveExport.EmbeddedQuoteMergesFields exhibits this.
- HiveExport.TableLineCount: stated only for keys and values without line feeds, since the writer does not quote line feeds.

## Findings

| source | as written | input that shows it | evidently intended | confidence | as-written member | corrected member |
|---|---|---|---|---|---|---|
| src/main/java/com/usaccidents/utils/CSVValidator.java:56 | `(line = reader.readLine()) != null && rowCount < 5` reads a sixth data line before the count test fails, so the counting loop after it never sees that line | a header followed by 6 data rows reports a total of 5 rows | every data row is counted, so 6 rows are reported as 6 | high, not executed | CsvValidator.ValidateCsvFile | CsvValidator.ValidateCsvFileCorrected |
