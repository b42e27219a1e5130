/**
 * The CSV export of the analysis tables: the text `saveTableToCSV` writes for a query result, and
 * the four exports `saveAllAnalysisTablesToCSV` runs. A query result is a sequence of rows, each
 * row its columns in the map's iteration order with the `toString` text of each value (`None` for
 * a SQL `NULL`). What happens on the Hive server and the file system comes in as parameters.
 */
module HiveExport {
  import opened Wrappers
  import opened Text
  import opened CsvSplit
  import opened AccidentRecord

  /** One row of a query result: column name and value text, in the row map's order. */
  type Row = seq<(string, Option<string>)>

  // -----------------------------------------------------------------------------------------------
  // The text of one table

  /** One value as written: `null` is empty, and a value holding a comma is wrapped in quotes.
    * Quotes already in the value are not doubled. */
  function EncodeValue(value: Option<string>): string {
    match value
    case None => ""
    case Some(s) => if ',' in s then "\"" + s + "\"" else s
  }

  function Columns(row: Row): (names: seq<string>)
    ensures |names| == |row| && forall i :: 0 <= i < |row| ==> names[i] == row[i].0
  {
    seq(|row|, i requires 0 <= i < |row| => row[i].0)
  }

  function EncodedValues(row: Row): (values: seq<string>)
    ensures |values| == |row| && forall i :: 0 <= i < |row| ==> values[i] == EncodeValue(row[i].1)
  {
    seq(|row|, i requires 0 <= i < |row| => EncodeValue(row[i].1))
  }

  /** The header line: the first row's column names joined by `,`. */
  function HeaderLine(row: Row): string {
    Join(",", Columns(row)) + "\n"
  }

  /** The line of one row: its encoded values joined by `,`. */
  function RowLine(row: Row): string {
    Join(",", EncodedValues(row)) + "\n"
  }

  /** The lines of the rows, in order. */
  function RowLines(rows: seq<Row>): string
    decreases |rows|
  {
    if rows == [] then "" else RowLines(rows[..|rows| - 1]) + RowLine(rows[|rows| - 1])
  }

  /** What `saveTableToCSV` writes: nothing for an empty result, otherwise the header line and
    * one line per row. */
  function TableCsv(results: seq<Row>): string {
    if results == [] then "" else HeaderLine(results[0]) + RowLines(results)
  }

  /** The inner loop of `saveTableToCSV`: a row's values, each converted and quoted, collected
    * into a list in the row's order. */
  method CollectValues(row: Row) returns (values: seq<string>)
    ensures values == EncodedValues(row)
  {
    values := [];
    for c := 0 to |row|
      invariant values == EncodedValues(row[..c])
    {
      var strValue := if row[c].1.Some? then row[c].1.value else "";
      if ',' in strValue {
        strValue := "\"" + strValue + "\"";
      }
      assert strValue == EncodeValue(row[c].1);
      values := values + [strValue];
    }
    assert row[..|row|] == row;
  }

  /** One more row appends its line after the text written so far. */
  lemma RowLinesSnoc(header: string, rows: seq<Row>, r: nat)
    requires r < |rows|
    ensures header + RowLines(rows[..r + 1]) == (header + RowLines(rows[..r])) + RowLine(rows[r])
  {
    assert rows[..r + 1][..r] == rows[..r];
  }

  /** `saveTableToCSV`, with the file's contents as the result: an empty result gives an empty
    * file; otherwise the header line, then each row's collected values joined as one line. */
  method SaveTableToCsv(results: seq<Row>) returns (contents: string)
    ensures contents == TableCsv(results)
  {
    if results == [] {
      return "";
    }
    contents := Join(",", Columns(results[0])) + "\n";
    var r := 0;
    while r < |results|
      invariant 0 <= r <= |results|
      invariant contents == HeaderLine(results[0]) + RowLines(results[..r])
    {
      var values := CollectValues(results[r]);
      var line := Join(",", values) + "\n";
      RowLinesSnoc(HeaderLine(results[0]), results, r);
      contents := contents + line;
      r := r + 1;
    }
    assert results[..|results|] == results;
  }

  // -----------------------------------------------------------------------------------------------
  // Lines

  /** The number of times `c` occurs in `s`. */
  function Occurrences(s: string, c: char): nat {
    if s == [] then 0 else (if s[0] == c then 1 else 0) + Occurrences(s[1..], c)
  }

  lemma {:induction false} OccurrencesAppend(a: string, b: string, c: char)
    ensures Occurrences(a + b, c) == Occurrences(a, c) + Occurrences(b, c)
  {
    if a != [] {
      assert (a + b)[0] == a[0] && (a + b)[1..] == a[1..] + b;
      OccurrencesAppend(a[1..], b, c);
    } else {
      assert a + b == b;
    }
  }

  lemma {:induction false} OccurrencesAbsent(s: string, c: char)
    requires c !in s
    ensures Occurrences(s, c) == 0
  {
    if s != [] {
      OccurrencesAbsent(s[1..], c);
    }
  }

  /** Joining texts without a character, by a separator without it, gives a text without it. */
  lemma {:induction false} JoinAvoids(sep: string, xs: seq<string>, c: char)
    requires c !in sep && forall i :: 0 <= i < |xs| ==> c !in xs[i]
    ensures c !in Join(sep, xs)
  {
    if |xs| > 1 {
      JoinAvoids(sep, xs[1..], c);
    }
  }

  /** A line ends in exactly one line break when its parts hold none. */
  lemma OneLine(parts: seq<string>)
    requires forall i :: 0 <= i < |parts| ==> '\n' !in parts[i]
    ensures Occurrences(Join(",", parts) + "\n", '\n') == 1
  {
    JoinAvoids(",", parts, '\n');
    OccurrencesAbsent(Join(",", parts), '\n');
    OccurrencesAppend(Join(",", parts), "\n", '\n');
  }

  /** No line break in any value text. */
  predicate SingleLineValues(row: Row) {
    forall i :: 0 <= i < |row| ==> row[i].1.Some? ==> '\n' !in row[i].1.value
  }

  lemma RowLineIsOneLine(row: Row)
    requires SingleLineValues(row)
    ensures Occurrences(RowLine(row), '\n') == 1
  {
    var values := EncodedValues(row);
    forall i | 0 <= i < |values|
      ensures '\n' !in values[i]
    {
      assert values[i] == EncodeValue(row[i].1);
    }
    OneLine(values);
  }

  lemma {:induction false} RowLinesCount(rows: seq<Row>)
    requires forall r :: 0 <= r < |rows| ==> SingleLineValues(rows[r])
    ensures Occurrences(RowLines(rows), '\n') == |rows|
    decreases |rows|
  {
    if rows != [] {
      var init := rows[..|rows| - 1];
      assert forall r :: 0 <= r < |init| ==> init[r] == rows[r];
      RowLinesCount(init);
      RowLineIsOneLine(rows[|rows| - 1]);
      OccurrencesAppend(RowLines(init), RowLine(rows[|rows| - 1]), '\n');
    }
  }

  /** A result with no line break in its column names or values is written as one line more
    * than it has rows: the header, then one line per row. An empty result is written as nothing. */
  lemma TableLineCount(results: seq<Row>)
    requires results != [] ==> forall i :: 0 <= i < |results[0]| ==> '\n' !in results[0][i].0
    requires forall r :: 0 <= r < |results| ==> SingleLineValues(results[r])
    ensures results == [] ==> TableCsv(results) == ""
    ensures results != [] ==> Occurrences(TableCsv(results), '\n') == |results| + 1
  {
    if results != [] {
      OneLine(Columns(results[0]));
      RowLinesCount(results);
      OccurrencesAppend(HeaderLine(results[0]), RowLines(results), '\n');
    }
  }

  // -----------------------------------------------------------------------------------------------
  // Reading a row line back with the parsers' split

  /** A value that holds no quote: the case the comma quoting works for. */
  predicate QuoteFree(value: Option<string>) {
    value.Some? ==> '"' !in value.value
  }

  lemma {:induction false} QuoteCountAppend(a: string, b: string)
    ensures QuoteCount(a + b) == QuoteCount(a) + QuoteCount(b)
  {
    if a != [] {
      assert (a + b)[0] == a[0] && (a + b)[1..] == a[1..] + b;
      QuoteCountAppend(a[1..], b);
    } else {
      assert a + b == b;
    }
  }

  lemma {:induction false} QuoteCountAbsent(s: string)
    requires '"' !in s
    ensures QuoteCount(s) == 0
  {
    if s != [] {
      QuoteCountAbsent(s[1..]);
    }
  }

  /** An encoded quote-free value holds no quote, or is wrapped in two. */
  lemma EncodedQuotes(value: Option<string>)
    requires QuoteFree(value)
    ensures QuoteCount(EncodeValue(value)) % 2 == 0
    ensures ',' in EncodeValue(value) ==> value.Some? && EncodeValue(value) == "\"" + value.value + "\""
  {
    var e := EncodeValue(value);
    if value.Some? && ',' in value.value {
      var s := value.value;
      QuoteCountAbsent(s);
      QuoteCountAppend("\"", s);
      QuoteCountAppend("\"" + s, "\"");
    } else {
      QuoteCountAbsent(e);
    }
  }

  /** No comma inside an encoded quote-free value is a separator, whatever follows it with an
    * even number of quotes. */
  lemma InsideNoSeparator(value: Option<string>, tail: string, j: nat)
    requires QuoteFree(value) && QuoteCount(tail) % 2 == 0
    requires j < |EncodeValue(value)|
    ensures !IsSeparator(EncodeValue(value) + tail, j)
  {
    var e := EncodeValue(value);
    assert (e + tail)[j] == e[j];
    if e[j] == ',' {
      EncodedQuotes(value);
      WrappedCommaInside(value.value, tail, j);
    }
  }

  /** The comma at `j` of a wrapped value is followed by exactly one quote inside the value. */
  lemma WrappedCommaInside(s: string, tail: string, j: nat)
    requires '"' !in s && QuoteCount(tail) % 2 == 0
    requires j < |s| + 2 && ("\"" + s + "\"")[j] == ','
    ensures !IsSeparator(("\"" + s + "\"") + tail, j)
  {
    var q := "\"";
    var w := q + s + q;
    var line := w + tail;
    assert 1 <= j <= |s| by {
      assert w[0] == '"' && w[|s| + 1] == '"';
    }
    var after := s[j..];
    assert w[j + 1..] == after + q;
    assert line[j + 1..] == w[j + 1..] + tail;
    assert QuoteCount(after) == 0 by {
      assert forall x :: 0 <= x < |after| ==> after[x] == s[j + x];
      QuoteCountAbsent(after);
    }
    QuoteCountAppend(after, q);
    QuoteCountAppend(after + q, tail);
    var n := QuoteCount(tail);
    assert QuoteCount(line[j + 1..]) == n + 1;
    assert (n + 1) % 2 == 1;
  }

  /** The quote count of the joined encoded values is even. */
  lemma {:induction false} JoinedQuotesEven(values: seq<Option<string>>)
    requires forall i :: 0 <= i < |values| ==> QuoteFree(values[i])
    ensures QuoteCount(Join(",", EncodedList(values))) % 2 == 0
    decreases |values|
  {
    var es := EncodedList(values);
    if |values| == 1 {
      EncodedQuotes(values[0]);
    } else if |values| > 1 {
      JoinedQuotesEven(values[1..]);
      assert es[1..] == EncodedList(values[1..]);
      EncodedQuotes(values[0]);
      QuoteCountAbsent(",");
      QuoteCountAppend(es[0], ",");
      QuoteCountAppend(es[0] + ",", Join(",", es[1..]));
    }
  }

  function EncodedList(values: seq<Option<string>>): (es: seq<string>)
    ensures |es| == |values| && forall i :: 0 <= i < |values| ==> es[i] == EncodeValue(values[i])
  {
    seq(|values|, i requires 0 <= i < |values| => EncodeValue(values[i]))
  }

  /** The split's first separator is the comma after the first encoded value, or the end of the
    * line when that value is the only one. */
  lemma FirstFieldEnds(value: Option<string>, tail: string)
    requires QuoteFree(value)
    requires tail == [] || (tail[0] == ',' && QuoteCount(tail[1..]) % 2 == 0)
    ensures FirstSeparator(EncodeValue(value) + tail, 0) == |EncodeValue(value)|
  {
    var e := EncodeValue(value);
    var line := e + tail;
    assert QuoteCount(tail) % 2 == 0 by {
      if tail != [] {
        assert tail == [tail[0]] + tail[1..];
        QuoteCountAppend([tail[0]], tail[1..]);
      }
    }
    forall j | 0 <= j < |e| ensures !IsSeparator(line, j) {
      InsideNoSeparator(value, tail, j);
    }
    if tail != [] {
      assert line[|e|] == ',' && line[|e| + 1..] == tail[1..];
      assert IsSeparator(line, |e|);
    }
  }

  /** The parsers' split of the joined encoded values gives back exactly the encoded values, one
    * field per value, as long as no value holds a quote. */
  lemma {:induction false} SplitEncodedValues(values: seq<Option<string>>)
    requires |values| >= 1
    requires forall i :: 0 <= i < |values| ==> QuoteFree(values[i])
    ensures Split(Join(",", EncodedList(values))) == EncodedList(values)
    decreases |values|
  {
    var es := EncodedList(values);
    var line := Join(",", es);
    var e := es[0];
    if |values| == 1 {
      assert line == e + "";
      FirstFieldEnds(values[0], "");
    } else {
      var rest := Join(",", es[1..]);
      assert es[1..] == EncodedList(values[1..]) by {
        assert forall i :: 0 <= i < |es| - 1 ==> es[1..][i] == es[i + 1];
      }
      assert line == e + ("," + rest);
      assert QuoteCount(("," + rest)[1..]) % 2 == 0 by {
        assert ("," + rest)[1..] == rest;
        JoinedQuotesEven(values[1..]);
      }
      FirstFieldEnds(values[0], "," + rest);
      assert line[..|e|] == e && line[|e| + 1..] == rest;
      SplitEncodedValues(values[1..]);
    }
  }

  function Values(row: Row): (values: seq<Option<string>>)
    ensures |values| == |row| && forall i :: 0 <= i < |row| ==> values[i] == row[i].1
  {
    seq(|row|, i requires 0 <= i < |row| => row[i].1)
  }

  /** What the parsers' `cleanField` makes of an encoded value: `null` comes back empty, a value
    * wrapped for its comma comes back as it was (the quotes protect its padding from the trim),
    * any other value comes back trimmed. */
  function ReadBack(value: Option<string>): string {
    match value
    case None => ""
    case Some(s) => if ',' in s then s else Trim(s)
  }

  lemma CleanWrapped(s: string)
    requires '"' !in s
    ensures Clean("\"" + s + "\"") == s
  {
    var q := "\"";
    var e := q + s + q;
    assert e[0] == '"' && e[|e| - 1] == '"';
    TrimIdentity(e);
    assert RemoveChar(q, '"') == [];
    RemoveCharAppend(q + s, q, '"');
    RemoveCharAppend(q, s, '"');
  }

  lemma CleanPlain(s: string)
    requires '"' !in s
    ensures Clean(s) == Trim(s)
  {
    var t := Trim(s);
    assert '"' !in t by {
      assert forall x :: 0 <= x < |t| ==> t[x] == s[TrimFrom(s) + x];
    }
  }

  lemma CleanEncoded(value: Option<string>)
    requires QuoteFree(value)
    ensures Clean(EncodeValue(value)) == ReadBack(value)
  {
    if value.Some? {
      if ',' in value.value {
        CleanWrapped(value.value);
      } else {
        CleanPlain(value.value);
      }
    }
  }

  /** A row line of a non-empty row with quote-free values reads back through the parsers: the
    * split yields one field per column, and cleaning each field gives `ReadBack` of its value. */
  lemma RowReadsBack(row: Row)
    requires |row| >= 1
    requires forall i :: 0 <= i < |row| ==> QuoteFree(row[i].1)
    ensures |Split(Join(",", EncodedValues(row)))| == |row|
    ensures forall i :: 0 <= i < |row| ==> Clean(Split(Join(",", EncodedValues(row)))[i]) == ReadBack(row[i].1)
  {
    var values := Values(row);
    assert EncodedValues(row) == EncodedList(values);
    SplitEncodedValues(values);
    forall i | 0 <= i < |row|
      ensures Clean(EncodeValue(row[i].1)) == ReadBack(row[i].1)
    {
      CleanEncoded(row[i].1);
    }
  }

  /** A quote in a value is not escaped, so the line no longer reads back: a value `a` followed by a
    * value `"` is written as `a,"`, and the split sees one field where two were written. */
  lemma EmbeddedQuoteMergesFields(a: string)
    requires ',' !in a && '"' !in a
    ensures EncodedList([Some(a), Some("\"")]) == [a, "\""]
    ensures Split(Join(",", [a, "\""])) == [a + ",\""]
  {
    var line := a + ",\"";
    assert Join(",", [a, "\""]) == a + "," + "\"";
    assert line == a + "," + "\"";
    assert !IsSeparator(line, |a|) by {
      assert line[|a| + 1..] == "\"";
    }
    forall j | 0 <= j < |line| ensures !IsSeparator(line, j) {
      if j < |a| {
        assert line[j] == a[j];
      }
    }
    assert FirstSeparator(line, 0) == |line|;
  }

  // -----------------------------------------------------------------------------------------------
  // saveAllAnalysisTablesToCSV

  /** The analysis tables, in the order they are exported. */
  const AnalysisTables: seq<string> := ["location_analysis", "severity_analysis", "time_analysis", "weather_analysis"]

  /** `outputDir + File.separator + table + ".csv"`. */
  function ExportPath(outputDir: string, separator: string, table: string): (path: string)
    ensures |path| == |outputDir| + |separator| + |table| + 4
    ensures path[..|outputDir| + |separator|] == outputDir + separator
    ensures path[|path| - 4..] == ".csv"
  {
    outputDir + separator + table + ".csv"
  }

  /** Different tables are exported to different files of the directory. */
  lemma ExportPathsDistinct(outputDir: string, separator: string, t1: string, t2: string)
    ensures ExportPath(outputDir, separator, t1) == ExportPath(outputDir, separator, t2) <==> t1 == t2
  {
    var p1, p2 := ExportPath(outputDir, separator, t1), ExportPath(outputDir, separator, t2);
    var n := |outputDir| + |separator|;
    if p1 == p2 {
      assert |t1| == |t2|;
      assert p1[n..n + |t1|] == t1;
      assert p2[n..n + |t2|] == t2;
    }
  }

  /** A file written by an export: its path and its contents. */
  datatype Export = Export(path: string, contents: string)

  /** `saveAllAnalysisTablesToCSV`: each of the four tables is exported in turn. `tableResults[i]`
    * is the query result of table `i`, or `None` when its query or its file fails; such a failure
    * is logged and the remaining tables are still exported. */
  method SaveAllAnalysisTablesToCsv(outputDir: string, separator: string, tableResults: seq<Option<seq<Row>>>)
    returns (outcomes: seq<Option<Export>>)
    requires |tableResults| == |AnalysisTables|
    ensures |outcomes| == |AnalysisTables|
    ensures forall i :: 0 <= i < |outcomes| ==> (outcomes[i].None? <==> tableResults[i].None?)
    ensures forall i :: 0 <= i < |outcomes| && outcomes[i].Some? ==>
      && outcomes[i].value.path == ExportPath(outputDir, separator, AnalysisTables[i])
      && outcomes[i].value.contents == TableCsv(tableResults[i].value)
  {
    outcomes := [];
    for t := 0 to |AnalysisTables|
      invariant |outcomes| == t
      invariant forall i :: 0 <= i < t ==> (outcomes[i].None? <==> tableResults[i].None?)
      invariant forall i :: 0 <= i < t && outcomes[i].Some? ==>
        && outcomes[i].value.path == ExportPath(outputDir, separator, AnalysisTables[i])
        && outcomes[i].value.contents == TableCsv(tableResults[i].value)
    {
      var table := AnalysisTables[t];
      var outputPath := outputDir + separator + table + ".csv";
      match tableResults[t] {
        case None =>
          outcomes := outcomes + [None];
        case Some(results) =>
          var contents := SaveTableToCsv(results);
          outcomes := outcomes + [Some(Export(outputPath, contents))];
      }
    }
  }

  /** The four exports go to four different files. */
  lemma AnalysisExportsDistinct(outputDir: string, separator: string, i: nat, j: nat)
    requires i < j < |AnalysisTables|
    ensures ExportPath(outputDir, separator, AnalysisTables[i]) != ExportPath(outputDir, separator, AnalysisTables[j])
  {
    ExportPathsDistinct(outputDir, separator, AnalysisTables[i], AnalysisTables[j]);
    assert AnalysisTables[i] != AnalysisTables[j] by {
      assert AnalysisTables[i][0] != AnalysisTables[j][0] || |AnalysisTables[i]| != |AnalysisTables[j]|;
    }
  }
}
