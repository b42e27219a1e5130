/**
 * `CSVValidator.validateCSVFile`: reads the header line, samples the first data rows, then counts
 * the rest; and `findHeaderIndex`, which locates a column by name. The file is a sequence of
 * lines read through a `LineReader`; what the validator prints is returned as a report.
 */
module CsvValidator {
  import opened Wrappers
  import opened Text
  import opened CsvSplit
  import opened AccidentRecord

  /** How the validator normalises a header or a field: quotes removed first, then trimmed. */
  function ValidatorName(h: string): string {
    Trim(RemoveQuotes(h))
  }

  /** The header names the column `name`, ignoring case. */
  predicate NamesColumn(h: string, name: string) {
    EqualsIgnoreCase(ValidatorName(h), name)
  }

  /** The first header at or after `from` naming the column, or -1. */
  function FirstNamedFrom(headers: seq<string>, name: string, from: nat): (k: int)
    requires from <= |headers|
    ensures k == -1 || (from <= k < |headers| && NamesColumn(headers[k], name))
    ensures forall i :: from <= i < |headers| && (k == -1 || i < k) ==> !NamesColumn(headers[i], name)
    decreases |headers| - from
  {
    if from == |headers| then -1
    else if NamesColumn(headers[from], name) then from
    else FirstNamedFrom(headers, name, from + 1)
  }

  /** `findHeaderIndex`: the first header naming the column, or -1 when none does. */
  method FindHeaderIndex(headers: seq<string>, headerName: string) returns (index: int)
    ensures index == -1 <==> forall i :: 0 <= i < |headers| ==> !NamesColumn(headers[i], headerName)
    ensures index != -1 ==> 0 <= index < |headers| && NamesColumn(headers[index], headerName)
    ensures forall i :: 0 <= i < index ==> !NamesColumn(headers[i], headerName)
    ensures index == FirstNamedFrom(headers, headerName, 0)
  {
    for i := 0 to |headers|
      invariant forall k :: 0 <= k < i ==> !NamesColumn(headers[k], headerName)
      invariant FirstNamedFrom(headers, headerName, 0) == FirstNamedFrom(headers, headerName, i)
    {
      if EqualsIgnoreCase(Trim(RemoveQuotes(headers[i])), headerName) {
        return i;
      }
    }
    return -1;
  }

  // -----------------------------------------------------------------------------------------------
  // The validator and the parsers normalise headers differently

  /** Trimming text padded on both sides with trimmable characters gives back the text, when the
    * text itself has nothing to trim at its ends. */
  lemma TrimPadded(lead: string, y: string, trail: string)
    requires IsBlank(lead) && IsBlank(trail)
    requires y == [] || (!IsTrimmable(y[0]) && !IsTrimmable(y[|y| - 1]))
    ensures Trim(lead + y + trail) == y
  {
    var s := lead + y + trail;
    if y == [] {
      assert IsBlank(s);
      TrimEmpty(s);
    } else {
      assert s[|lead|] == y[0];
      assert s[|lead| + |y| - 1] == y[|y| - 1];
      assert TrimFrom(s) == |lead|;
      assert TrimTo(s) == |lead| + |y|;
      assert s[|lead|..|lead| + |y|] == y;
    }
  }

  /** Whenever the parsers' cleaned header has nothing to trim at its ends, the validator sees the
    * same name: removing quotes and trimming commute except where quotes wrap padding. */
  lemma NormalisationsAgree(h: string)
    requires Clean(h) == [] || (!IsTrimmable(Clean(h)[0]) && !IsTrimmable(Clean(h)[|Clean(h)| - 1]))
    ensures ValidatorName(h) == Clean(h)
  {
    TrimSplits(h);
    QuotesInsidePadding(h[..TrimFrom(h)], Trim(h), h[TrimTo(h)..]);
  }

  /** A text is its trim with trimmable padding on both sides. */
  lemma TrimSplits(h: string)
    ensures h == h[..TrimFrom(h)] + Trim(h) + h[TrimTo(h)..]
    ensures IsBlank(h[..TrimFrom(h)]) && IsBlank(h[TrimTo(h)..])
  {
    var f, t := TrimFrom(h), TrimTo(h);
    assert forall i :: 0 <= i < f ==> h[..f][i] == h[i];
    assert forall i :: 0 <= i < |h| - t ==> h[t..][i] == h[t + i];
  }

  /** Quotes removed from text between trimmable padding leave the padding in place. */
  lemma QuotesInsidePadding(lead: string, middle: string, trail: string)
    requires IsBlank(lead) && IsBlank(trail)
    requires var c := RemoveQuotes(middle); c == [] || (!IsTrimmable(c[0]) && !IsTrimmable(c[|c| - 1]))
    ensures Trim(RemoveQuotes(lead + middle + trail)) == RemoveQuotes(middle)
  {
    var cleaned := RemoveQuotes(middle);
    assert RemoveQuotes(lead + middle + trail) == lead + cleaned + trail by {
      assert '"' !in lead && '"' !in trail;
      RemoveCharAppend(lead + middle, trail, '"');
      RemoveCharAppend(lead, middle, '"');
    }
    TrimPadded(lead, cleaned, trail);
  }

  /** The header `" name"`, quotes included: removing its quotes leaves the padding in, and
    * trimming it removes nothing. */
  lemma QuotedPaddedHeader(name: string)
    requires name != [] && '"' !in name
    ensures RemoveQuotes("\"" + " " + name + "\"") == " " + name
    ensures Trim("\"" + " " + name + "\"") == "\"" + " " + name + "\""
  {
    var q, padded := "\"", " " + name;
    var h := "\"" + " " + name + "\"";
    assert h == q + padded + q;
    assert RemoveChar(q, '"') == [];
    assert '"' !in padded;
    RemoveCharAppend(q + padded, q, '"');
    RemoveCharAppend(q, padded, '"');
    assert h[0] == '"' && h[|h| - 1] == '"';
    TrimIdentity(h);
  }

  /** Where the quotes wrap the padding the two differ: the validator finds the column `name` in a
    * header `" name"` (quotes included), the parsers do not. */
  lemma QuotedPaddingDiffers(name: string)
    requires name != [] && !IsTrimmable(name[0]) && !IsTrimmable(name[|name| - 1])
    requires '"' !in name
    ensures NamesColumn("\"" + " " + name + "\"", name)
    ensures !EqualsIgnoreCase(name, Clean("\"" + " " + name + "\""))
  {
    QuotedPaddedHeader(name);
    TrimPadded(" ", name, "");
    assert " " + name + "" == " " + name;
    EqualsIgnoreCaseEquivalence(name, name, name);
  }

  // -----------------------------------------------------------------------------------------------
  // validateCSVFile

  /** A `BufferedReader` over the lines of a file. */
  class LineReader {
    const lines: seq<string>
    var position: nat

    ghost predicate Valid()
      reads this
    {
      position <= |lines|
    }

    constructor (lines: seq<string>)
      ensures Valid() && this.lines == lines && position == 0
    {
      this.lines := lines;
      position := 0;
    }

    /** `readLine`: the next line, or none (`null`) once every line has been read. */
    method ReadLine() returns (line: Option<string>)
      requires Valid()
      modifies this
      ensures Valid()
      ensures old(position) < |lines| ==> line == Some(lines[old(position)]) && position == old(position) + 1
      ensures old(position) == |lines| ==> line == None && position == old(position)
    {
      if position == |lines| {
        return None;
      }
      line := Some(lines[position]);
      position := position + 1;
    }
  }

  /** What the validator prints for a sampled row: its field count and its ID, severity and state
    * fields, normalised, when the header names them and the row has them. */
  datatype Sample = Sample(fieldCount: nat, id: Option<string>, severity: Option<string>, state: Option<string>)

  /** What the validator prints for a file. */
  datatype Report = Report(columnCount: nat, headerNames: seq<string>, samples: seq<Sample>, totalRows: int)

  const SampleSize: nat := 5

  function SampleField(headers: seq<string>, fields: seq<string>, name: string): Option<string> {
    var k := FirstNamedFrom(headers, name, 0);
    if 0 <= k < |fields| then Some(ValidatorName(fields[k])) else None
  }

  function SampleOf(headers: seq<string>, line: string): Sample {
    var fields := Split(line);
    Sample(|fields|, SampleField(headers, fields, "ID"), SampleField(headers, fields, "Severity"),
           SampleField(headers, fields, "State"))
  }

  function HeaderNames(headers: seq<string>): (names: seq<string>)
    ensures |names| == |headers|
    ensures forall i :: 0 <= i < |headers| ==> names[i] == ValidatorName(headers[i])
  {
    seq(|headers|, i requires 0 <= i < |headers| => ValidatorName(headers[i]))
  }

  /** The report on a file of header and data lines, with the first `min(n, 5)` rows sampled and
    * `total` for the row count. */
  predicate Reports(r: Report, lines: seq<string>, total: int)
    requires |lines| > 0
  {
    var headers := Split(lines[0]);
    var n := |lines| - 1;
    && r.columnCount == |headers|
    && r.headerNames == HeaderNames(headers)
    && |r.samples| == (if n <= SampleSize then n else SampleSize)
    && (forall i :: 0 <= i < |r.samples| ==> r.samples[i] == SampleOf(headers, lines[i + 1]))
    && r.totalRows == total
  }

  /** The row count `validateCSVFile` reports for `n` data rows. The sampling loop reads a line
    * before testing whether the sample is full, so once five rows are sampled a sixth line is
    * read and then dropped: from six rows on, one row goes uncounted. */
  function ReportedRows(n: nat): nat {
    if n <= SampleSize then n else n - 1
  }

  /** The row count is off by one: a file with six data rows is reported to have five. */
  lemma ReportedRowsOffByOne()
    ensures ReportedRows(6) == 5
    ensures forall n: nat :: n > SampleSize ==> ReportedRows(n) == n - 1
  {
  }

  /** Sample one data row, as the body of the sampling loop does. */
  method SampleRow(headers: seq<string>, line: string) returns (sample: Sample)
    ensures sample == SampleOf(headers, line)
  {
    var fields := Split(line);
    var idIndex := FindHeaderIndex(headers, "ID");
    var severityIndex := FindHeaderIndex(headers, "Severity");
    var stateIndex := FindHeaderIndex(headers, "State");
    var id := if 0 <= idIndex < |fields| then Some(Trim(RemoveQuotes(fields[idIndex]))) else None;
    var severity := if 0 <= severityIndex < |fields| then Some(Trim(RemoveQuotes(fields[severityIndex]))) else None;
    var state := if 0 <= stateIndex < |fields| then Some(Trim(RemoveQuotes(fields[stateIndex]))) else None;
    sample := Sample(|fields|, id, severity, state);
  }

  /** The counting loop: one more row for every line still to be read. */
  method CountRemainingRows(reader: LineReader, rowCount: int) returns (totalRows: int)
    requires reader.Valid()
    modifies reader
    ensures reader.Valid() && reader.position == |reader.lines|
    ensures totalRows == rowCount + |reader.lines| - old(reader.position)
  {
    totalRows := rowCount;
    var next := reader.ReadLine();
    while next.Some?
      invariant reader.Valid() && old(reader.position) <= reader.position
      invariant next.Some? ==> totalRows == rowCount + reader.position - 1 - old(reader.position)
      invariant next.None? ==> totalRows == rowCount + reader.position - old(reader.position) && reader.position == |reader.lines|
      decreases |reader.lines| - reader.position, next.Some?
    {
      totalRows := totalRows + 1;
      next := reader.ReadLine();
    }
  }

  /** The samples so far, and the sample of the next line after them. */
  lemma SampleAppended(headers: seq<string>, lines: seq<string>, start: nat, samples: seq<Sample>, sample: Sample)
    requires start + |samples| < |lines|
    requires forall i :: 0 <= i < |samples| ==> samples[i] == SampleOf(headers, lines[start + i])
    requires sample == SampleOf(headers, lines[start + |samples|])
    ensures forall i :: 0 <= i < |samples| + 1 ==> (samples + [sample])[i] == SampleOf(headers, lines[start + i])
  {
  }

  /** The sampling loop as written: `(line = reader.readLine()) != null && rowCount < 5`. The
    * line is read before the sample size is tested, so when more than five rows remain a sixth
    * line is consumed without being sampled. */
  method SampleRows(reader: LineReader, headers: seq<string>) returns (rowCount: nat, samples: seq<Sample>)
    requires reader.Valid()
    modifies reader
    ensures reader.Valid()
    ensures var n := |reader.lines| - old(reader.position);
      && rowCount == (if n <= SampleSize then n else SampleSize)
      && reader.position == (if n <= SampleSize then |reader.lines| else old(reader.position) + SampleSize + 1)
    ensures |samples| == rowCount
    ensures forall i :: 0 <= i < rowCount ==> samples[i] == SampleOf(headers, reader.lines[old(reader.position) + i])
  {
    ghost var start, lines := reader.position, reader.lines;
    rowCount := 0;
    samples := [];
    var line := reader.ReadLine();
    while line.Some? && rowCount < SampleSize
      invariant reader.Valid() && reader.lines == lines && 0 <= rowCount <= SampleSize
      invariant line.Some? ==> reader.position == start + rowCount + 1 && line.value == lines[start + rowCount]
      invariant line.None? ==> reader.position == |lines| == start + rowCount
      invariant |samples| == rowCount
      invariant forall i :: 0 <= i < rowCount ==> samples[i] == SampleOf(headers, lines[start + i])
      decreases |lines| - rowCount
    {
      var sample := SampleRow(headers, line.value);
      SampleAppended(headers, lines, start, samples, sample);
      samples := samples + [sample];
      rowCount := rowCount + 1;
      line := reader.ReadLine();
    }
  }

  /** `validateCSVFile` as written: an empty file is an error; otherwise at most five rows are
    * sampled, and the total is `ReportedRows` of the number of data rows. */
  method ValidateCsvFile(lines: seq<string>) returns (r: Result<Report>)
    ensures lines == [] <==> r.Err?
    ensures r.Err? ==> r.message == "CSV file is empty"
    ensures r.Ok? ==> Reports(r.value, lines, ReportedRows(|lines| - 1))
  {
    var reader := new LineReader(lines);
    var headerLine := reader.ReadLine();
    if headerLine.None? {
      return Err("CSV file is empty");
    }
    var headers := Split(headerLine.value);
    var headerNames := HeaderNames(headers);
    var rowCount, samples := SampleRows(reader, headers);
    var totalRows := CountRemainingRows(reader, rowCount);
    return Ok(Report(|headers|, headerNames, samples, totalRows));
  }

  /** The sampling loop with the sample size tested before a line is read. */
  method SampleRowsCorrected(reader: LineReader, headers: seq<string>) returns (rowCount: nat, samples: seq<Sample>)
    requires reader.Valid()
    modifies reader
    ensures reader.Valid()
    ensures var n := |reader.lines| - old(reader.position);
      rowCount == (if n <= SampleSize then n else SampleSize)
    ensures reader.position == old(reader.position) + rowCount
    ensures |samples| == rowCount
    ensures forall i :: 0 <= i < rowCount ==> samples[i] == SampleOf(headers, reader.lines[old(reader.position) + i])
  {
    ghost var start, lines := reader.position, reader.lines;
    rowCount := 0;
    samples := [];
    while rowCount < SampleSize
      invariant reader.Valid() && reader.lines == lines && 0 <= rowCount <= SampleSize
      invariant reader.position == start + rowCount
      invariant |samples| == rowCount
      invariant forall i :: 0 <= i < rowCount ==> samples[i] == SampleOf(headers, lines[start + i])
    {
      var line := reader.ReadLine();
      if line.None? {
        break;
      }
      var sample := SampleRow(headers, line.value);
      SampleAppended(headers, lines, start, samples, sample);
      samples := samples + [sample];
      rowCount := rowCount + 1;
    }
  }

  /** `validateCSVFile` with the sampling loop testing the sample size before reading: every
    * data row is counted. */
  method ValidateCsvFileCorrected(lines: seq<string>) returns (r: Result<Report>)
    ensures lines == [] <==> r.Err?
    ensures r.Err? ==> r.message == "CSV file is empty"
    ensures r.Ok? ==> Reports(r.value, lines, |lines| - 1)
  {
    var reader := new LineReader(lines);
    var headerLine := reader.ReadLine();
    if headerLine.None? {
      return Err("CSV file is empty");
    }
    var headers := Split(headerLine.value);
    var headerNames := HeaderNames(headers);
    var rowCount, samples := SampleRowsCorrected(reader, headers);
    var totalRows := CountRemainingRows(reader, rowCount);
    return Ok(Report(|headers|, headerNames, samples, totalRows));
  }
}
