/**
 * `CSVParser`, the standalone file parser: `parseCSVFile` reads the lines of one file, keeps the
 * header flag in a local variable and hands every decoded record to its consumer. The
 * column-index table is a field of the parser and survives from one file to the next.
 */
module CsvFileParser {
  import opened Wrappers
  import opened Text
  import opened CsvSplit
  import opened AccidentRecord
  import opened ColumnLayout
  import opened RecordDecoder

  /** The lines `BufferedReader.readLine` returns, none of them `null`. */
  function Present(lines: seq<string>): (r: seq<Option<string>>)
    ensures |r| == |lines|
    ensures forall i :: 0 <= i < |lines| ==> r[i] == Some(lines[i])
  {
    seq(|lines|, i requires 0 <= i < |lines| => Some(lines[i]))
  }

  class CsvParser {
    const columnIndices: array<int>
    /** `Double.parseDouble`, `None` standing for its `NumberFormatException`. */
    const parseDouble: string -> Option<real>

    predicate Valid()
      reads this
    {
      columnIndices.Length == ColumnCount
    }

    /** `new CSVParser()`: `new int[EXPECTED_HEADERS.length]`, all zero. */
    constructor (parseDouble: string -> Option<real>)
      ensures Valid() && fresh(columnIndices) && this.parseDouble == parseDouble
      ensures forall j :: 0 <= j < ColumnCount ==> columnIndices[j] == 0
    {
      this.parseDouble := parseDouble;
      columnIndices := new int[ColumnCount](_ => 0);
    }

    /** `parseCSVFile`: the records handed to the consumer, in order, are those of decoding the
      * file's lines from a fresh header flag. */
    method ParseCsvFile(lines: seq<string>) returns (records: seq<Accident>)
      requires Valid()
      modifies columnIndices
      ensures var run := Decode(DecoderState(false, old(columnIndices[..])), Present(lines), parseDouble);
              records == run.records && columnIndices[..] == run.final.layout
    {
      ghost var start := DecoderState(false, columnIndices[..]);
      ghost var present := Present(lines);
      var headersProcessed := false;
      records := [];
      assert present[..0] == [];
      for i := 0 to |lines|
        invariant columnIndices.Length == ColumnCount
        invariant Decode(start, present[..i], parseDouble) == Run(DecoderState(headersProcessed, columnIndices[..]), records)
      {
        assert present[..i + 1][..i] == present[..i];
        var line := lines[i];
        TrimEmpty(line);
        if Trim(line) == "" {
          continue;
        }
        var fields := Split(line);
        if !headersProcessed {
          ProcessHeaders(columnIndices, ExpectedHeaders, fields);
          headersProcessed := true;
          continue;
        }
        var accident := ParseAccident(columnIndices, fields, parseDouble);
        if accident.Some? {
          records := records + [accident.value];
        }
      }
      assert present[..|lines|] == present;
    }
  }
}
