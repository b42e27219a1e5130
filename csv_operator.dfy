/**
 * `AccidentCSVParser`, the stream operator: each call of `processCsvLine` takes one line (possibly
 * `null`); the header flag and the column-index table are fields kept between calls, and decoded
 * records are emitted on the output port, here the sequence `output`.
 */
module CsvOperator {
  import opened Wrappers
  import opened Text
  import opened CsvSplit
  import opened AccidentRecord
  import opened ColumnLayout
  import opened RecordDecoder

  class AccidentCsvParser {
    var headersProcessed: bool
    const columnIndices: array<int>
    /** Everything emitted on the output port so far, oldest first. */
    var output: seq<Accident>
    /** `Double.parseDouble`, `None` standing for its `NumberFormatException`. */
    const parseDouble: string -> Option<real>

    predicate Valid()
      reads this
    {
      columnIndices.Length == ColumnCount
    }

    /** The decoding state the operator carries between lines. */
    function State(): DecoderState
      reads this, columnIndices
    {
      DecoderState(headersProcessed, columnIndices[..])
    }

    /** A fresh operator: header not yet seen, `new int[EXPECTED_HEADERS.length]`, nothing emitted. */
    constructor (parseDouble: string -> Option<real>)
      ensures Valid() && fresh(columnIndices) && this.parseDouble == parseDouble
      ensures !headersProcessed && output == []
      ensures forall j :: 0 <= j < ColumnCount ==> columnIndices[j] == 0
    {
      this.parseDouble := parseDouble;
      headersProcessed := false;
      columnIndices := new int[ColumnCount](_ => 0);
      output := [];
    }

    /** `processCsvLine`: the new state and the emitted record are those of `OnLine`. */
    method ProcessCsvLine(line: Option<string>)
      requires Valid()
      modifies this, columnIndices
      ensures Valid()
      ensures var step := OnLine(old(State()), line, parseDouble);
              State() == step.next && output == old(output) + Emitted(step.record)
    {
      if line.None? {
        return;
      }
      TrimEmpty(line.value);
      if Trim(line.value) == "" {
        return;
      }
      var fields := Split(line.value);
      if !headersProcessed {
        ProcessHeaders(columnIndices, ExpectedHeaders, fields);
        headersProcessed := true;
        return;
      }
      var accident := ParseAccident(columnIndices, fields, parseDouble);
      if accident.Some? {
        output := output + [accident.value];
      }
    }
  }
}
