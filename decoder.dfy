/**
 * `parseAccident` as both parsers write it, and the line-by-line decoding that `parseCSVFile` and
 * `processCsvLine` share: blank lines are skipped, the first other line is the header, and every
 * later line yields at most one record.
 */
module RecordDecoder {
  import opened Wrappers
  import opened Text
  import opened CsvSplit
  import opened AccidentRecord
  import opened ColumnLayout

  /** `parseAccident`: a fresh record updated by one setter after another, in the order of the
    * canonical columns. */
  method ParseAccident(columnIndices: array<int>, fields: seq<string>, parseDouble: string -> Option<real>)
    returns (r: Option<Accident>)
    requires columnIndices.Length == ColumnCount
    ensures r == DecodeRecord(columnIndices[..], fields, parseDouble)
  {
    var accident := Blank;
    var idIdx := columnIndices[0];
    if 0 <= idIdx < |fields| {
      accident := accident.(id := Some(Clean(fields[idIdx])));
    } else {
      return None;
    }
    accident := accident.(source := SetString(accident.source, fields, columnIndices[1]));
    accident := accident.(severity := SetInt(accident.severity, fields, columnIndices[2]));
    accident := accident.(startTime := SetString(accident.startTime, fields, columnIndices[3]));
    accident := accident.(endTime := SetString(accident.endTime, fields, columnIndices[4]));
    accident := accident.(startLat := SetDouble(accident.startLat, fields, columnIndices[5], parseDouble));
    accident := accident.(startLng := SetDouble(accident.startLng, fields, columnIndices[6], parseDouble));
    accident := accident.(distanceMi := SetDouble(accident.distanceMi, fields, columnIndices[7], parseDouble));
    accident := accident.(description := SetString(accident.description, fields, columnIndices[8]));
    accident := accident.(street := SetString(accident.street, fields, columnIndices[9]));
    accident := accident.(city := SetString(accident.city, fields, columnIndices[10]));
    accident := accident.(county := SetString(accident.county, fields, columnIndices[11]));
    accident := accident.(state := SetString(accident.state, fields, columnIndices[12]));
    accident := accident.(zipcode := SetString(accident.zipcode, fields, columnIndices[13]));
    accident := accident.(country := SetString(accident.country, fields, columnIndices[14]));
    accident := accident.(timezone := SetString(accident.timezone, fields, columnIndices[15]));
    accident := accident.(airportCode := SetString(accident.airportCode, fields, columnIndices[16]));
    accident := accident.(temperatureF := SetDouble(accident.temperatureF, fields, columnIndices[17], parseDouble));
    accident := accident.(windChillF := SetDouble(accident.windChillF, fields, columnIndices[18], parseDouble));
    accident := accident.(humidityPercent := SetDouble(accident.humidityPercent, fields, columnIndices[19], parseDouble));
    accident := accident.(pressureIn := SetDouble(accident.pressureIn, fields, columnIndices[20], parseDouble));
    accident := accident.(visibilityMi := SetDouble(accident.visibilityMi, fields, columnIndices[21], parseDouble));
    accident := accident.(windDirection := SetString(accident.windDirection, fields, columnIndices[22]));
    accident := accident.(windSpeedMph := SetDouble(accident.windSpeedMph, fields, columnIndices[23], parseDouble));
    accident := accident.(precipitationIn := SetDouble(accident.precipitationIn, fields, columnIndices[24], parseDouble));
    accident := accident.(weatherCondition := SetString(accident.weatherCondition, fields, columnIndices[25]));
    accident := accident.(amenity := SetString(accident.amenity, fields, columnIndices[26]));
    accident := accident.(bump := SetString(accident.bump, fields, columnIndices[27]));
    accident := accident.(crossing := SetString(accident.crossing, fields, columnIndices[28]));
    accident := accident.(giveWay := SetString(accident.giveWay, fields, columnIndices[29]));
    accident := accident.(junction := SetString(accident.junction, fields, columnIndices[30]));
    accident := accident.(noExit := SetString(accident.noExit, fields, columnIndices[31]));
    accident := accident.(railway := SetString(accident.railway, fields, columnIndices[32]));
    accident := accident.(roundabout := SetString(accident.roundabout, fields, columnIndices[33]));
    accident := accident.(station := SetString(accident.station, fields, columnIndices[34]));
    accident := accident.(stop := SetString(accident.stop, fields, columnIndices[35]));
    accident := accident.(trafficCalming := SetString(accident.trafficCalming, fields, columnIndices[36]));
    accident := accident.(trafficSignal := SetString(accident.trafficSignal, fields, columnIndices[37]));
    accident := accident.(turningLoop := SetString(accident.turningLoop, fields, columnIndices[38]));
    accident := accident.(sunriseSunset := SetString(accident.sunriseSunset, fields, columnIndices[39]));
    accident := accident.(civilTwilight := SetString(accident.civilTwilight, fields, columnIndices[40]));
    accident := accident.(nauticalTwilight := SetString(accident.nauticalTwilight, fields, columnIndices[41]));
    accident := accident.(astronomicalTwilight := SetString(accident.astronomicalTwilight, fields, columnIndices[42]));
    accident := accident.(weatherTimestampFilled := SetString(accident.weatherTimestampFilled, fields, columnIndices[43]));
    return Some(accident);
  }

  // -----------------------------------------------------------------------------------------------
  // Line-by-line decoding

  /** What a parser carries from one line to the next: whether the header has been seen, and the
    * column-index table. */
  datatype DecoderState = DecoderState(headersProcessed: bool, layout: seq<int>)

  predicate ValidState(s: DecoderState) {
    |s.layout| == ColumnCount
  }

  /** A line that is skipped without effect: absent (`null` on the stream) or blank after `trim`. */
  predicate IsSkipped(line: Option<string>) {
    line.None? || IsBlank(line.value)
  }

  /** The effect of one line: the next state and the record it yields, if any. */
  datatype Step = Step(next: DecoderState, record: Option<Accident>)

  /** The record as a sequence of zero or one elements, as handed on. */
  function Emitted(record: Option<Accident>): seq<Accident> {
    if record.Some? then [record.value] else []
  }

  /** One line: skipped when absent or blank; the first other line is resolved as the header; each
    * line after it is decoded with the resolved table. */
  function OnLine(s: DecoderState, line: Option<string>, parseDouble: string -> Option<real>): (step: Step)
    requires ValidState(s)
    ensures ValidState(step.next)
    ensures IsSkipped(line) ==> step == Step(s, None)
    ensures !IsSkipped(line) && !s.headersProcessed ==>
              step == Step(DecoderState(true, Resolve(ExpectedHeaders, Split(line.value))), None)
    ensures s.headersProcessed ==> step.next == s
    ensures step.record.Some? <==> s.headersProcessed && !IsSkipped(line) && InRange(Split(line.value), s.layout[0])
  {
    if IsSkipped(line) then
      Step(s, None)
    else
      var fields := Split(line.value);
      if !s.headersProcessed then
        Step(DecoderState(true, Resolve(ExpectedHeaders, fields)), None)
      else
        DecodeDropsOnlyWithoutId(s.layout, fields, parseDouble);
        Step(s, DecodeRecord(s.layout, fields, parseDouble))
  }

  /** The state after a run of lines, and the records handed on in order. */
  datatype Run = Run(final: DecoderState, records: seq<Accident>)

  /** A run of lines, one `OnLine` after another. */
  function Decode(s: DecoderState, lines: seq<Option<string>>, parseDouble: string -> Option<real>): (run: Run)
    requires ValidState(s)
    ensures ValidState(run.final)
    decreases |lines|
  {
    if lines == [] then
      Run(s, [])
    else
      var before := Decode(s, lines[..|lines| - 1], parseDouble);
      var step := OnLine(before.final, lines[|lines| - 1], parseDouble);
      Run(step.next, before.records + Emitted(step.record))
  }

  /** A run of skipped lines before the header changes nothing; the first line that is not skipped
    * becomes the header and yields no record. */
  lemma {:induction false} HeaderIsFirstLineNotSkipped(s: DecoderState, lines: seq<Option<string>>, k: nat, parseDouble: string -> Option<real>)
    requires ValidState(s) && !s.headersProcessed
    requires k < |lines| && !IsSkipped(lines[k])
    requires forall i :: 0 <= i < k ==> IsSkipped(lines[i])
    ensures Decode(s, lines[..k], parseDouble) == Run(s, [])
    ensures Decode(s, lines[..k + 1], parseDouble)
         == Run(DecoderState(true, Resolve(ExpectedHeaders, Split(lines[k].value))), [])
  {
    SkippedPrefix(s, lines, k, parseDouble);
    assert lines[..k + 1][..k] == lines[..k];
  }

  lemma {:induction false} SkippedPrefix(s: DecoderState, lines: seq<Option<string>>, k: nat, parseDouble: string -> Option<real>)
    requires ValidState(s) && k <= |lines|
    requires forall i :: 0 <= i < k ==> IsSkipped(lines[i])
    ensures Decode(s, lines[..k], parseDouble) == Run(s, [])
  {
    if k > 0 {
      SkippedPrefix(s, lines, k - 1, parseDouble);
      assert lines[..k][..k - 1] == lines[..k - 1];
    }
  }

  /** Once the header has been processed the state never changes again: `headersProcessed` is
    * never reset and the table is never rebuilt. */
  lemma {:induction false} HeadersStayProcessed(s: DecoderState, lines: seq<Option<string>>, parseDouble: string -> Option<real>)
    requires ValidState(s) && s.headersProcessed
    ensures Decode(s, lines, parseDouble).final == s
  {
    if lines != [] {
      HeadersStayProcessed(s, lines[..|lines| - 1], parseDouble);
    }
  }

  /** Every line yields at most one record. */
  lemma {:induction false} AtMostOneRecordPerLine(s: DecoderState, lines: seq<Option<string>>, parseDouble: string -> Option<real>)
    requires ValidState(s)
    ensures |Decode(s, lines, parseDouble).records| <= |lines|
  {
    if lines != [] {
      AtMostOneRecordPerLine(s, lines[..|lines| - 1], parseDouble);
    }
  }

  /** A header without an ID column makes every later line be dropped. */
  lemma {:induction false} MissingIdDropsEverything(s: DecoderState, lines: seq<Option<string>>, parseDouble: string -> Option<real>)
    requires ValidState(s) && s.headersProcessed && s.layout[0] == -1
    ensures Decode(s, lines, parseDouble).records == []
  {
    if lines != [] {
      MissingIdDropsEverything(s, lines[..|lines| - 1], parseDouble);
      HeadersStayProcessed(s, lines[..|lines| - 1], parseDouble);
    }
  }

  /** Every record handed on carries an ID, cleaned of quotes. */
  lemma {:induction false} RecordsCarryId(s: DecoderState, lines: seq<Option<string>>, parseDouble: string -> Option<real>)
    requires ValidState(s)
    ensures forall i :: 0 <= i < |Decode(s, lines, parseDouble).records| ==>
              var id := Decode(s, lines, parseDouble).records[i].id;
              id.Some? && '"' !in id.value
  {
    if lines != [] {
      var before := Decode(s, lines[..|lines| - 1], parseDouble);
      RecordsCarryId(s, lines[..|lines| - 1], parseDouble);
      var line := lines[|lines| - 1];
      if before.final.headersProcessed && !IsSkipped(line) {
        DecodeDropsOnlyWithoutId(before.final.layout, Split(line.value), parseDouble);
      }
    }
  }

  /** What the table held before the header does not matter: the header rebuilds it before any
    * record is decoded. */
  lemma {:induction false} InitialLayoutIrrelevant(layout1: seq<int>, layout2: seq<int>, lines: seq<Option<string>>, parseDouble: string -> Option<real>)
    requires |layout1| == ColumnCount && |layout2| == ColumnCount
    ensures var run1 := Decode(DecoderState(false, layout1), lines, parseDouble);
            var run2 := Decode(DecoderState(false, layout2), lines, parseDouble);
            && run1.records == run2.records
            && run1.final.headersProcessed == run2.final.headersProcessed
            && (run1.final.headersProcessed ==> run1.final == run2.final)
            && (!run1.final.headersProcessed ==> run1.records == [])
  {
    if lines != [] {
      InitialLayoutIrrelevant(layout1, layout2, lines[..|lines| - 1], parseDouble);
    }
  }
}
