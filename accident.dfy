/**
 * The accident record and the per-field decoding rules shared by `CSVParser` and its
 * stream-operator twin `AccidentCSVParser`: cleaning of a raw field, the tolerant typed setters,
 * and the decision to drop a line whose ID column is missing.
 */
module AccidentRecord {
  import opened Wrappers
  import opened Text

  /** The canonical column names, in the order of the column-index table. */
  const ExpectedHeaders: seq<string> := [
    "ID", "Source", "Severity", "Start_Time", "End_Time", "Start_Lat", "Start_Lng", "Distance(mi)",
    "Description", "Street", "City", "County", "State", "Zipcode", "Country", "Timezone",
    "Airport_Code", "Temperature(F)", "Wind_Chill(F)", "Humidity(%)", "Pressure(in)",
    "Visibility(mi)", "Wind_Direction", "Wind_Speed(mph)", "Precipitation(in)",
    "Weather_Condition", "Amenity", "Bump", "Crossing", "Give_Way", "Junction", "No_Exit",
    "Railway", "Roundabout", "Station", "Stop", "Traffic_Calming", "Traffic_Signal",
    "Turning_Loop", "Sunrise_Sunset", "Civil_Twilight", "Nautical_Twilight",
    "Astronomical_Twilight", "Weather_Timestamp_Filled"
  ]

  /** The number of canonical columns, and so the length of the column-index table. */
  const ColumnCount: nat := 44

  lemma ColumnCountIsHeaderCount()
    ensures |ExpectedHeaders| == ColumnCount
  {
  }

  /**
   * One decoded line, with one field per canonical column, typed as the setters the parsers call
   * imply: `String` fields are `Option<string>` (`None` is Java's `null`), Severity is an `int`, and
   * the `double` fields are `real`.
   */
  datatype Accident = Accident(
    id: Option<string>,
    source: Option<string>,
    severity: int,
    startTime: Option<string>,
    endTime: Option<string>,
    startLat: real,
    startLng: real,
    distanceMi: real,
    description: Option<string>,
    street: Option<string>,
    city: Option<string>,
    county: Option<string>,
    state: Option<string>,
    zipcode: Option<string>,
    country: Option<string>,
    timezone: Option<string>,
    airportCode: Option<string>,
    temperatureF: real,
    windChillF: real,
    humidityPercent: real,
    pressureIn: real,
    visibilityMi: real,
    windDirection: Option<string>,
    windSpeedMph: real,
    precipitationIn: real,
    weatherCondition: Option<string>,
    amenity: Option<string>,
    bump: Option<string>,
    crossing: Option<string>,
    giveWay: Option<string>,
    junction: Option<string>,
    noExit: Option<string>,
    railway: Option<string>,
    roundabout: Option<string>,
    station: Option<string>,
    stop: Option<string>,
    trafficCalming: Option<string>,
    trafficSignal: Option<string>,
    turningLoop: Option<string>,
    sunriseSunset: Option<string>,
    civilTwilight: Option<string>,
    nauticalTwilight: Option<string>,
    astronomicalTwilight: Option<string>,
    weatherTimestampFilled: Option<string>
  )

  /** `new Accident()`: every String field `null`, the int 0 and every double 0.0. */
  const Blank: Accident := Accident(
    None,
    None,
    0,
    None,
    None,
    0.0,
    0.0,
    0.0,
    None,
    None,
    None,
    None,
    None,
    None,
    None,
    None,
    None,
    0.0,
    0.0,
    0.0,
    0.0,
    0.0,
    None,
    0.0,
    0.0,
    None,
    None,
    None,
    None,
    None,
    None,
    None,
    None,
    None,
    None,
    None,
    None,
    None,
    None,
    None,
    None,
    None,
    None,
    None
  )

  /** `cleanField` on a non-null field: trim, then remove every `"`. */
  function Clean(field: string): (r: string)
    ensures forall i :: 0 <= i < |r| ==> r[i] != '"'
    ensures IsBlank(field) ==> r == ""
    ensures ('"' !in field && Trim(field) == field) ==> r == field
  {
    TrimEmpty(field);
    RemoveQuotes(Trim(field))
  }

  /** `cleanField`: `null` stays `null`; anything else is cleaned. */
  function CleanField(field: Option<string>): (r: Option<string>)
    ensures r.None? <==> field.None?
    ensures r.Some? ==> r.value == Clean(field.value) && '"' !in r.value
  {
    match field
    case None => None
    case Some(f) => Some(Clean(f))
  }

  /** Whether a resolved column index names a field of the split line. */
  predicate InRange(fields: seq<string>, index: int) {
    0 <= index < |fields|
  }

  /** `setStringField`: the cleaned field, even an empty one, when the index is in range;
    * otherwise the field keeps its current value. */
  function SetString(current: Option<string>, fields: seq<string>, index: int): Option<string> {
    if InRange(fields, index) then Some(Clean(fields[index])) else current
  }

  /** `setIntField`: an empty value, or one `Integer.parseInt` rejects (the warning is logged and
    * swallowed), leaves the field as it was. */
  function SetInt(current: int, fields: seq<string>, index: int): int {
    if InRange(fields, index) then
      var value := Clean(fields[index]);
      if value != "" then ParseInt(value).GetOr(current) else current
    else
      current
  }

  /** `setDoubleField`, with `Double.parseDouble` given as `parseDouble` (`None` for its
    * `NumberFormatException`). */
  function SetDouble(current: real, fields: seq<string>, index: int, parseDouble: string -> Option<real>): real {
    if InRange(fields, index) then
      var value := Clean(fields[index]);
      if value != "" then parseDouble(value).GetOr(current) else current
    else
      current
  }

  /** `parseAccident`: no record unless the ID column is resolved and within the line; otherwise
    * a fresh record with the ID set and every other setter applied to its own column. */
  function DecodeRecord(layout: seq<int>, fields: seq<string>, parseDouble: string -> Option<real>): (r: Option<Accident>)
    requires |layout| == ColumnCount
  {
    if !InRange(fields, layout[0]) then
      None
    else
      Some(Blank.(
      id := Some(Clean(fields[layout[0]])),
      source := SetString(None, fields, layout[1]),
      severity := SetInt(0, fields, layout[2]),
      startTime := SetString(None, fields, layout[3]),
      endTime := SetString(None, fields, layout[4]),
      startLat := SetDouble(0.0, fields, layout[5], parseDouble),
      startLng := SetDouble(0.0, fields, layout[6], parseDouble),
      distanceMi := SetDouble(0.0, fields, layout[7], parseDouble),
      description := SetString(None, fields, layout[8]),
      street := SetString(None, fields, layout[9]),
      city := SetString(None, fields, layout[10]),
      county := SetString(None, fields, layout[11]),
      state := SetString(None, fields, layout[12]),
      zipcode := SetString(None, fields, layout[13]),
      country := SetString(None, fields, layout[14]),
      timezone := SetString(None, fields, layout[15]),
      airportCode := SetString(None, fields, layout[16]),
      temperatureF := SetDouble(0.0, fields, layout[17], parseDouble),
      windChillF := SetDouble(0.0, fields, layout[18], parseDouble),
      humidityPercent := SetDouble(0.0, fields, layout[19], parseDouble),
      pressureIn := SetDouble(0.0, fields, layout[20], parseDouble),
      visibilityMi := SetDouble(0.0, fields, layout[21], parseDouble),
      windDirection := SetString(None, fields, layout[22]),
      windSpeedMph := SetDouble(0.0, fields, layout[23], parseDouble),
      precipitationIn := SetDouble(0.0, fields, layout[24], parseDouble),
      weatherCondition := SetString(None, fields, layout[25]),
      amenity := SetString(None, fields, layout[26]),
      bump := SetString(None, fields, layout[27]),
      crossing := SetString(None, fields, layout[28]),
      giveWay := SetString(None, fields, layout[29]),
      junction := SetString(None, fields, layout[30]),
      noExit := SetString(None, fields, layout[31]),
      railway := SetString(None, fields, layout[32]),
      roundabout := SetString(None, fields, layout[33]),
      station := SetString(None, fields, layout[34]),
      stop := SetString(None, fields, layout[35]),
      trafficCalming := SetString(None, fields, layout[36]),
      trafficSignal := SetString(None, fields, layout[37]),
      turningLoop := SetString(None, fields, layout[38]),
      sunriseSunset := SetString(None, fields, layout[39]),
      civilTwilight := SetString(None, fields, layout[40]),
      nauticalTwilight := SetString(None, fields, layout[41]),
      astronomicalTwilight := SetString(None, fields, layout[42]),
      weatherTimestampFilled := SetString(None, fields, layout[43])
      ))
  }

  /** The value of one field, tagged with its type, addressed by its column number. */
  datatype FieldValue = StrValue(text: Option<string>) | IntValue(number: int) | RealValue(amount: real)

  function FieldAt(a: Accident, j: nat): FieldValue
    requires j < ColumnCount
  {
    if j == 0 then StrValue(a.id)
    else if j == 1 then StrValue(a.source)
    else if j == 2 then IntValue(a.severity)
    else if j == 3 then StrValue(a.startTime)
    else if j == 4 then StrValue(a.endTime)
    else if j == 5 then RealValue(a.startLat)
    else if j == 6 then RealValue(a.startLng)
    else if j == 7 then RealValue(a.distanceMi)
    else if j == 8 then StrValue(a.description)
    else if j == 9 then StrValue(a.street)
    else if j == 10 then StrValue(a.city)
    else if j == 11 then StrValue(a.county)
    else if j == 12 then StrValue(a.state)
    else if j == 13 then StrValue(a.zipcode)
    else if j == 14 then StrValue(a.country)
    else if j == 15 then StrValue(a.timezone)
    else if j == 16 then StrValue(a.airportCode)
    else if j == 17 then RealValue(a.temperatureF)
    else if j == 18 then RealValue(a.windChillF)
    else if j == 19 then RealValue(a.humidityPercent)
    else if j == 20 then RealValue(a.pressureIn)
    else if j == 21 then RealValue(a.visibilityMi)
    else if j == 22 then StrValue(a.windDirection)
    else if j == 23 then RealValue(a.windSpeedMph)
    else if j == 24 then RealValue(a.precipitationIn)
    else if j == 25 then StrValue(a.weatherCondition)
    else if j == 26 then StrValue(a.amenity)
    else if j == 27 then StrValue(a.bump)
    else if j == 28 then StrValue(a.crossing)
    else if j == 29 then StrValue(a.giveWay)
    else if j == 30 then StrValue(a.junction)
    else if j == 31 then StrValue(a.noExit)
    else if j == 32 then StrValue(a.railway)
    else if j == 33 then StrValue(a.roundabout)
    else if j == 34 then StrValue(a.station)
    else if j == 35 then StrValue(a.stop)
    else if j == 36 then StrValue(a.trafficCalming)
    else if j == 37 then StrValue(a.trafficSignal)
    else if j == 38 then StrValue(a.turningLoop)
    else if j == 39 then StrValue(a.sunriseSunset)
    else if j == 40 then StrValue(a.civilTwilight)
    else if j == 41 then StrValue(a.nauticalTwilight)
    else if j == 42 then StrValue(a.astronomicalTwilight)
    else if j == 43 then StrValue(a.weatherTimestampFilled)
    else assert false; StrValue(None)
  }

  /** The setter for a field of the given type, applied to that field's column. */
  function SetField(current: FieldValue, fields: seq<string>, index: int, parseDouble: string -> Option<real>): FieldValue {
    match current
    case StrValue(text) => StrValue(SetString(text, fields, index))
    case IntValue(number) => IntValue(SetInt(number, fields, index))
    case RealValue(amount) => RealValue(SetDouble(amount, fields, index, parseDouble))
  }

  /** A line is dropped exactly when the ID column is unresolved or beyond the field count; a
    * kept record carries the cleaned ID, even when that is empty. */
  lemma DecodeDropsOnlyWithoutId(layout: seq<int>, fields: seq<string>, parseDouble: string -> Option<real>)
    requires |layout| == ColumnCount
    ensures DecodeRecord(layout, fields, parseDouble).None? <==> (layout[0] < 0 || layout[0] >= |fields|)
    ensures DecodeRecord(layout, fields, parseDouble).Some? ==>
              DecodeRecord(layout, fields, parseDouble).value.id == Some(Clean(fields[layout[0]]))
  {
  }

  /** An ID field that cleans to the empty string (empty, blank, or quotes with blanks only around
    * them, such as ` "" `) does not drop the line: the record is kept with the empty ID. */
  lemma EmptyIdIsKept(layout: seq<int>, fields: seq<string>, parseDouble: string -> Option<real>)
    requires |layout| == ColumnCount && InRange(fields, layout[0])
    requires Clean(fields[layout[0]]) == ""
    ensures DecodeRecord(layout, fields, parseDouble).Some?
    ensures DecodeRecord(layout, fields, parseDouble).value.id == Some("")
  {
    DecodeDropsOnlyWithoutId(layout, fields, parseDouble);
  }

  /** Every field is decoded by its own setter from its own column: a missing, empty or
    * unparsable field never keeps a later field from being set. */
  lemma DecodeFieldwise(layout: seq<int>, fields: seq<string>, parseDouble: string -> Option<real>, j: nat)
    requires |layout| == ColumnCount && 1 <= j < ColumnCount
    requires InRange(fields, layout[0])
    ensures FieldAt(DecodeRecord(layout, fields, parseDouble).value, j)
         == SetField(FieldAt(Blank, j), fields, layout[j], parseDouble)
  {
    var a := DecodeRecord(layout, fields, parseDouble).value;
    if j == 1 {
    } else if j == 2 {
    } else if j == 3 {
    } else if j == 4 {
    } else if j == 5 {
    } else if j == 6 {
    } else if j == 7 {
    } else if j == 8 {
    } else if j == 9 {
    } else if j == 10 {
    } else if j == 11 {
    } else if j == 12 {
    } else if j == 13 {
    } else if j == 14 {
    } else if j == 15 {
    } else if j == 16 {
    } else if j == 17 {
    } else if j == 18 {
    } else if j == 19 {
    } else if j == 20 {
    } else if j == 21 {
    } else if j == 22 {
    } else if j == 23 {
    } else if j == 24 {
    } else if j == 25 {
    } else if j == 26 {
    } else if j == 27 {
    } else if j == 28 {
    } else if j == 29 {
    } else if j == 30 {
    } else if j == 31 {
    } else if j == 32 {
    } else if j == 33 {
    } else if j == 34 {
    } else if j == 35 {
    } else if j == 36 {
    } else if j == 37 {
    } else if j == 38 {
    } else if j == 39 {
    } else if j == 40 {
    } else if j == 41 {
    } else if j == 42 {
    }
  }

  /** Severity is either still the default 0 or the value `Integer.parseInt` accepted from the
    * cleaned Severity column; whenever that column parses, its value is taken. */
  lemma SeverityIsParsedOrDefault(layout: seq<int>, fields: seq<string>, parseDouble: string -> Option<real>)
    requires |layout| == ColumnCount && InRange(fields, layout[0])
    ensures var severity := DecodeRecord(layout, fields, parseDouble).value.severity;
            && (severity == 0 || (InRange(fields, layout[2]) && ParseInt(Clean(fields[layout[2]])) == Some(severity)))
            && (InRange(fields, layout[2]) && ParseInt(Clean(fields[layout[2]])).Some? ==>
                  severity == ParseInt(Clean(fields[layout[2]])).value)
  {
  }

  /** A Severity column holding the decimal text of a 32-bit value decodes to that value. */
  lemma SeverityRoundTrip(layout: seq<int>, fields: seq<string>, parseDouble: string -> Option<real>, n: int)
    requires |layout| == ColumnCount && InRange(fields, layout[0]) && InRange(fields, layout[2])
    requires IntMin <= n <= IntMax && fields[layout[2]] == IntToString(n)
    ensures DecodeRecord(layout, fields, parseDouble).value.severity == n
  {
    IntToStringIsPlain(n);
    TrimIdentity(IntToString(n));
    ParseIntRoundTrip(n);
  }
}
