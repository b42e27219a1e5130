/**
 * Header resolution (`processHeaders` in both parsers): every canonical column gets the position
 * of the header that names it, or -1 when no header does.
 *
 * Each header is trimmed, stripped of its quotes and compared, ignoring case, with the canonical
 * names in order; the first canonical name it equals receives its position (the inner loop then
 * breaks). A later header naming the same column overwrites the earlier position, so on duplicated
 * headers the last one wins.
 */
module ColumnLayout {
  import opened Text
  import opened AccidentRecord

  // The definitions are stated for any list of canonical names; the parsers use ExpectedHeaders.

  /** The header names canonical column `j`. */
  predicate Matches(names: seq<string>, header: string, j: nat)
    requires j < |names|
  {
    EqualsIgnoreCase(names[j], Clean(header))
  }

  /** The first canonical column at or after `from` that the header names, or -1. */
  function FirstExpectedFrom(names: seq<string>, header: string, from: nat): (j: int)
    requires from <= |names|
    ensures j == -1 || (from <= j < |names| && Matches(names, header, j))
    ensures forall k :: from <= k < |names| && (j == -1 || k < j) ==> !Matches(names, header, k)
    decreases |names| - from
  {
    if from == |names| then -1
    else if Matches(names, header, from) then from
    else FirstExpectedFrom(names, header, from + 1)
  }

  /** The canonical column the inner loop of `processHeaders` assigns for this header, or -1. */
  function FirstExpected(names: seq<string>, header: string): int {
    FirstExpectedFrom(names, header, 0)
  }

  /** The column-index table after its reset: every column unresolved. */
  function Unresolved(columns: nat): seq<int> {
    seq(columns, _ => -1)
  }

  /** The column the inner loop assigns each header to, -1 for none. */
  function Assignments(names: seq<string>, headers: seq<string>): (targets: seq<int>)
    ensures |targets| == |headers|
    ensures forall i :: 0 <= i < |headers| ==> targets[i] == FirstExpected(names, headers[i])
  {
    seq(|headers|, i requires 0 <= i < |headers| => FirstExpected(names, headers[i]))
  }

  /** The table built from the assignments one header at a time, each header overwriting the
    * entry of the column it is assigned to. */
  function Place(columns: nat, targets: seq<int>): (layout: seq<int>)
    ensures |layout| == columns
    ensures forall j :: 0 <= j < columns ==> -1 <= layout[j] < |targets|
  {
    if targets == [] then Unresolved(columns)
    else
      var last := |targets| - 1;
      var before := Place(columns, targets[..last]);
      if 0 <= targets[last] < columns then before[targets[last] := last] else before
  }

  /** One more header: its entry is overwritten when it names a column. */
  lemma PlaceStep(columns: nat, targets: seq<int>, i: nat)
    requires i < |targets|
    ensures Place(columns, targets[..i + 1])
         == if 0 <= targets[i] < columns then Place(columns, targets[..i])[targets[i] := i] else Place(columns, targets[..i])
  {
    assert targets[..i + 1][..i] == targets[..i];
  }

  /** Last match wins: a column is -1 exactly when no header is assigned to it, and otherwise it
    * holds the largest position of a header assigned to it. */
  lemma {:induction false} PlaceLastMatch(columns: nat, targets: seq<int>, j: nat)
    requires j < columns
    ensures Place(columns, targets)[j] == -1 <==> forall i :: 0 <= i < |targets| ==> targets[i] != j
    ensures Place(columns, targets)[j] != -1 ==>
              && targets[Place(columns, targets)[j]] == j
              && forall i :: Place(columns, targets)[j] < i < |targets| ==> targets[i] != j
  {
    if targets != [] {
      var last := |targets| - 1;
      var init := targets[..last];
      PlaceLastMatch(columns, init, j);
      assert forall i :: 0 <= i < last ==> init[i] == targets[i];
    }
  }

  /** The table `processHeaders` leaves behind for these header fields. */
  function Resolve(names: seq<string>, headers: seq<string>): (layout: seq<int>)
    ensures |layout| == |names|
    ensures forall j :: 0 <= j < |names| ==> -1 <= layout[j] < |headers|
  {
    Place(|names|, Assignments(names, headers))
  }

  /** Last match wins, stated on the header fields. */
  lemma ResolveLastMatch(names: seq<string>, headers: seq<string>, j: nat)
    requires j < |names|
    ensures Resolve(names, headers)[j] == -1 <==> forall i :: 0 <= i < |headers| ==> FirstExpected(names, headers[i]) != j
    ensures Resolve(names, headers)[j] != -1 ==>
              && FirstExpected(names, headers[Resolve(names, headers)[j]]) == j
              && forall i :: Resolve(names, headers)[j] < i < |headers| ==> FirstExpected(names, headers[i]) != j
  {
    PlaceLastMatch(|names|, Assignments(names, headers), j);
  }

  /** For the first canonical column the rule is exact: it is -1 exactly when no header, trimmed
    * and unquoted, equals its name ignoring case, and otherwise the position of the last one that
    * does. */
  lemma FirstColumnResolution(names: seq<string>, headers: seq<string>)
    requires |names| > 0
    ensures Resolve(names, headers)[0] == -1 <==> forall i :: 0 <= i < |headers| ==> !EqualsIgnoreCase(names[0], Clean(headers[i]))
    ensures Resolve(names, headers)[0] != -1 ==>
              && EqualsIgnoreCase(names[0], Clean(headers[Resolve(names, headers)[0]]))
              && forall i :: Resolve(names, headers)[0] < i < |headers| ==> !EqualsIgnoreCase(names[0], Clean(headers[i]))
  {
    ResolveLastMatch(names, headers, 0);
  }

  /** The mandatory ID column is found exactly when some header is "ID" ignoring case once
    * trimmed and unquoted, and then it is the last such header. */
  lemma IdColumnResolution(headers: seq<string>)
    ensures Resolve(ExpectedHeaders, headers)[0] == -1 <==> forall i :: 0 <= i < |headers| ==> !EqualsIgnoreCase("ID", Clean(headers[i]))
    ensures Resolve(ExpectedHeaders, headers)[0] != -1 ==>
              && EqualsIgnoreCase("ID", Clean(headers[Resolve(ExpectedHeaders, headers)[0]]))
              && forall i :: Resolve(ExpectedHeaders, headers)[0] < i < |headers| ==> !EqualsIgnoreCase("ID", Clean(headers[i]))
  {
    FirstColumnResolution(ExpectedHeaders, headers);
  }

  // -----------------------------------------------------------------------------------------------
  // Distinct canonical names: the rule for every column

  /** No two canonical names are equal ignoring case. */
  predicate DistinctIgnoringCase(names: seq<string>) {
    forall j, k :: 0 <= j < k < |names| ==> !EqualsIgnoreCase(names[j], names[k])
  }

  /** With distinct names, a header is assigned to column `j` exactly when it names `j`: no
    * earlier column can take it first. */
  lemma FirstExpectedOfDistinct(names: seq<string>, header: string, j: nat)
    requires DistinctIgnoringCase(names) && j < |names|
    ensures FirstExpected(names, header) == j <==> Matches(names, header, j)
  {
    var f := FirstExpected(names, header);
    if Matches(names, header, j) && f != j {
      EqualsIgnoreCaseEquivalence(names[j], Clean(header), names[f]);
      EqualsIgnoreCaseEquivalence(names[f], names[j], names[f]);
    }
  }

  /** With distinct names, every column follows the rule: -1 exactly when no header, trimmed and
    * unquoted, equals its name ignoring case, and otherwise the last header that does. */
  lemma DistinctResolution(names: seq<string>, headers: seq<string>, j: nat)
    requires DistinctIgnoringCase(names) && j < |names|
    ensures Resolve(names, headers)[j] == -1 <==> forall i :: 0 <= i < |headers| ==> !EqualsIgnoreCase(names[j], Clean(headers[i]))
    ensures Resolve(names, headers)[j] != -1 ==>
              && EqualsIgnoreCase(names[j], Clean(headers[Resolve(names, headers)[j]]))
              && forall i :: Resolve(names, headers)[j] < i < |headers| ==> !EqualsIgnoreCase(names[j], Clean(headers[i]))
  {
    ResolveLastMatch(names, headers, j);
    forall i | 0 <= i < |headers|
      ensures FirstExpected(names, headers[i]) == j <==> EqualsIgnoreCase(names[j], Clean(headers[i]))
    {
      FirstExpectedOfDistinct(names, headers[i], j);
    }
  }

  /** A name's length with its first and last letters upper-cased: names equal ignoring case have
    * the same key. */
  function HeaderKey(s: string): (nat, char, char) {
    if s == [] then (0, ' ', ' ') else (|s|, UpperAscii(s[0]), UpperAscii(s[|s| - 1]))
  }

  lemma HeaderKeyIgnoresCase(a: string, b: string)
    ensures EqualsIgnoreCase(a, b) ==> HeaderKey(a) == HeaderKey(b)
  {
  }

  /** The position of the canonical name with a given key, -1 for a key no canonical name has. */
  function PositionOfKey(key: (nat, char, char)): int {
    match key
    case (2, 'I', 'D') => 0  // ID
    case (6, 'S', 'E') => 1  // Source
    case (8, 'S', 'Y') => 2  // Severity
    case (10, 'S', 'E') => 3  // Start_Time
    case (8, 'E', 'E') => 4  // End_Time
    case (9, 'S', 'T') => 5  // Start_Lat
    case (9, 'S', 'G') => 6  // Start_Lng
    case (12, 'D', ')') => 7  // Distance(mi)
    case (11, 'D', 'N') => 8  // Description
    case (6, 'S', 'T') => 9  // Street
    case (4, 'C', 'Y') => 10  // City
    case (6, 'C', 'Y') => 11  // County
    case (5, 'S', 'E') => 12  // State
    case (7, 'Z', 'E') => 13  // Zipcode
    case (7, 'C', 'Y') => 14  // Country
    case (8, 'T', 'E') => 15  // Timezone
    case (12, 'A', 'E') => 16  // Airport_Code
    case (14, 'T', ')') => 17  // Temperature(F)
    case (13, 'W', ')') => 18  // Wind_Chill(F)
    case (11, 'H', ')') => 19  // Humidity(%)
    case (12, 'P', ')') => 20  // Pressure(in)
    case (14, 'V', ')') => 21  // Visibility(mi)
    case (14, 'W', 'N') => 22  // Wind_Direction
    case (15, 'W', ')') => 23  // Wind_Speed(mph)
    case (17, 'P', ')') => 24  // Precipitation(in)
    case (17, 'W', 'N') => 25  // Weather_Condition
    case (7, 'A', 'Y') => 26  // Amenity
    case (4, 'B', 'P') => 27  // Bump
    case (8, 'C', 'G') => 28  // Crossing
    case (8, 'G', 'Y') => 29  // Give_Way
    case (8, 'J', 'N') => 30  // Junction
    case (7, 'N', 'T') => 31  // No_Exit
    case (7, 'R', 'Y') => 32  // Railway
    case (10, 'R', 'T') => 33  // Roundabout
    case (7, 'S', 'N') => 34  // Station
    case (4, 'S', 'P') => 35  // Stop
    case (15, 'T', 'G') => 36  // Traffic_Calming
    case (14, 'T', 'L') => 37  // Traffic_Signal
    case (12, 'T', 'P') => 38  // Turning_Loop
    case (14, 'S', 'T') => 39  // Sunrise_Sunset
    case (14, 'C', 'T') => 40  // Civil_Twilight
    case (17, 'N', 'T') => 41  // Nautical_Twilight
    case (21, 'A', 'T') => 42  // Astronomical_Twilight
    case (24, 'W', 'D') => 43  // Weather_Timestamp_Filled
    case _ => -1
  }

  // Each canonical name's key leads back to its position, eleven names at a time.

  lemma KeysLeadBackFrom0()
    ensures forall j :: 0 <= j < 11 ==> PositionOfKey(HeaderKey(ExpectedHeaders[j])) == j
  {
  }

  lemma KeysLeadBackFrom11()
    ensures forall j :: 11 <= j < 22 ==> PositionOfKey(HeaderKey(ExpectedHeaders[j])) == j
  {
  }

  lemma KeysLeadBackFrom22()
    ensures forall j :: 22 <= j < 33 ==> PositionOfKey(HeaderKey(ExpectedHeaders[j])) == j
  {
  }

  lemma KeysLeadBackFrom33()
    ensures forall j :: 33 <= j < 44 ==> PositionOfKey(HeaderKey(ExpectedHeaders[j])) == j
  {
  }

  /** The 44 canonical names are pairwise different ignoring case. */
  lemma ExpectedHeadersDistinct()
    ensures DistinctIgnoringCase(ExpectedHeaders)
  {
    KeysLeadBackFrom0();
    KeysLeadBackFrom11();
    KeysLeadBackFrom22();
    KeysLeadBackFrom33();
    forall j, k | 0 <= j < k < |ExpectedHeaders|
      ensures !EqualsIgnoreCase(ExpectedHeaders[j], ExpectedHeaders[k])
    {
      HeaderKeyIgnoresCase(ExpectedHeaders[j], ExpectedHeaders[k]);
    }
  }

  /** The header rule of both parsers for every canonical column: the column is -1 exactly when
    * no header, trimmed and unquoted, equals `EXPECTED_HEADERS[j]` ignoring case, and otherwise
    * the position of the last header that does. */
  lemma ExpectedColumnResolution(headers: seq<string>, j: nat)
    requires j < ColumnCount
    ensures Resolve(ExpectedHeaders, headers)[j] == -1 <==> forall i :: 0 <= i < |headers| ==> !EqualsIgnoreCase(ExpectedHeaders[j], Clean(headers[i]))
    ensures Resolve(ExpectedHeaders, headers)[j] != -1 ==>
              && EqualsIgnoreCase(ExpectedHeaders[j], Clean(headers[Resolve(ExpectedHeaders, headers)[j]]))
              && forall i :: Resolve(ExpectedHeaders, headers)[j] < i < |headers| ==> !EqualsIgnoreCase(ExpectedHeaders[j], Clean(headers[i]))
  {
    ExpectedHeadersDistinct();
    DistinctResolution(ExpectedHeaders, headers, j);
  }

  /** `processHeaders`, in place on the parser's column-index array. */
  method ProcessHeaders(columnIndices: array<int>, names: seq<string>, headers: seq<string>)
    requires columnIndices.Length == |names|
    modifies columnIndices
    ensures columnIndices[..] == Resolve(names, headers)
  {
    for i := 0 to columnIndices.Length
      invariant forall k :: 0 <= k < i ==> columnIndices[k] == -1
    {
      columnIndices[i] := -1;
    }
    ghost var targets := Assignments(names, headers);
    assert columnIndices[..] == Place(|names|, targets[..0]);
    for i := 0 to |headers|
      invariant columnIndices[..] == Place(|names|, targets[..i])
    {
      var header := Clean(headers[i]);
      PlaceStep(|names|, targets, i);
      var j := 0;
      label Scan:
      while j < |names|
        invariant 0 <= j <= |names|
        invariant forall k :: 0 <= k < j ==> !Matches(names, headers[i], k)
        invariant unchanged@Scan(columnIndices)
      {
        if EqualsIgnoreCase(names[j], header) {
          assert FirstExpectedFrom(names, headers[i], j) == j;
          columnIndices[j] := i;
          break;
        }
        j := j + 1;
      }
    }
    assert targets[..|headers|] == targets;
  }
}
