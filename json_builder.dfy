/**
 * The append loops both result writers run on a `StringBuilder`: `escapeJsonString`,
 * `appendJsonValue` and the document loop of `writeResults`. The two writers hold identical
 * copies of this code; here it is written once and both use it. The builder is the string
 * accumulated so far.
 */
module JsonBuilder {
  import opened Wrappers
  import opened Text
  import Json

  /** A file a writer creates: where, under which name, and what has been written to it. */
  datatype OutputFile = OutputFile(directory: string, name: string, contents: string)

  /** The name of a results file for a timestamp text. */
  function OutputFileName(timestamp: string): (name: string)
    ensures |name| == |timestamp| + 24
    ensures name[..19] == "accidents-analysis-" && name[|name| - 5..] == ".json"
    ensures name[19..|name| - 5] == timestamp
  {
    "accidents-analysis-" + timestamp + ".json"
  }

  /** Two timestamps give the same file name exactly when they are the same text. */
  lemma OutputFileNameInjective(t1: string, t2: string)
    ensures OutputFileName(t1) == OutputFileName(t2) <==> t1 == t2
  {
    if OutputFileName(t1) == OutputFileName(t2) {
      var n := OutputFileName(t1);
      assert t1 == n[19..|n| - 5] == t2;
    }
  }

  /** `escapeJsonString`: one character at a time, with a case per escaped character. */
  method EscapeJsonString(str: Option<string>) returns (escaped: string)
    ensures escaped == Json.EscapeJsonString(str)
  {
    if str.None? {
      return "";
    }
    var s := str.value;
    escaped := "";
    for i := 0 to |s|
      invariant escaped == Json.Escape(s[..i])
    {
      var c := s[i];
      ghost var before := escaped;
      match c {
        case '"' => escaped := escaped + "\\\"";
        case '\\' => escaped := escaped + "\\\\";
        case '\U{8}' => escaped := escaped + "\\b";
        case '\U{C}' => escaped := escaped + "\\f";
        case '\n' => escaped := escaped + "\\n";
        case '\r' => escaped := escaped + "\\r";
        case '\t' => escaped := escaped + "\\t";
        case _ => escaped := escaped + [c];
      }
      assert escaped == before + Json.EscapeChar(c);
      assert Json.Escape([c]) == Json.EscapeChar(c);
      Json.EscapeAppend(s[..i], [c]);
      assert s[..i + 1] == s[..i] + [c];
    }
    assert s[..|s|] == s;
  }

  /** One more entry appended after the builder's current text: the separator (for every entry
    * but the first), then the entry's text in two parts. */
  lemma AppendMember(start: string, members: seq<string>, i: nat, piece: string, rendered: string)
    requires i < |members| && members[i] == piece + rendered
    ensures i > 0 ==> start + Join(",\n", members[..i]) + ",\n" + piece + rendered == start + Join(",\n", members[..i + 1])
    ensures i == 0 ==> start + Join(",\n", members[..i]) + piece + rendered == start + Join(",\n", members[..i + 1])
  {
    assert members[..i + 1] == members[..i] + [members[i]];
    JoinSnoc(",\n", members[..i], members[i]);
  }

  /** `appendJsonValue`: appends the value's JSON text to the builder. */
  method AppendJsonValue(json: string, value: Json.Value) returns (out: string)
    ensures out == json + Json.Render(value)
    decreases value, 1
  {
    match value
    case Null =>
      out := json + "null";
    case Num(text) =>
      out := json + text;
    case Bool(b) =>
      out := json + (if b then "true" else "false");
    case Str(s) =>
      var escaped := EscapeJsonString(Some(s));
      out := json + "\"" + escaped + "\"";
    case Map(_) =>
      out := AppendJsonMap(json, value);
    case Other(image) =>
      var escaped := EscapeJsonString(image);
      out := json + "\"" + escaped + "\"";
  }

  /** The map case of `appendJsonValue`: every entry except the first is preceded by `,\n`;
    * keys are escaped. */
  method AppendJsonMap(json: string, value: Json.Value) returns (out: string)
    requires value.Map?
    ensures out == json + Json.Render(value)
    decreases value, 0
  {
    var entries := value.entries;
    ghost var members := seq(|entries|, i requires 0 <= i < |entries| =>
      Json.NestedMember(entries[i].0, Json.Render(entries[i].1)));
    ghost var start := json + "{\n";
    out := json + "{\n";
    var index := 0;
    while index < |entries|
      invariant 0 <= index <= |entries|
      invariant out == start + Join(",\n", members[..index])
    {
      if index > 0 {
        out := out + ",\n";
      }
      var key := EscapeJsonString(Some(entries[index].0));
      var piece := "    \"" + key + "\": ";
      out := out + piece;
      assert entries[index] in entries;
      out := AppendJsonValue(out, entries[index].1);
      AppendMember(start, members, index, piece, Json.Render(entries[index].1));
      index := index + 1;
    }
    assert members[..|entries|] == members;
    out := out + "\n  }";
  }

  /** The document loop of `writeResults`: every entry except the first is preceded by `,\n`;
    * top-level keys are appended as they are. */
  method BuildDocument(results: seq<(string, Json.Value)>) returns (json: string)
    ensures json == Json.Document(results)
  {
    ghost var members := Json.TopMembers(results);
    json := "{\n";
    var index := 0;
    while index < |results|
      invariant 0 <= index <= |results|
      invariant json == "{\n" + Join(",\n", members[..index])
    {
      if index > 0 {
        json := json + ",\n";
      }
      var piece := "  \"" + results[index].0 + "\": ";
      json := json + piece;
      json := AppendJsonValue(json, results[index].1);
      AppendMember("{\n", members, index, piece, Json.Render(results[index].1));
      index := index + 1;
    }
    assert members[..|results|] == members;
    json := json + "\n}\n";
  }
}
