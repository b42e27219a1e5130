/**
 * The JSON text both result writers produce (`escapeJsonString`, `appendJsonValue` and the
 * document loop of `writeResults`), as functions; and a decoder of the string escapes of
 * section 7 of RFC 8259 to state what the escaping achieves.
 */
module Json {
  import opened Wrappers
  import opened Text

  /** The values a result map holds, by the case of `appendJsonValue` that handles them. `Num`
    * carries the number's `toString` text, `Map` the entries in the map's iteration order with
    * each key's `toString` text, and `Other` the `toString` of any other object (which may be
    * `null`). */
  datatype Value =
    | Null
    | Num(text: string)
    | Bool(b: bool)
    | Str(s: string)
    | Map(entries: seq<(string, Value)>)
    | Other(image: Option<string>)

  // -----------------------------------------------------------------------------------------------
  // escapeJsonString

  /** The seven characters with a two-character escape, and nothing else. */
  predicate HasShortEscape(c: char) {
    c == '"' || c == '\\' || c == '\U{8}' || c == '\U{C}' || c == '\n' || c == '\r' || c == '\t'
  }

  /** The escape letter written after the backslash. */
  function EscapeLetter(c: char): (e: char)
    requires HasShortEscape(c)
  {
    match c
    case '"' => '"'
    case '\\' => '\\'
    case '\U{8}' => 'b'
    case '\U{C}' => 'f'
    case '\n' => 'n'
    case '\r' => 'r'
    case '\t' => 't'
  }

  /** What one character becomes: a backslash and its letter, or the character itself. */
  function EscapeChar(c: char): (r: string)
    ensures HasShortEscape(c) ==> r == ['\\', EscapeLetter(c)]
    ensures !HasShortEscape(c) ==> r == [c]
  {
    if HasShortEscape(c) then ['\\', EscapeLetter(c)] else [c]
  }

  /** The escaped text of a string, character by character in order. */
  function Escape(s: string): string {
    if s == [] then [] else EscapeChar(s[0]) + Escape(s[1..])
  }

  /** `escapeJsonString`: `null` gives the empty text. */
  function EscapeJsonString(s: Option<string>): string {
    match s
    case None => ""
    case Some(str) => Escape(str)
  }

  /** Escaping works character by character: it distributes over concatenation. */
  lemma {:induction false} EscapeAppend(a: string, b: string)
    ensures Escape(a + b) == Escape(a) + Escape(b)
  {
    if a == [] {
      assert a + b == b;
    } else {
      assert (a + b)[0] == a[0];
      assert (a + b)[1..] == a[1..] + b;
      EscapeAppend(a[1..], b);
    }
  }

  /** Nothing to escape means nothing changes. */
  lemma {:induction false} EscapeIdentity(s: string)
    requires forall i :: 0 <= i < |s| ==> !HasShortEscape(s[i])
    ensures Escape(s) == s
  {
    if s != [] {
      EscapeIdentity(s[1..]);
    }
  }

  // -----------------------------------------------------------------------------------------------
  // The string escapes of section 7 of RFC 8259

  /** The character a two-character escape `\x` stands for: the seven above and `\/`. */
  function EscapedBy(letter: char): Option<char> {
    match letter
    case '"' => Some('"')
    case '\\' => Some('\\')
    case '/' => Some('/')
    case 'b' => Some('\U{8}')
    case 'f' => Some('\U{C}')
    case 'n' => Some('\n')
    case 'r' => Some('\r')
    case 't' => Some('\t')
    case _ => None
  }

  /** Decodes the contents of a JSON string: a backslash with one of the eight letters stands for
    * its character; a bare `"` or any other backslash is rejected. `\u` escapes are rejected
    * too, since nothing here produces them; unescaped control characters are let through. */
  function Unescape(t: string): (r: Option<string>)
    decreases |t|
  {
    if t == [] then Some([])
    else if t[0] == '"' then None
    else if t[0] == '\\' then
      if |t| >= 2 && EscapedBy(t[1]).Some? then
        match Unescape(t[2..])
        case None => None
        case Some(rest) => Some([EscapedBy(t[1]).value] + rest)
      else None
    else
      match Unescape(t[1..])
      case None => None
      case Some(rest) => Some([t[0]] + rest)
  }

  /** Unescaping the escaped text gives back the original string. */
  lemma {:induction false} UnescapeEscape(s: string)
    ensures Unescape(Escape(s)) == Some(s)
  {
    if s != [] {
      var c := s[0];
      UnescapeEscape(s[1..]);
      var e := Escape(s);
      assert e == EscapeChar(c) + Escape(s[1..]);
      if HasShortEscape(c) {
        assert e[0] == '\\' && e[1] == EscapeLetter(c) && e[2..] == Escape(s[1..]);
        assert EscapedBy(EscapeLetter(c)) == Some(c);
        assert [c] + s[1..] == s;
      } else {
        assert e[0] == c && e[1..] == Escape(s[1..]);
        assert [c] + s[1..] == s;
      }
    }
  }

  /** A control character, which section 7 requires to be escaped inside a string. */
  predicate IsControl(c: char) {
    c < ' '
  }

  /** A control character without a two-character escape: `escapeJsonString` copies it raw. */
  predicate IsRawControl(c: char) {
    IsControl(c) && !HasShortEscape(c)
  }

  /** String contents that section 7 accepts: they decode, and contain no unescaped control
    * character. */
  predicate IsStrictStringBody(t: string) {
    Unescape(t).Some? && forall i :: 0 <= i < |t| ==> !IsControl(t[i])
  }

  /** The control characters of the escaped text are exactly the raw control characters of the
    * string: the escapes themselves are printable. */
  lemma {:induction false} EscapeKeepsRawControls(s: string)
    ensures forall x :: IsControl(x) ==> (x in Escape(s) <==> x in s && !HasShortEscape(x))
  {
    if s != [] {
      EscapeKeepsRawControls(s[1..]);
      assert Escape(s) == EscapeChar(s[0]) + Escape(s[1..]);
      assert s == [s[0]] + s[1..];
    }
  }

  /** The escaped text is valid string contents under section 7 exactly when the string has no
    * control character other than backspace, form feed, line feed, carriage return and tab. */
  lemma EscapeIsStrictIff(s: string)
    ensures IsStrictStringBody(Escape(s)) <==> forall i :: 0 <= i < |s| ==> !IsRawControl(s[i])
  {
    UnescapeEscape(s);
    EscapeKeepsRawControls(s);
    var e := Escape(s);
    assert (forall i :: 0 <= i < |e| ==> !IsControl(e[i])) <==> (forall x :: IsControl(x) ==> x !in e);
    assert (forall i :: 0 <= i < |s| ==> !IsRawControl(s[i])) <==> (forall x :: IsRawControl(x) ==> x !in s);
  }

  /** A concrete case: the unit separator U+001F passes through and makes the text invalid. */
  lemma RawControlPassesThrough()
    ensures Escape("a\U{1F}b") == "a\U{1F}b"
    ensures !IsStrictStringBody(Escape("a\U{1F}b"))
  {
    EscapeIdentity("a\U{1F}b");
    assert IsControl(Escape("a\U{1F}b")[1]);
  }

  // -----------------------------------------------------------------------------------------------
  // appendJsonValue and the document of writeResults

  /** A quoted, escaped string. */
  function Quoted(text: string): string {
    "\"" + text + "\""
  }

  /** One nested entry: four spaces of indent and an escaped key. */
  function NestedMember(key: string, rendered: string): string {
    "    \"" + Escape(key) + "\": " + rendered
  }

  /** The text `appendJsonValue` appends for a value. A nested map is always laid out with its
    * entries at four spaces and its closing brace at two, whatever its depth. */
  function Render(v: Value): string
    decreases v
  {
    match v
    case Null => "null"
    case Num(text) => text
    case Bool(b) => if b then "true" else "false"
    case Str(s) => Quoted(Escape(s))
    case Map(entries) =>
      "{\n" + Join(",\n", seq(|entries|, i requires 0 <= i < |entries| => NestedMember(entries[i].0, Render(entries[i].1)))) + "\n  }"
    case Other(image) => Quoted(EscapeJsonString(image))
  }

  /** One top-level entry: two spaces of indent and the key as it is, not escaped. */
  function TopMember(key: string, rendered: string): string {
    "  \"" + key + "\": " + rendered
  }

  /** The rendered top-level entries. */
  function TopMembers(results: seq<(string, Value)>): (members: seq<string>)
    ensures |members| == |results|
    ensures forall i :: 0 <= i < |results| ==> members[i] == TopMember(results[i].0, Render(results[i].1))
  {
    seq(|results|, i requires 0 <= i < |results| => TopMember(results[i].0, Render(results[i].1)))
  }

  /** The document `writeResults` writes for a result map given in its iteration order. */
  function Document(results: seq<(string, Value)>): string {
    "{\n" + Join(",\n", TopMembers(results)) + "\n}\n"
  }

  /** A one-entry document carries its key as it is, not escaped. */
  lemma TopLevelKeyNotEscaped(key: string, v: Value)
    ensures Document([(key, v)]) == "{\n" + "  \"" + key + "\": " + Render(v) + "\n}\n"
  {
    assert TopMembers([(key, v)]) == [TopMember(key, Render(v))];
  }

  /** A one-entry nested map carries its key escaped. */
  lemma NestedKeyEscaped(key: string, v: Value)
    ensures Render(Map([(key, v)])) == "{\n" + "    \"" + Escape(key) + "\": " + Render(v) + "\n  }"
  {
    var entries := [(key, v)];
    assert seq(|entries|, i requires 0 <= i < |entries| => NestedMember(entries[i].0, Render(entries[i].1)))
        == [NestedMember(key, Render(v))];
  }

  /** The number of characters of `s` that have a two-character escape. */
  function ShortEscapes(s: string): nat {
    if s == [] then 0 else (if HasShortEscape(s[0]) then 1 else 0) + ShortEscapes(s[1..])
  }

  /** Each escaped character adds exactly one backslash. */
  lemma {:induction false} EscapeLength(s: string)
    ensures |Escape(s)| == |s| + ShortEscapes(s)
    ensures ShortEscapes(s) == 0 <==> forall i :: 0 <= i < |s| ==> !HasShortEscape(s[i])
  {
    if s != [] {
      EscapeLength(s[1..]);
      assert forall i :: 1 <= i < |s| ==> s[i] == s[1..][i - 1];
    }
  }

  /** Escaping leaves a string unchanged exactly when it holds none of the seven characters; so
    * the same key differs between the top level and a nested map exactly then. */
  lemma EscapeUnchangedIff(s: string)
    ensures Escape(s) == s <==> forall i :: 0 <= i < |s| ==> !HasShortEscape(s[i])
  {
    EscapeLength(s);
    if forall i :: 0 <= i < |s| ==> !HasShortEscape(s[i]) {
      EscapeIdentity(s);
    }
  }
}
