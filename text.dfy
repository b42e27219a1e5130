/**
 * The few `java.lang.String` and `java.lang.Integer` routines the core relies on, restricted to
 * what the core needs: `trim`, `replace` of one character by nothing, ASCII `equalsIgnoreCase`,
 * `contains`, `String.join`, `Integer.toString` and `Integer.parseInt`.
 */
module Text {
  import opened Wrappers

  // ---------------------------------------------------------------------------------------------
  // trim

  /** `String.trim` removes leading and trailing characters whose code is at most U+0020. */
  predicate IsTrimmable(c: char) {
    c <= ' '
  }

  /** `s.trim().isEmpty()`: every character of `s` is trimmable. */
  predicate IsBlank(s: string) {
    forall i :: 0 <= i < |s| ==> IsTrimmable(s[i])
  }

  /** The first index at or after `st` whose character `trim` keeps, or `|s|`. */
  function SkipLeading(s: string, st: nat): (k: nat)
    requires st <= |s|
    ensures st <= k <= |s|
    ensures forall i :: st <= i < k ==> IsTrimmable(s[i])
    ensures k < |s| ==> !IsTrimmable(s[k])
    decreases |s| - st
  {
    if st < |s| && IsTrimmable(s[st]) then SkipLeading(s, st + 1) else st
  }

  /** The end, at most `len` and at least `st`, once trimmable characters before `len` are dropped. */
  function SkipTrailing(s: string, st: nat, len: nat): (l: nat)
    requires st <= len <= |s|
    ensures st <= l <= len
    ensures forall i :: l <= i < len ==> IsTrimmable(s[i])
    ensures l > st ==> !IsTrimmable(s[l - 1])
    decreases len
  {
    if st < len && IsTrimmable(s[len - 1]) then SkipTrailing(s, st, len - 1) else len
  }

  /** Where the trimmed text starts. */
  function TrimFrom(s: string): nat {
    SkipLeading(s, 0)
  }

  /** Where the trimmed text ends. */
  function TrimTo(s: string): (l: nat)
    ensures TrimFrom(s) <= l <= |s|
  {
    SkipTrailing(s, TrimFrom(s), |s|)
  }

  /** `String.trim`: the slice between the leading and the trailing trimmable characters. */
  function Trim(s: string): (r: string)
    ensures |r| <= |s|
    ensures r == [] || (!IsTrimmable(r[0]) && !IsTrimmable(r[|r| - 1]))
    ensures forall i :: 0 <= i < TrimFrom(s) || TrimTo(s) <= i < |s| ==> IsTrimmable(s[i])
  {
    s[TrimFrom(s)..TrimTo(s)]
  }

  /** Trimming leaves nothing exactly when every character is trimmable. */
  lemma TrimEmpty(s: string)
    ensures Trim(s) == [] <==> IsBlank(s)
  {
  }

  /** A string that neither starts nor ends with a trimmable character is its own trim. */
  lemma TrimIdentity(s: string)
    requires s == [] || (!IsTrimmable(s[0]) && !IsTrimmable(s[|s| - 1]))
    ensures Trim(s) == s
  {
  }

  // ---------------------------------------------------------------------------------------------
  // replace(c, "") and contains

  /** `s.replace(String.valueOf(c), "")`: every occurrence of `c` removed, the rest kept in order. */
  function RemoveChar(s: string, c: char): (r: string)
    ensures forall i :: 0 <= i < |r| ==> r[i] != c
    ensures forall i :: 0 <= i < |r| ==> r[i] in s
    ensures |r| <= |s|
    ensures c !in s ==> r == s
  {
    if s == [] then [] else (if s[0] == c then [] else [s[0]]) + RemoveChar(s[1..], c)
  }

  /** Removing a character distributes over concatenation. */
  lemma {:induction false} RemoveCharAppend(a: string, b: string, c: char)
    ensures RemoveChar(a + b, c) == RemoveChar(a, c) + RemoveChar(b, c)
  {
    if a == [] {
      assert a + b == b;
    } else {
      var h := if a[0] == c then [] else [a[0]];
      assert (a + b)[0] == a[0];
      assert (a + b)[1..] == a[1..] + b;
      RemoveCharAppend(a[1..], b, c);
      assert RemoveChar(a + b, c) == h + RemoveChar(a[1..] + b, c);
    }
  }

  /** Removing `c` leaves nothing exactly when every character is `c`. */
  lemma {:induction false} RemoveCharLeavesNothing(s: string, c: char)
    ensures RemoveChar(s, c) == [] <==> forall i :: 0 <= i < |s| ==> s[i] == c
  {
    if s != [] {
      RemoveCharLeavesNothing(s[1..], c);
      assert forall i :: 1 <= i < |s| ==> s[i] == s[1..][i - 1];
    }
  }

  /** `replace("\"", "")`, the quote stripping used on every field and header. */
  function RemoveQuotes(s: string): string {
    RemoveChar(s, '"')
  }

  // ---------------------------------------------------------------------------------------------
  // equalsIgnoreCase (ASCII case folding)

  function UpperAscii(c: char): (r: char)
    ensures 'a' <= c <= 'z' ==> r as int == c as int - 32
    ensures !('a' <= c <= 'z') ==> r == c
  {
    if 'a' <= c <= 'z' then (c as int - 32) as char else c
  }

  /** `a.equalsIgnoreCase(b)` with case folding restricted to ASCII letters. */
  predicate EqualsIgnoreCase(a: string, b: string) {
    |a| == |b| && forall i :: 0 <= i < |a| ==> UpperAscii(a[i]) == UpperAscii(b[i])
  }

  /** Case-insensitive equality is an equivalence: symmetric and transitive. */
  lemma EqualsIgnoreCaseEquivalence(a: string, b: string, c: string)
    ensures EqualsIgnoreCase(a, a)
    ensures EqualsIgnoreCase(a, b) ==> EqualsIgnoreCase(b, a)
    ensures EqualsIgnoreCase(a, b) && EqualsIgnoreCase(b, c) ==> EqualsIgnoreCase(a, c)
  {
  }

  // ---------------------------------------------------------------------------------------------
  // String.join

  /** `String.join(sep, xs)`. */
  function Join(sep: string, xs: seq<string>): string {
    if |xs| == 0 then "" else if |xs| == 1 then xs[0] else xs[0] + sep + Join(sep, xs[1..])
  }

  /** Joining one more element appends the separator and that element: the shape of the loops
    * that append a separator before every element but the first. */
  lemma {:induction false} JoinSnoc(sep: string, xs: seq<string>, x: string)
    ensures Join(sep, xs + [x]) == if xs == [] then x else Join(sep, xs) + sep + x
  {
    if |xs| > 1 {
      assert (xs + [x])[1..] == xs[1..] + [x];
      JoinSnoc(sep, xs[1..], x);
    }
  }

  // ---------------------------------------------------------------------------------------------
  // decimal integers: Integer.toString and Integer.parseInt

  const IntMin: int := -0x8000_0000
  const IntMax: int := 0x7fff_ffff

  predicate IsDigit(c: char) {
    '0' <= c <= '9'
  }

  predicate AllDigits(s: string) {
    forall i :: 0 <= i < |s| ==> IsDigit(s[i])
  }

  function DigitChar(d: nat): (c: char)
    requires d < 10
    ensures IsDigit(c) && c as int - '0' as int == d
  {
    ('0' as int + d) as char
  }

  /** The value of a run of decimal digits, most significant first. */
  function DigitsValue(s: string): nat
    requires AllDigits(s)
  {
    if s == [] then 0 else 10 * DigitsValue(s[..|s| - 1]) + (s[|s| - 1] as int - '0' as int)
  }

  /** The decimal numeral of `n` without leading zeros. */
  function NatToString(n: nat): (r: string)
    ensures |r| >= 1 && AllDigits(r)
    ensures r[0] != '0' || n == 0
  {
    if n < 10 then [DigitChar(n)] else NatToString(n / 10) + [DigitChar(n % 10)]
  }

  /** `Integer.toString(i)`: a minus sign for negative values, then the digits. */
  function IntToString(i: int): (r: string)
    ensures |r| >= 1
    ensures r[0] == '-' <==> i < 0
  {
    if i < 0 then "-" + NatToString(-i) else NatToString(i)
  }

  lemma {:induction false} NatToStringValue(n: nat)
    ensures DigitsValue(NatToString(n)) == n
  {
    if n >= 10 {
      var s := NatToString(n);
      assert s[..|s| - 1] == NatToString(n / 10);
      NatToStringValue(n / 10);
    }
  }

  /** The text `Integer.parseInt` accepts before its range check: an optional `+` or `-`, then at
    * least one decimal digit. */
  predicate IsIntLiteral(s: string) {
    || (|s| >= 1 && AllDigits(s))
    || (|s| >= 2 && (s[0] == '-' || s[0] == '+') && AllDigits(s[1..]))
  }

  function LiteralValue(s: string): int
    requires IsIntLiteral(s)
  {
    if s[0] == '-' then 0 - DigitsValue(s[1..]) else if s[0] == '+' then DigitsValue(s[1..]) else DigitsValue(s)
  }

  /** `Integer.parseInt(s)`: `None` stands for the `NumberFormatException`, raised for anything
    * that is not a signed decimal literal or whose value lies outside the 32-bit range. */
  function ParseInt(s: string): (r: Option<int>)
    ensures r.Some? ==> IntMin <= r.value <= IntMax
    ensures s == [] ==> r == None
  {
    if IsIntLiteral(s) && IntMin <= LiteralValue(s) <= IntMax then Some(LiteralValue(s)) else None
  }

  /** The decimal text of an integer has no quote and nothing `trim` would remove. */
  lemma IntToStringIsPlain(n: int)
    ensures '"' !in IntToString(n)
    ensures !IsTrimmable(IntToString(n)[0]) && !IsTrimmable(IntToString(n)[|IntToString(n)| - 1])
  {
    var s := IntToString(n);
    var d := if n < 0 then NatToString(-n) else NatToString(n);
    assert s[|s| - 1] == d[|d| - 1];
    assert forall i :: 0 <= i < |s| ==> s[i] == '-' || IsDigit(s[i]) by {
      forall i | 0 <= i < |s| ensures s[i] == '-' || IsDigit(s[i]) {
        if n < 0 && i > 0 { assert s[i] == d[i - 1]; }
      }
    }
  }

  /** Every 32-bit value survives `Integer.toString` followed by `Integer.parseInt`. */
  lemma ParseIntRoundTrip(n: int)
    requires IntMin <= n <= IntMax
    ensures ParseInt(IntToString(n)) == Some(n)
  {
    if n < 0 {
      var d := NatToString(-n);
      NatToStringValue(-n);
      var s := "-" + d;
      assert s[0] == '-' && s[1..] == d;
      assert IsIntLiteral(s) && LiteralValue(s) == n;
    } else {
      var d := NatToString(n);
      NatToStringValue(n);
      assert d[0] != '-' && d[0] != '+';
      assert IsIntLiteral(d) && LiteralValue(d) == n;
    }
  }

  /** `Integer.parseInt` rejects a value one past the 32-bit maximum. */
  lemma ParseIntRejectsOverflow()
    ensures ParseInt(NatToString(IntMax + 1)) == None
  {
    NatToStringValue(IntMax + 1);
  }
}
