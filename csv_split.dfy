/**
 * The line split shared by both CSV parsers and the validator:
 * `line.split(",(?=(?:[^\"]*\"[^\"]*\")*[^\"]*$)", -1)`.
 *
 * The lookahead accepts a comma exactly when the rest of the line holds an even number of `"`
 * characters, so a comma inside a quoted span (odd number of quotes still to come) is kept in its
 * field. The limit -1 keeps trailing empty fields, so a line always yields one field more than it
 * has separating commas.
 */
module CsvSplit {
  import opened Text

  /** The number of `"` characters in `s`. */
  function QuoteCount(s: string): nat {
    if s == [] then 0 else (if s[0] == '"' then 1 else 0) + QuoteCount(s[1..])
  }

  /** The character at `i` is a comma that the split pattern matches: an even number of quotes
    * follows it up to the end of the line. */
  predicate IsSeparator(line: string, i: int) {
    0 <= i < |line| && line[i] == ',' && QuoteCount(line[i + 1..]) % 2 == 0
  }

  /** Whether a position is a separator depends only on the rest of the line. */
  lemma SeparatorShift(line: string, n: nat, i: nat)
    requires n <= |line|
    ensures IsSeparator(line[n..], i) <==> IsSeparator(line, n + i)
  {
    if i < |line| - n {
      assert line[n..][i] == line[n + i];
      assert line[n..][i + 1..] == line[n + i + 1..];
    }
  }

  /** The first separator at or after `from`, or `|line|` when there is none. */
  function FirstSeparator(line: string, from: nat): (k: nat)
    requires from <= |line|
    ensures from <= k <= |line|
    ensures k < |line| ==> IsSeparator(line, k)
    ensures forall j :: from <= j < k ==> !IsSeparator(line, j)
    decreases |line| - from
  {
    if from == |line| || IsSeparator(line, from) then from else FirstSeparator(line, from + 1)
  }

  /** `String.split` with the quote-aware pattern and limit -1. */
  function Split(line: string): (fields: seq<string>)
    ensures |fields| >= 1
    decreases |line|
  {
    var k := FirstSeparator(line, 0);
    if k == |line| then [line] else [line[..k]] + Split(line[k + 1..])
  }

  /** Joining the fields with `,` gives back the line. */
  lemma {:induction false} SplitJoin(line: string)
    ensures Join(",", Split(line)) == line
    decreases |line|
  {
    var k := FirstSeparator(line, 0);
    if k < |line| {
      var rest := line[k + 1..];
      SplitJoin(rest);
      assert Split(line) == [line[..k]] + Split(rest);
      assert ([line[..k]] + Split(rest))[1..] == Split(rest);
      assert line == line[..k] + "," + rest;
    }
  }

  /** Position `i` of `Join(",", fields)` holds one of the commas that join the fields. */
  predicate IsJoinPosition(fields: seq<string>, i: int)
    decreases |fields|
  {
    && |fields| > 1
    && (|| i == |fields[0]|
        || (i > |fields[0]| && IsJoinPosition(fields[1..], i - |fields[0]| - 1)))
  }

  /** The split pattern and the field boundaries agree: a position of the line is a separator
    * exactly when it is one of the commas between two consecutive fields. With `SplitJoin` this
    * determines the fields. */
  lemma {:induction false} SplitSeparators(line: string, i: int)
    ensures IsSeparator(line, i) <==> IsJoinPosition(Split(line), i)
    decreases |line|
  {
    var k := FirstSeparator(line, 0);
    var fields := Split(line);
    if k == |line| {
      assert fields == [line];
    } else {
      var rest := line[k + 1..];
      assert fields == [line[..k]] + Split(rest);
      assert fields[1..] == Split(rest);
      assert |fields[0]| == k;
      if i > k {
        SeparatorShift(line, k + 1, i - k - 1);
        SplitSeparators(rest, i - k - 1);
      }
    }
  }

  /** The number of separators at or after position `from`. */
  function SeparatorsFrom(line: string, from: nat): nat
    requires from <= |line|
    decreases |line| - from
  {
    if from == |line| then 0 else (if IsSeparator(line, from) then 1 else 0) + SeparatorsFrom(line, from + 1)
  }

  lemma {:induction false} SeparatorsFromShift(line: string, n: nat, j: nat)
    requires n + j <= |line|
    ensures SeparatorsFrom(line[n..], j) == SeparatorsFrom(line, n + j)
    decreases |line| - n - j
  {
    if n + j < |line| {
      SeparatorShift(line, n, j);
      SeparatorsFromShift(line, n, j + 1);
    }
  }

  lemma {:induction false} SeparatorsFromGap(line: string, from: nat, k: nat)
    requires from <= k <= |line|
    requires forall j :: from <= j < k ==> !IsSeparator(line, j)
    ensures SeparatorsFrom(line, from) == SeparatorsFrom(line, k)
    decreases k - from
  {
    if from < k {
      SeparatorsFromGap(line, from + 1, k);
    }
  }

  /** A line yields one field more than it has separators: trailing empty fields are kept. */
  lemma {:induction false} SplitCount(line: string)
    ensures |Split(line)| == SeparatorsFrom(line, 0) + 1
    decreases |line|
  {
    var k := FirstSeparator(line, 0);
    SeparatorsFromGap(line, 0, k);
    if k < |line| {
      var rest := line[k + 1..];
      SplitCount(rest);
      SeparatorsFromShift(line, k + 1, 0);
    }
  }
}
