/** The Python string operations the modelled code uses. */
module PyText {
  /** str.isspace for one character; the regular expression class \s is the same set. */
  predicate IsSpace(c: char) {
    || '\t' <= c <= '\r' || c == ' ' || '\U{1c}' <= c <= '\U{1f}' || c == '\U{85}' || c == '\U{a0}' || c == '\U{1680}'
    || '\U{2000}' <= c <= '\U{200a}' || c == '\U{2028}' || c == '\U{2029}' || c == '\U{202f}' || c == '\U{205f}' ||
      c == '\U{3000}'
  }

  /** The characters str.splitlines ends a line at. */
  predicate IsLineBoundary(c: char) {
    '\n' <= c <= '\r' || '\U{1c}' <= c <= '\U{1e}' || c == '\U{85}' || c == '\U{2028}' || c == '\U{2029}'
  }

  /** The word stands in s at position i. */
  predicate At(s: string, word: string, i: nat) { i + |word| <= |s| && s[i..i + |word|] == word }

  /** word in s. */
  predicate Contains(s: string, word: string) { exists i :: 0 <= i <= |s| && At(s, word, i) }

  lemma ContainsChar(s: string, c: char)
    ensures Contains(s, [c]) <==> c in s
  {
    if Contains(s, [c]) {
      var i :| 0 <= i <= |s| && At(s, [c], i);
      assert s[i] == s[i..i + 1][0];
    }
    if c in s {
      var i :| 0 <= i < |s| && s[i] == c;
      assert At(s, [c], i);
    }
  }

  /** str.lower on ASCII letters; other characters are left alone. */
  function AsciiLower(s: string): (r: string)
    ensures |r| == |s|
  {
    if s == "" then "" else [if 'A' <= s[0] <= 'Z' then (s[0] as int + 32) as char else s[0]] + AsciiLower(s[1..])
  }

  function LStrip(s: string): (r: string)
    ensures |r| <= |s| && r == s[|s| - |r|..]
    ensures r == "" || !IsSpace(r[0])
    ensures forall i :: 0 <= i < |s| - |r| ==> IsSpace(s[i])
  {
    if s != "" && IsSpace(s[0]) then LStrip(s[1..]) else s
  }

  function RStrip(s: string): (r: string)
    ensures |r| <= |s| && r == s[..|r|]
    ensures r == "" || !IsSpace(r[|r| - 1])
    ensures forall i :: |r| <= i < |s| ==> IsSpace(s[i])
  {
    if s != "" && IsSpace(s[|s| - 1]) then RStrip(s[..|s| - 1]) else s
  }

  function Strip(s: string): string { RStrip(LStrip(s)) }

  /** The first position of a line boundary, or the length. */
  function LineEnd(s: string): (k: nat)
    ensures k <= |s| && (k < |s| ==> IsLineBoundary(s[k]))
    ensures forall i :: 0 <= i < k ==> !IsLineBoundary(s[i])
  {
    if s == "" || IsLineBoundary(s[0]) then 0 else 1 + LineEnd(s[1..])
  }

  /** str.splitlines: a carriage return and a newline together end one line. */
  function SplitLines(s: string): seq<string>
    decreases |s|
  {
    if s == "" then []
    else
      var k := LineEnd(s);
      if k == |s| then [s]
      else if s[k] == '\r' && k + 1 < |s| && s[k + 1] == '\n' then [s[..k]] + SplitLines(s[k + 2..])
      else [s[..k]] + SplitLines(s[k + 1..])
  }

  /** "\n".join(lines). */
  function JoinLines(lines: seq<string>): string {
    if lines == [] then "" else if |lines| == 1 then lines[0] else lines[0] + "\n" + JoinLines(lines[1..])
  }

  /** Every line followed by a newline, as a file is written. */
  function Unlines(lines: seq<string>): string {
    if lines == [] then "" else lines[0] + "\n" + Unlines(lines[1..])
  }

  /** Joined lines are the written ones without the last newline. */
  lemma {:induction false} JoinedIsWritten(lines: seq<string>)
    requires lines != []
    ensures JoinLines(lines) + "\n" == Unlines(lines)
  {
    if |lines| == 1 {
      assert Unlines(lines[1..]) == "" && lines[0] + "\n" + "" == lines[0] + "\n";
    } else {
      JoinedIsWritten(lines[1..]);
      assert JoinLines(lines) + "\n" == lines[0] + "\n" + (JoinLines(lines[1..]) + "\n");
    }
  }

  predicate OneLine(s: string) { forall i :: 0 <= i < |s| ==> !IsLineBoundary(s[i]) }

  lemma LineEndOf(line: string, rest: string)
    requires OneLine(line)
    ensures LineEnd(line + "\n" + rest) == |line|
  {
    var s := line + "\n" + rest;
    assert forall i :: 0 <= i < |line| ==> s[i] == line[i];
    assert s[|line|] == '\n';
  }

  /** splitlines undoes writing the lines. */
  lemma {:induction false} SplitLinesOfUnlines(lines: seq<string>)
    requires forall i :: 0 <= i < |lines| ==> OneLine(lines[i])
    ensures SplitLines(Unlines(lines)) == lines
  {
    if lines != [] {
      var rest := Unlines(lines[1..]);
      var s := lines[0] + "\n" + rest;
      LineEndOf(lines[0], rest);
      assert s[|lines[0]|] == '\n';
      assert s[..|lines[0]|] == lines[0] && s[|lines[0]| + 1..] == rest;
      SplitLinesOfUnlines(lines[1..]);
    }
  }

  /** And joining them, if the last is not empty. */
  lemma {:induction false} SplitLinesOfJoined(lines: seq<string>)
    requires lines != [] && lines[|lines| - 1] != "" && forall i :: 0 <= i < |lines| ==> OneLine(lines[i])
    ensures SplitLines(JoinLines(lines)) == lines
  {
    if |lines| == 1 {
      assert LineEnd(lines[0]) == |lines[0]|;
    } else {
      var rest := JoinLines(lines[1..]);
      var s := lines[0] + "\n" + rest;
      LineEndOf(lines[0], rest);
      assert s[|lines[0]|] == '\n';
      assert s[..|lines[0]|] == lines[0] && s[|lines[0]| + 1..] == rest;
      SplitLinesOfJoined(lines[1..]);
    }
  }

  /** The text has no blanks at its ends. */
  predicate Trimmed(s: string) { s != "" && !IsSpace(s[0]) && !IsSpace(s[|s| - 1]) }

  lemma TrimmedIsStripped(s: string)
    requires Trimmed(s)
    ensures Strip(s) == s && Strip(s + "\n") == s
  {
    assert (s + "\n")[0] == s[0] && (s + "\n")[..|s|] == s && (s + "\n")[|s|] == '\n';
    assert RStrip(s + "\n") == RStrip(s);
  }

  /** str of a natural number. */
  function Decimal(n: nat): (r: string)
    ensures |r| >= 1 && (|r| >= 2 <==> n >= 10)
  {
    if n < 10 then [('0' as int + n) as char] else Decimal(n / 10) + [('0' as int + n % 10) as char]
  }

  lemma {:induction false} DecimalInjective(n: nat, m: nat)
    requires Decimal(n) == Decimal(m)
    ensures n == m
  {
    assert Decimal(n)[|Decimal(n)| - 1] == Decimal(m)[|Decimal(m)| - 1];
    assert n % 10 == m % 10;
    if n >= 10 && m >= 10 {
      assert Decimal(n)[..|Decimal(n)| - 1] == Decimal(n / 10) && Decimal(m)[..|Decimal(m)| - 1] == Decimal(m / 10);
      DecimalInjective(n / 10, m / 10);
    }
  }
}
