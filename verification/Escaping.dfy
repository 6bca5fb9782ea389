/** Escapes and checks for values placed into commands (app/core/hardening_param_security.py), against
    readers of the text they end up in. Every check also bounds the length and refuses NUL. */
module Escaping {
  import opened Options
  import opened PyText

  /** str.replace of one character by a string. */
  function ReplaceChar(s: string, c: char, replacement: string): string {
    if s == "" then "" else (if s[0] == c then replacement else [s[0]]) + ReplaceChar(s[1..], c, replacement)
  }

  predicate Acceptable(value: string, maxLength: nat) { |value| <= maxLength && '\0' !in value }

  // ---------- inside a POSIX single-quoted word ----------

  const QUOTE_ESCAPE := ['\'', '\\', '\'', '\'']

  function EscapeSingleQuotedShellLiteral(value: string, deny: seq<string>, maxLength: nat): (r: Option<string>)
    ensures r.Some? <==>
            && |value| <= maxLength
            && '\0' !in value
            && forall i :: 0 <= i < |deny| ==> !Contains(value, deny[i])
  {
    if Acceptable(value, maxLength) && forall i :: 0 <= i < |deny| ==> !Contains(value, deny[i])
    then Some(ReplaceChar(value, '\'', QUOTE_ESCAPE)) else None
  }

  datatype Quoting = Unquoted | Backslash | SingleQuoted

  /** What a shell has made of some text: the quoting state, the characters taken literally, and whether
      every character was one of those or quoting. */
  datatype Shell = Shell(q: Quoting, text: string, clean: bool)

  /** POSIX Shell Command Language, sections 2.2.1 and 2.2.2. An unquoted character that is neither a
      backslash nor a quote is the shell's to interpret. */
  function ShellStep(sh: Shell, c: char): Shell {
    match sh.q
    case SingleQuoted => if c == '\'' then sh.(q := Unquoted) else sh.(text := sh.text + [c])
    case Backslash => Shell(Unquoted, if c == '\n' then sh.text else sh.text + [c], sh.clean)
    case Unquoted =>
      if c == '\\' then sh.(q := Backslash) else if c == '\'' then sh.(q := SingleQuoted) else sh.(clean := false)
  }

  function ShellRead(sh: Shell, s: string): Shell
    decreases |s|
  {
    if s == "" then sh else ShellRead(ShellStep(sh, s[0]), s[1..])
  }

  function Inside(text: string): Shell { Shell(SingleQuoted, text, true) }

  lemma {:induction false} ShellReadAppend(sh: Shell, a: string, b: string)
    ensures ShellRead(sh, a + b) == ShellRead(ShellRead(sh, a), b)
    decreases |a|
  {
    if a == "" {
      assert a + b == b;
    } else {
      assert (a + b)[0] == a[0] && (a + b)[1..] == a[1..] + b;
      ShellReadAppend(ShellStep(sh, a[0]), a[1..], b);
    }
  }

  lemma OneChar(sh: Shell, c: char)
    ensures ShellRead(sh, [c]) == ShellStep(sh, c)
  {
    assert [c][1..] == "";
  }

  lemma QuoteEscapeReadsAsAQuote(text: string)
    ensures ShellRead(Inside(text), QUOTE_ESCAPE) == Inside(text + "'")
  {
    assert QUOTE_ESCAPE[1..] == ['\\', '\'', '\''] && QUOTE_ESCAPE[1..][1..] == ['\'', '\''] &&
      QUOTE_ESCAPE[1..][1..][1..] == ['\''];
    OneChar(Shell(Unquoted, text + "'", true), '\'');
    assert ShellRead(Shell(Backslash, text, true), ['\'', '\'']) == Inside(text + "'");
    assert ShellRead(Shell(Unquoted, text, true), ['\\', '\'', '\'']) == Inside(text + "'");
  }

  lemma {:induction false} EscapedReads(text: string, value: string)
    ensures ShellRead(Inside(text), ReplaceChar(value, '\'', QUOTE_ESCAPE)) == Inside(text + value)
    decreases |value|
  {
    if value == "" {
      assert text + value == text;
    } else {
      var first := if value[0] == '\'' then QUOTE_ESCAPE else [value[0]];
      ShellReadAppend(Inside(text), first, ReplaceChar(value[1..], '\'', QUOTE_ESCAPE));
      QuoteEscapeReadsAsAQuote(text);
      OneChar(Inside(text), value[0]);
      EscapedReads(text + [value[0]], value[1..]);
      assert text + [value[0]] + value[1..] == text + value;
    }
  }

  /** What the primitive returns reads, inside an open single-quoted region, as the value, and the region
      stays open. */
  lemma ShellReadsTheValue(text: string, value: string, deny: seq<string>, maxLength: nat)
    requires EscapeSingleQuotedShellLiteral(value, deny, maxLength).Some?
    ensures ShellRead(Inside(text), EscapeSingleQuotedShellLiteral(value, deny, maxLength).value) ==
            Inside(text + value)
  {
    EscapedReads(text, value);
  }

  lemma {:induction false} ReadsNoMore(sh: Shell, s: string)
    ensures |ShellRead(sh, s).text| <= |sh.text| + |s|
    decreases |s|
  {
    if s != "" {
      ReadsNoMore(ShellStep(sh, s[0]), s[1..]);
    }
  }

  /** Unescaped, exactly the values without a quote read as themselves: the reason the other primitives
      deny the quote and this one escapes it. */
  lemma {:induction false} RawIsLiteralIffQuoteFree(text: string, s: string)
    ensures ShellRead(Inside(text), s) == Inside(text + s) <==> '\'' !in s
    decreases |s|
  {
    if s == "" {
      assert text + s == text;
    } else if s[0] == '\'' {
      ReadsNoMore(ShellStep(Inside(text), s[0]), s[1..]);
    } else {
      RawIsLiteralIffQuoteFree(text + [s[0]], s[1..]);
      assert text + [s[0]] + s[1..] == text + s;
    }
  }

  /** What follows such a quote is the shell's to interpret, unless it is a quote or a backslash. */
  lemma RawQuoteLetsOut(text: string, c: char, rest: string)
    requires c != '\'' && c != '\\'
    ensures !ShellRead(Inside(text), ['\'', c] + rest).clean
  {
    var sh := Shell(Unquoted, text, true);
    assert (['\'', c] + rest)[1..] == [c] + rest && ([c] + rest)[1..] == rest;
    StaysUnclean(ShellStep(sh, c), rest);
  }

  lemma {:induction false} StaysUnclean(sh: Shell, s: string)
    requires !sh.clean
    ensures !ShellRead(sh, s).clean
    decreases |s|
  {
    if s != "" {
      StaysUnclean(ShellStep(sh, s[0]), s[1..]);
    }
  }

  /** In a template '<before>{VALUE}<after>' the whole is one literal word: before, value, after. */
  lemma TemplateWordIsLiteral(before: string, value: string, after: string, deny: seq<string>, maxLength: nat)
    requires '\'' !in before && '\'' !in after
    requires EscapeSingleQuotedShellLiteral(value, deny, maxLength).Some?
    ensures var e := EscapeSingleQuotedShellLiteral(value, deny, maxLength).value;
            ShellRead(Shell(Unquoted, "", true), "'" + (before + (e + (after + "'")))) ==
            Shell(Unquoted, before + value + after, true)
  {
    var e := EscapeSingleQuotedShellLiteral(value, deny, maxLength).value;
    ShellReadAppend(Shell(Unquoted, "", true), "'", before + (e + (after + "'")));
    OneChar(Shell(Unquoted, "", true), '\'');
    ShellReadAppend(Inside(""), before, e + (after + "'"));
    RawIsLiteralIffQuoteFree("", before);
    assert "" + before == before;
    ShellReadAppend(Inside(before), e, after + "'");
    ShellReadsTheValue(before, value, deny, maxLength);
    ShellReadAppend(Inside(before + value), after, "'");
    RawIsLiteralIffQuoteFree(before + value, after);
    OneChar(Inside(before + value + after), '\'');
  }

  // ---------- inside a PowerShell single-quoted string ----------

  predicate HasControl(s: string) { exists i :: 0 <= i < |s| && (s[i] < ' ' || s[i] == '\U{7f}') }

  function EscapePowershellSingleQuoted(value: string, maxLength: nat): (r: Option<string>)
    ensures r.Some? <==>
            |value| <= maxLength && forall i :: 0 <= i < |value| ==> value[i] >= ' ' && value[i] != '\U{7f}'
  {
    if |value| <= maxLength && !HasControl(value) then Some(ReplaceChar(value, '\'', "''")) else None
  }

  /** A reader inside '...': two quotes in a row are one literal quote, one alone ends the string.
      `quotes` are the characters it takes for a single quotation mark. */
  function QuotedRead(quotes: set<char>, s: string): (bool, string) {
    if s == "" then (true, "")
    else if s[0] in quotes then
      if |s| > 1 && s[1] in quotes then
        var (open, text) := QuotedRead(quotes, s[2..]);
        (open, [s[1]] + text)
      else (false, "")
    else
      var (open, text) := QuotedRead(quotes, s[1..]);
      (open, [s[0]] + text)
  }

  function Count(cs: set<char>, s: string): nat {
    if s == "" then 0 else (if s[0] in cs then 1 else 0) + Count(cs, s[1..])
  }

  lemma {:induction false} QuotedReadLength(quotes: set<char>, s: string)
    ensures QuotedRead(quotes, s).0 ==> 2 * |QuotedRead(quotes, s).1| == 2 * |s| - Count(quotes, s)
    decreases |s|
  {
    if s != "" {
      if s[0] in quotes {
        if |s| > 1 && s[1] in quotes {
          assert s[1..][0] == s[1] && s[1..][1..] == s[2..];
          QuotedReadLength(quotes, s[2..]);
        }
      } else {
        QuotedReadLength(quotes, s[1..]);
      }
    }
  }

  lemma {:induction false} DoubledCounts(quotes: set<char>, value: string)
    requires '\'' in quotes
    ensures var d := ReplaceChar(value, '\'', "''");
            2 * |d| - Count(quotes, d) == 2 * |value| - Count(quotes - {'\''}, value)
  {
    if value != "" {
      DoubledCounts(quotes, value[1..]);
      var d := ReplaceChar(value[1..], '\'', "''");
      if value[0] == '\'' {
        assert ("''" + d)[0] == '\'' && ("''" + d)[1..] == "'" + d && ("'" + d)[0] == '\'' && ("'" + d)[1..] == d;
        assert Count(quotes, "'" + d) == 1 + Count(quotes, d);
      } else {
        assert ([value[0]] + d)[1..] == d;
      }
    }
  }

  lemma {:induction false} NoneCounted(cs: set<char>, s: string)
    ensures Count(cs, s) == 0 <==> forall i :: 0 <= i < |s| ==> s[i] !in cs
  {
    if s != "" {
      NoneCounted(cs, s[1..]);
    }
  }

  lemma {:induction false} DoubledReads(quotes: set<char>, value: string)
    requires '\'' in quotes && forall i :: 0 <= i < |value| ==> value[i] !in quotes - {'\''}
    ensures QuotedRead(quotes, ReplaceChar(value, '\'', "''")) == (true, value)
  {
    if value != "" {
      DoubledReads(quotes, value[1..]);
      var d := ReplaceChar(value[1..], '\'', "''");
      if value[0] == '\'' {
        assert ("''" + d)[0] == '\'' && ("''" + d)[1] == '\'' && ("''" + d)[2..] == d;
      } else {
        assert ([value[0]] + d)[1..] == d;
      }
      assert [value[0]] + value[1..] == value;
    }
  }

  /** Quote doubling round-trips, and the string stays open, for exactly the values without another
      character the reader takes for a quote. For a reader that knows only ' it always does. */
  lemma DoublingRoundTripsIff(quotes: set<char>, value: string)
    requires '\'' in quotes
    ensures QuotedRead(quotes, ReplaceChar(value, '\'', "''")) == (true, value) <==>
            forall i :: 0 <= i < |value| ==> value[i] !in quotes - {'\''}
  {
    var d := ReplaceChar(value, '\'', "''");
    if forall i :: 0 <= i < |value| ==> value[i] !in quotes - {'\''} {
      DoubledReads(quotes, value);
    } else {
      QuotedReadLength(quotes, d);
      DoubledCounts(quotes, value);
      NoneCounted(quotes - {'\''}, value);
    }
  }

  /** What PowerShell takes for a single quotation mark: the apostrophe and the typographic ones. */
  const POWERSHELL_QUOTES := {'\'', '\U{2018}', '\U{2019}', '\U{201a}', '\U{201b}'}

  lemma TypographicQuotes(c: char)
    ensures c in POWERSHELL_QUOTES - {'\''} <==> '\U{2018}' <= c <= '\U{201b}'
  {
    if '\U{2018}' <= c <= '\U{201b}' {
      assert c as int == 0x2018 || c as int == 0x2019 || c as int == 0x201a || c as int == 0x201b;
    }
  }

  /** So the apostrophe is not the only character that can end the string: what the primitive returns reads
      back exactly for values without a typographic quote. */
  lemma PowershellReadsTheValueIff(value: string, maxLength: nat)
    requires EscapePowershellSingleQuoted(value, maxLength).Some?
    ensures QuotedRead(POWERSHELL_QUOTES, EscapePowershellSingleQuoted(value, maxLength).value) == (true, value) <==>
            forall i :: 0 <= i < |value| ==> !('\U{2018}' <= value[i] <= '\U{201b}')
  {
    DoublingRoundTripsIff(POWERSHELL_QUOTES, value);
    forall i | 0 <= i < |value|
      ensures value[i] in POWERSHELL_QUOTES - {'\''} <==> '\U{2018}' <= value[i] <= '\U{201b}'
    {
      TypographicQuotes(value[i]);
    }
  }

  lemma {:induction false} ReadsUpTo(quotes: set<char>, before: string, rest: string)
    requires forall i :: 0 <= i < |before| ==> before[i] !in quotes
    ensures QuotedRead(quotes, before + rest) == (QuotedRead(quotes, rest).0, before + QuotedRead(quotes, rest).1)
  {
    if before == "" {
      assert before + rest == rest && before + QuotedRead(quotes, rest).1 == QuotedRead(quotes, rest).1;
    } else {
      assert (before + rest)[0] == before[0] && (before + rest)[1..] == before[1..] + rest;
      ReadsUpTo(quotes, before[1..], rest);
      assert [before[0]] + (before[1..] + QuotedRead(quotes, rest).1) == before + QuotedRead(quotes, rest).1;
    }
  }

  lemma {:induction false} ReplaceNothing(s: string, c: char, replacement: string)
    requires c !in s
    ensures ReplaceChar(s, c, replacement) == s
  {
    if s != "" {
      ReplaceNothing(s[1..], c, replacement);
      assert [s[0]] + s[1..] == s;
    }
  }

  /** A name like O’Brien, with the typographic apostrophe, is accepted and left as it is, and the string ends
      where the apostrophe stands. */
  lemma TypographicApostropheEndsTheString(before: string, after: string, maxLength: nat)
    requires forall c :: c in before + after ==> c !in POWERSHELL_QUOTES
    requires |before| + 1 + |after| <= maxLength && !HasControl(before) && !HasControl(after)
    ensures var value := before + "\U{2019}" + after;
            EscapePowershellSingleQuoted(value, maxLength) == Some(value) &&
            QuotedRead(POWERSHELL_QUOTES, value) == (false, before)
  {
    var rest := "\U{2019}" + after;
    assert forall c :: c in before || c in after ==> c in before + after;
    assert before + "\U{2019}" + after == before + rest && rest[0] == '\U{2019}';
    assert |rest| > 1 ==> rest[1] == after[0];
    ReadsUpTo(POWERSHELL_QUOTES, before, rest);
    ReplaceNothing(before + rest, '\'', "''");
    assert before + "" == before;
    var value := before + rest;
    forall i | 0 <= i < |value| ensures !(value[i] < ' ' || value[i] == '\U{7f}') {
      assert value[i] == if i < |before| then before[i] else if i == |before| then '\U{2019}' else
                         after[i - |before| - 1];
    }
  }

  // ---------- a here-document body ----------

  function ValidateHeredocBody(value: string, delimiter: string, maxLength: nat): (r: Option<string>)
    ensures r.Some? <==>
            && |value| <= maxLength
            && '\0' !in value
            && !exists line :: line in SplitLines(value) && Strip(line) == delimiter
    ensures r.Some? ==> r.value == value
  {
    var lines := SplitLines(value);
    if Acceptable(value, maxLength) && (forall i :: 0 <= i < |lines| ==> Strip(lines[i]) != delimiter)
    then Some(value)
    else None
  }

  /** A word that can be written after << and compared with a stripped line. */
  predicate DelimiterWord(d: string) { d != "" && OneLine(d) && Strip(d) == d }

  /** The first newline, or the length. */
  function Newline(s: string): (k: nat)
    ensures k <= |s| && (k < |s| ==> s[k] == '\n') && forall i :: 0 <= i < k ==> s[i] != '\n'
  {
    NewlineFrom(s, 0)
  }

  function NewlineFrom(s: string, i: nat): (k: nat)
    requires i <= |s|
    ensures i <= k <= |s| && (k < |s| ==> s[k] == '\n') && forall j :: i <= j < k ==> s[j] != '\n'
    decreases |s| - i
  {
    if i == |s| || s[i] == '\n' then i else NewlineFrom(s, i + 1)
  }

  /** A here-document: lines up to one that is just the delimiter (POSIX Shell Command Language, section
      2.7.4); what was read, and what is left. None: the input ends before. */
  function HeredocRead(s: string, delimiter: string): Option<(string, string)>
    decreases |s|
  {
    var k := Newline(s);
    if s[..k] == delimiter then Some(("", s[Least(k + 1, |s|)..]))
    else if k == |s| then None
    else
      var more := HeredocRead(s[k + 1..], delimiter);
      if more.None? then None else Some((s[..k + 1] + more.value.0, more.value.1))
  }

  function Least(a: nat, b: nat): nat { if a <= b then a else b }

  /** Some line of the text, as the shell counts lines, is just the delimiter. */
  predicate HasLine(s: string, delimiter: string)
    decreases |s|
  {
    var k := Newline(s);
    s[..k] == delimiter || (k < |s| && HasLine(s[k + 1..], delimiter))
  }

  lemma LineStep(line: string, tail: string, delimiter: string)
    requires '\n' !in line
    ensures HeredocRead(line + "\n" + tail, delimiter) ==
            if line == delimiter then Some(("", tail))
            else match HeredocRead(tail, delimiter)
              case None => None
              case Some(more) => Some((line + "\n" + more.0, more.1))
    ensures HasLine(line + "\n" + tail, delimiter) <==> line == delimiter || HasLine(tail, delimiter)
  {
    var s := line + "\n" + tail;
    assert forall i :: 0 <= i < |line| ==> s[i] == line[i];
    assert s[|line|] == '\n';
    assert Newline(s) == |line| && s[..|line|] == line && s[|line| + 1..] == tail && s[..|line| + 1] == line + "\n";
  }

  lemma LastLine(line: string, delimiter: string)
    requires '\n' !in line
    ensures HasLine(line, delimiter) <==> line == delimiter
  {
    assert Newline(line) == |line| && line[..|line|] == line;
  }

  /** The value comes back whole exactly when none of its lines is the delimiter. */
  lemma {:induction false} ReadWholeIffNoDelimiterLine(value: string, delimiter: string, rest: string)
    requires '\n' !in delimiter
    ensures HeredocRead(value + "\n" + (delimiter + "\n" + rest), delimiter) == Some((value + "\n", rest)) <==>
            !HasLine(value, delimiter)
    decreases |value|
  {
    var k := Newline(value);
    var line, tail := value[..k], delimiter + "\n" + rest;
    LineStep(delimiter, rest, delimiter);
    if k == |value| {
      assert line == value;
      LineStep(value, tail, delimiter);
      LastLine(value, delimiter);
      assert value + "\n" + "" == value + "\n";
    } else {
      var shorter := value[k + 1..];
      assert value == line + "\n" + shorter;
      assert value + "\n" + tail == line + "\n" + (shorter + "\n" + tail);
      LineStep(line, shorter + "\n" + tail, delimiter);
      LineStep(line, shorter, delimiter);
      ReadWholeIffNoDelimiterLine(shorter, delimiter, rest);
      SamePrefix(line + "\n", shorter + "\n", HeredocRead(shorter + "\n" + tail, delimiter));
      assert line + "\n" + (shorter + "\n") == value + "\n";
    }
  }

  lemma SamePrefix(a: string, b: string, more: Option<(string, string)>)
    ensures more.Some? ==> (a + more.value.0 == a + b <==> more.value.0 == b)
  {
    if more.Some? {
      assert (a + more.value.0)[|a|..] == more.value.0 && (a + b)[|a|..] == b;
    }
  }

  /** A line of the shell that is the delimiter is also a line of splitlines, which breaks at more characters. */
  lemma {:induction false} DelimiterLineIsSplit(value: string, delimiter: string)
    requires DelimiterWord(delimiter) && HasLine(value, delimiter)
    ensures delimiter in SplitLines(value)
    decreases |value|
  {
    if value[..Newline(value)] == delimiter {
      FirstLineIsSplit(value, delimiter);
    } else {
      var next := SplitStep(value);
      LaterLineIsLeft(value, delimiter, next);
      DelimiterLineIsSplit(value[next..], delimiter);
    }
  }

  lemma FirstLineIsSplit(value: string, delimiter: string)
    requires DelimiterWord(delimiter) && value[..Newline(value)] == delimiter
    ensures delimiter in SplitLines(value)
  {
    var k := Newline(value);
    assert k < |value| ==> IsLineBoundary(value[k]);
    assert forall i :: 0 <= i < k ==> value[i] == delimiter[i];
    assert LineEnd(value) == k;
    assert SplitLines(value)[0] == delimiter;
  }

  /** splitlines cuts no later than the shell does. */
  lemma SplitStep(value: string) returns (next: nat)
    requires Newline(value) < |value|
    ensures 0 < next <= Newline(value) + 1
    ensures forall line :: line in SplitLines(value[next..]) ==> line in SplitLines(value)
  {
    var n := LineEnd(value);
    assert IsLineBoundary(value[Newline(value)]);
    next := if value[n] == '\r' && n + 1 < |value| && value[n + 1] == '\n' then n + 2 else n + 1;
    assert SplitLines(value) == [value[..n]] + SplitLines(value[next..]);
  }

  lemma LaterLineIsLeft(value: string, delimiter: string, next: nat)
    requires HasLine(value, delimiter) && value[..Newline(value)] != delimiter && 0 < next <= Newline(value) + 1
    ensures Newline(value) < |value| && HasLine(value[next..], delimiter)
  {
    HasNext(value, delimiter);
    if next <= Newline(value) {
      HasLineFrom(value, delimiter, next);
    }
  }

  lemma HasNext(s: string, delimiter: string)
    requires HasLine(s, delimiter) && s[..Newline(s)] != delimiter
    ensures Newline(s) < |s| && HasLine(s[Newline(s) + 1..], delimiter)
  {
  }

  lemma HasLineFrom(s: string, delimiter: string, from: nat)
    requires from <= Newline(s) < |s| && HasLine(s[Newline(s) + 1..], delimiter)
    ensures HasLine(s[from..], delimiter)
  {
    NewlineAfter(s, from);
    LaterLine(s[from..], delimiter);
  }

  lemma LaterLine(s: string, delimiter: string)
    requires Newline(s) < |s| && HasLine(s[Newline(s) + 1..], delimiter)
    ensures HasLine(s, delimiter)
  {
  }

  lemma NewlineAt(s: string, k: nat)
    requires k < |s| && s[k] == '\n' && forall i :: 0 <= i < k ==> s[i] != '\n'
    ensures Newline(s) == k
  {
  }

  /** Dropping a part of the first line leaves the later lines. */
  lemma NewlineAfter(s: string, from: nat)
    requires from <= Newline(s) < |s|
    ensures Newline(s[from..]) == Newline(s) - from
    ensures s[from..][Newline(s) - from + 1..] == s[Newline(s) + 1..]
  {
    var r, k := s[from..], Newline(s);
    NewlineAt(r, k - from);
    assert r[k - from + 1..] == s[k + 1..];
  }

  /** An accepted body is read back whole, and what follows it stays what follows it. */
  lemma AcceptedBodyIsReadWhole(value: string, delimiter: string, maxLength: nat, rest: string)
    requires DelimiterWord(delimiter) && ValidateHeredocBody(value, delimiter, maxLength).Some?
    ensures HeredocRead(value + "\n" + (delimiter + "\n" + rest), delimiter) == Some((value + "\n", rest))
  {
    if HasLine(value, delimiter) {
      DelimiterLineIsSplit(value, delimiter);
    }
    assert !HasLine(value, delimiter);
    assert '\n' !in delimiter;
    ReadWholeIffNoDelimiterLine(value, delimiter, rest);
  }

  // ---------- between two copies of a delimiter character ----------

  function ValidateDelimitedText(value: string, delimiter: string, maxLength: nat): (r: Option<string>)
    ensures r.Some? <==>
            && |value| <= maxLength
            && '\0' !in value
            && (delimiter != "" ==> !Contains(value, delimiter))
    ensures r.Some? ==> r.value == value
  {
    if Acceptable(value, maxLength) && (delimiter == "" || !Contains(value, delimiter)) then Some(value) else None
  }

  /** A device reads up to the next copy of the character. */
  function ReadTo(s: string, end: char): Option<(string, string)> {
    if s == "" then None
    else if s[0] == end then Some(("", s[1..]))
    else
      var more := ReadTo(s[1..], end);
      if more.None? then None else Some(([s[0]] + more.value.0, more.value.1))
  }

  /** A text within the other limits is accepted exactly when the device reads back all of it. */
  lemma {:induction false} ReadToIsWholeIff(value: string, end: char, rest: string)
    ensures ReadTo(value + [end] + rest, end) == Some((value, rest)) <==> end !in value
  {
    var s := value + [end] + rest;
    if value == "" {
      assert s[0] == end && s[1..] == rest;
    } else {
      assert s[0] == value[0] && s[1..] == value[1..] + [end] + rest;
      ReadToIsWholeIff(value[1..], end, rest);
      var more := ReadTo(s[1..], end);
      if value[0] != end && more.Some? {
        assert ([value[0]] + more.value.0)[1..] == more.value.0;
        assert value == [value[0]] + value[1..];
      }
    }
  }

  lemma AcceptedIffReadWhole(value: string, end: char, maxLength: nat, rest: string)
    requires |value| <= maxLength && '\0' !in value
    ensures ValidateDelimitedText(value, [end], maxLength).Some? <==>
            ReadTo(value + [end] + rest, end) == Some((value, rest))
  {
    ReadToIsWholeIff(value, end, rest);
    ContainsChar(value, end);
  }

  // ---------- integers ----------

  /** str of an integer. */
  function IntText(n: int): string { if n < 0 then "-" + Decimal(-n) else Decimal(n) }

  /** validate_integer; `parsed` is what int() makes of the stripped value, None where it raises. */
  function ValidateInteger(parsed: Option<int>, minValue: Option<int>, maxValue: Option<int>): (r: Option<string>)
    ensures r.Some? <==>
            && parsed.Some?
            && (minValue.Some? ==> parsed.value >= minValue.value)
            && (maxValue.Some? ==> parsed.value <= maxValue.value)
  {
    if parsed.None? then None
    else if minValue.Some? && parsed.value < minValue.value then None
    else if maxValue.Some? && parsed.value > maxValue.value then None
    else Some(IntText(parsed.value))
  }

  predicate Digits(s: string) { s != "" && forall i :: 0 <= i < |s| ==> '0' <= s[i] <= '9' }

  function DigitsValue(s: string): nat
    requires s == "" || Digits(s)
  {
    if s == "" then 0 else DigitsValue(s[..|s| - 1]) * 10 + (s[|s| - 1] as int - '0' as int)
  }

  lemma {:induction false} DecimalReadsBack(n: nat)
    ensures Digits(Decimal(n)) && DigitsValue(Decimal(n)) == n
  {
    if n >= 10 {
      DecimalReadsBack(n / 10);
      assert Decimal(n)[..|Decimal(n)| - 1] == Decimal(n / 10);
    }
  }

  /** The text is the number in digits, without leading zeros, with a minus in front exactly if it is negative. */
  predicate WritesInteger(s: string, n: int) {
    if n < 0 then s != "" && s[0] == '-' && WritesNatural(s[1..], -n) else WritesNatural(s, n)
  }

  predicate WritesNatural(s: string, n: nat) {
    Digits(s) && DigitsValue(s) == n && (n > 0 ==> s[0] != '0') && (n == 0 ==> |s| == 1)
  }

  lemma {:induction false} NoLeadingZero(n: nat)
    ensures n > 0 ==> Decimal(n)[0] != '0'
  {
    if n >= 10 {
      NoLeadingZero(n / 10);
      assert Decimal(n)[0] == Decimal(n / 10)[0];
    }
  }

  /** What an accepted integer is replaced by is plain, and reads back as the number. */
  lemma IntegerTextIsPlain(parsed: Option<int>, minValue: Option<int>, maxValue: Option<int>)
    requires ValidateInteger(parsed, minValue, maxValue).Some?
    ensures parsed.Some? && WritesInteger(ValidateInteger(parsed, minValue, maxValue).value, parsed.value)
  {
    var n := if parsed.value < 0 then -parsed.value else parsed.value;
    DecimalReadsBack(n);
    NoLeadingZero(n);
    assert ("-" + Decimal(n))[1..] == Decimal(n);
  }
}
