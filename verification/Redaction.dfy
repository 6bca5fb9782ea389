/** Redaction of secrets by value (app/core/secret_redaction.py): after the loop, no secret is left. */
module Redaction {
  import opened Options
  import opened PyText

  const MARKER := "<REDACTED>"
  const MIN_VALUE_LEN := 4

  /** The first occurrence of w in s at or after position i. */
  function FirstFrom(s: string, w: string, i: nat): (r: Option<nat>)
    requires i <= |s|
    ensures r.Some? ==> i <= r.value && At(s, w, r.value) && forall k :: i <= k < r.value ==> !At(s, w, k)
    ensures r.None? ==> forall k :: i <= k <= |s| ==> !At(s, w, k)
    decreases |s| - i
  {
    if At(s, w, i) then Some(i) else if i == |s| then None else FirstFrom(s, w, i + 1)
  }

  function First(s: string, w: string): (r: Option<nat>)
    ensures r.Some? ==> At(s, w, r.value) && forall i :: 0 <= i < r.value ==> !At(s, w, i)
    ensures r.None? <==> !Contains(s, w)
  {
    FirstFrom(s, w, 0)
  }

  /** s.replace(w, MARKER): occurrences from the left, none overlapping. */
  function ReplaceAll(s: string, w: string): string
    requires w != ""
    decreases |s|
  {
    var i := First(s, w);
    if i.None? then s else s[..i.value] + MARKER + ReplaceAll(s[i.value + |w|..], w)
  }

  // ---------- which values, in which order ----------

  /** A parameter whose name is one of a secret and whose value is long enough to be replaced blindly. */
  function SecretValues(parameters: map<string, Option<string>>, secretName: string -> bool): set<string> {
    set n | n in parameters && parameters[n].Some? && secretName(n) && |parameters[n].value| >= MIN_VALUE_LEN ::
      parameters[n].value
  }

  /** The parameter is secret: it has a value of at least four characters and the name of one. */
  predicate Secret(n: string, parameters: map<string, Option<string>>, secretName: string -> bool)
    requires n in parameters
  {
    secretName(n) && parameters[n].Some? && |parameters[n].value| >= 4
  }

  lemma SecretValuesAreThose(parameters: map<string, Option<string>>, secretName: string -> bool)
    ensures forall v :: v in SecretValues(parameters, secretName) <==>
              exists n :: n in parameters && Secret(n, parameters, secretName) && parameters[n].value == v
    ensures forall n :: n in parameters && Secret(n, parameters, secretName) ==>
              parameters[n].value in SecretValues(parameters, secretName)
  {
  }

  /** sorted(values, key=len, reverse=True); equally long values come in any order. */
  ghost predicate LongestFirst(values: seq<string>, secrets: set<string>) {
    && (forall v :: v in values <==> v in secrets)
    && (forall i, j :: 0 <= i < j < |values| ==> values[i] != values[j] && |values[i]| >= |values[j]|)
  }

  function Redact(s: string, values: seq<string>): string
    requires "" !in values
    decreases |values|
  {
    if values == [] then s else Redact(ReplaceAll(s, values[0]), values[1..])
  }

  // ---------- secrets that cannot stand on a marker ----------

  /** q is an end of the marker. */
  predicate EndsMarker(q: string) { |q| <= |MARKER| && MARKER[|MARKER| - |q|..] == q }

  /** One of p and the marker is a beginning of the other. */
  predicate MeetsMarker(p: string) { p <= MARKER || MARKER <= p }

  /** v cut at k can stand across an edge of a marker. */
  predicate AcrossEdge(v: string, k: nat)
    requires k <= |v|
  {
    EndsMarker(v[..k]) || MeetsMarker(v[k..])
  }

  /** It cannot, wherever it is cut. Most passwords are like this, also with brackets inside. */
  predicate NoEdge(v: string) { forall k :: 0 < k < |v| ==> !AcrossEdge(v, k) }

  /** Nor to stand inside. */
  predicate Distinct(v: string) { v != "" && NoEdge(v) && !Contains(MARKER, v) }

  /** For a value without angle brackets: not a part of the marker's word. */
  lemma WithoutBrackets(v: string)
    requires v != "" && '<' !in v && '>' !in v
    ensures NoEdge(v) && (Distinct(v) <==> !Contains("REDACTED", v))
  {
    forall k | 0 < k < |v| ensures !AcrossEdge(v, k) {
      NotAcross(v, k);
    }
    InTheWord(v);
  }

  lemma NotAcross(v: string, k: nat)
    requires 0 < k < |v| && '<' !in v && '>' !in v
    ensures !AcrossEdge(v, k)
  {
    var q, p := v[..k], v[k..];
    assert q[k - 1] == v[k - 1] && p[0] == v[k];
  }

  lemma InTheWord(v: string)
    requires v != "" && '<' !in v && '>' !in v
    ensures Contains(MARKER, v) <==> Contains("REDACTED", v)
  {
    assert MARKER == "<" + "REDACTED" + ">";
    if Contains(MARKER, v) {
      var i :| 0 <= i <= |MARKER| && At(MARKER, v, i);
      assert MARKER[i..i + |v|] == v;
      assert v[0] == MARKER[i] && v[|v| - 1] == MARKER[i + |v| - 1];
      assert 0 < i && i + |v| <= 9;
      AtRight("<", "REDACTED" + ">", v, i - 1);
      AtLeft("REDACTED", ">", v, i - 1);
      assert MARKER == "<" + ("REDACTED" + ">");
    }
    if Contains("REDACTED", v) {
      assert MARKER[1..9] == "REDACTED";
      PartOf(MARKER, v, 1, 9);
    }
  }

  lemma AtLeft(a: string, c: string, w: string, i: nat)
    requires i + |w| <= |a|
    ensures At(a + c, w, i) <==> At(a, w, i)
  {
    assert (a + c)[i..i + |w|] == a[i..i + |w|];
  }

  lemma AtRight(a: string, c: string, w: string, i: nat)
    ensures At(a + c, w, |a| + i) <==> At(c, w, i)
  {
    if i + |w| <= |c| {
      assert (a + c)[|a| + i..|a| + i + |w|] == c[i..i + |w|];
    }
  }

  /** What an occurrence that touches a marker looks like: across an edge of it, or inside. */
  lemma StandsOnTheMarker(a: string, b: string, v: string, i: nat)
    requires v != "" && At(a + MARKER + b, v, i) && i + |v| > |a| && i < |a| + |MARKER|
    ensures i < |a| ==> |a| - i < |v| && v[..|a| - i] == a[i..] && MeetsMarker(v[|a| - i..])
    ensures i >= |a| && i + |v| <= |a| + |MARKER| ==> Contains(MARKER, v)
    ensures i >= |a| && i + |v| > |a| + |MARKER| ==>
              0 < |a| + |MARKER| - i < |v| && EndsMarker(v[..|a| + |MARKER| - i])
  {
    var s, m := a + MARKER + b, |a|;
    assert s[i..i + |v|] == v && s[m..m + |MARKER|] == MARKER;
    if i < m {
      var p := v[m - i..];
      assert p == s[m..i + |v|] && v[..m - i] == s[i..m] == a[i..];
      if |p| <= |MARKER| {
        assert p == MARKER[..|p|];
      } else {
        assert p[..|MARKER|] == MARKER;
      }
    } else if i + |v| <= m + |MARKER| {
      assert MARKER[i - m..i - m + |v|] == s[m..m + |MARKER|][i - m..i - m + |v|] == s[i..i + |v|];
      assert At(MARKER, v, i - m);
    } else {
      assert MARKER[i - m..] == s[m..m + |MARKER|][i - m..] == s[i..m + |MARKER|] == v[..m + |MARKER| - i];
    }
  }

  lemma DistinctStaysOff(a: string, b: string, v: string, i: nat)
    requires Distinct(v) && At(a + MARKER + b, v, i)
    ensures i + |v| <= |a| || i >= |a| + |MARKER|
  {
    if i + |v| > |a| && i < |a| + |MARKER| {
      StandsOnTheMarker(a, b, v, i);
      if i < |a| {
        assert AcrossEdge(v, |a| - i);
      } else if i + |v| > |a| + |MARKER| {
        assert AcrossEdge(v, |a| + |MARKER| - i);
      }
    }
  }

  /** Such a secret never stands across a marker. */
  lemma OnOneSide(a: string, b: string, v: string, i: nat)
    requires Distinct(v) && At(a + MARKER + b, v, i)
    ensures (i + |v| <= |a| && At(a, v, i)) || (i >= |a| + |MARKER| && At(b, v, i - |a| - |MARKER|))
  {
    assert a + MARKER + b == a + (MARKER + b);
    DistinctStaysOff(a, b, v, i);
    if i + |v| <= |a| {
      AtLeft(a, MARKER + b, v, i);
    } else if i >= |a| + |MARKER| {
      AtRight(a + MARKER, b, v, i - |a| - |MARKER|);
    }
  }

  lemma MarkerSeparates(a: string, b: string, v: string)
    requires Distinct(v)
    ensures Contains(a + MARKER + b, v) <==> Contains(a, v) || Contains(b, v)
  {
    var s := a + MARKER + b;
    assert s == a + (MARKER + b);
    if Contains(s, v) {
      var i :| 0 <= i <= |s| && At(s, v, i);
      OnOneSide(a, b, v, i);
    }
    if Contains(a, v) {
      var i :| 0 <= i <= |a| && At(a, v, i);
      AtLeft(a, MARKER + b, v, i);
    }
    if Contains(b, v) {
      var i :| 0 <= i <= |b| && At(b, v, i);
      AtRight(a + MARKER, b, v, i);
      assert At(s, v, |a + MARKER| + i);
    }
  }

  lemma PartOf(s: string, v: string, from: nat, to: nat)
    requires from <= to <= |s| && Contains(s[from..to], v)
    ensures Contains(s, v)
  {
    var part := s[from..to];
    var i :| 0 <= i <= |part| && At(part, v, i);
    assert s == s[..from] + (part + s[to..]);
    AtLeft(part, s[to..], v, i);
    AtRight(s[..from], part + s[to..], v, i);
    assert At(s, v, from + i);
  }

  // ---------- one replacement ----------

  lemma NoneBeforeFirst(s: string, w: string, k: nat)
    requires w != "" && k <= |s| && forall i :: 0 <= i < k ==> !At(s, w, i)
    ensures !Contains(s[..k], w)
  {
    if Contains(s[..k], w) {
      var i :| 0 <= i <= k && At(s[..k], w, i);
      assert s == s[..k] + s[k..];
      AtLeft(s[..k], s[k..], w, i);
    }
  }

  /** A replaced secret is gone. */
  lemma {:induction false} ReplacedIsGone(s: string, w: string)
    requires Distinct(w)
    ensures !Contains(ReplaceAll(s, w), w)
    decreases |s|
  {
    var i := First(s, w);
    if i.Some? {
      NoneBeforeFirst(s, w, i.value);
      ReplacedIsGone(s[i.value + |w|..], w);
      MarkerSeparates(s[..i.value], ReplaceAll(s[i.value + |w|..], w), w);
    }
  }

  lemma GoneFromParts(s: string, v: string, i: nat, j: nat)
    requires i <= j <= |s| && !Contains(s, v)
    ensures !Contains(s[..i], v) && !Contains(s[j..], v)
  {
    assert s[..i] == s[0..i] && s[j..] == s[j..|s|];
    if Contains(s[..i], v) {
      PartOf(s, v, 0, i);
    }
    if Contains(s[j..], v) {
      PartOf(s, v, j, |s|);
    }
  }

  /** Replacing another secret does not bring one back, not even across the edges of a marker. */
  lemma {:induction false} GoneStaysGone(s: string, w: string, v: string)
    requires w != "" && Distinct(v) && !Contains(s, v)
    ensures !Contains(ReplaceAll(s, w), v)
    decreases |s|
  {
    var i := First(s, w);
    if i.Some? {
      var a, rest := s[..i.value], s[i.value + |w|..];
      GoneFromParts(s, v, i.value, i.value + |w|);
      GoneStaysGone(rest, w, v);
      MarkerSeparates(a, ReplaceAll(rest, w), v);
    }
  }

  lemma {:induction false} RedactAppend(s: string, a: seq<string>, b: seq<string>)
    requires "" !in a + b
    ensures "" !in a && "" !in b && Redact(s, a + b) == Redact(Redact(s, a), b)
    decreases |a|
  {
    assert forall v :: v in a || v in b ==> v in a + b;
    if a == [] {
      assert a + b == b;
    } else {
      assert (a + b)[0] == a[0] && (a + b)[1..] == a[1..] + b;
      RedactAppend(ReplaceAll(s, a[0]), a[1..], b);
    }
  }

  // ---------- the loop ----------

  /** The value pass of redact_text: with secrets that cannot stand on a marker, none of them is
      left anywhere, in whatever order equally long ones are taken. */
  method RedactValues(text: string, parameters: map<string, Option<string>>, secretName: string -> bool,
                      values: seq<string>)
    returns (out: string)
    requires LongestFirst(values, SecretValues(parameters, secretName))
    ensures "" !in values && out == Redact(text, values)
    ensures (forall n :: n in parameters && Secret(n, parameters, secretName) ==> Distinct(parameters[n].value)) ==>
              forall n :: n in parameters && Secret(n, parameters, secretName) ==> !Contains(out, parameters[n].value)
    ensures (forall n :: n in parameters && Secret(n, parameters, secretName) ==>
               !Contains(text, parameters[n].value)) ==>
              out == text
  {
    SecretValuesAreThose(parameters, secretName);
    if forall v :: v in values ==> !Contains(text, v) {
      NothingToRedact(text, values);
    }
    out := text;
    ghost var clean := forall v :: v in SecretValues(parameters, secretName) ==> Distinct(v);
    assert values[0..] == values;
    for n := 0 to |values|
      invariant "" !in values[n..] && Redact(text, values) == Redact(out, values[n..])
      invariant clean ==> forall j :: 0 <= j < n ==> !Contains(out, values[j])
    {
      ghost var before := out;
      assert values[n..][0] == values[n] && values[n..][1..] == values[n + 1..];
      assert values[n] in values;
      out := ReplaceAll(out, values[n]);
      if clean {
        ReplacedIsGone(before, values[n]);
        forall j | 0 <= j < n ensures !Contains(out, values[j]) {
          assert values[j] in values;
          GoneStaysGone(before, values[n], values[j]);
        }
      }
    }
  }

  // ---------- the condition is exact ----------

  ghost predicate GoneFromEveryText(values: seq<string>)
    requires "" !in values
  {
    forall s, v :: v in values ==> !Contains(Redact(s, values), v)
  }

  lemma {:induction false} StaysGone(s: string, values: seq<string>, v: string)
    requires "" !in values && Distinct(v) && !Contains(s, v)
    ensures !Contains(Redact(s, values), v)
    decreases |values|
  {
    if values != [] {
      GoneStaysGone(s, values[0], v);
      StaysGone(ReplaceAll(s, values[0]), values[1..], v);
    }
  }

  lemma {:induction false} AllAreGone(s: string, values: seq<string>, v: string)
    requires "" !in values && v in values && forall u :: u in values ==> Distinct(u)
    ensures !Contains(Redact(s, values), v)
    decreases |values|
  {
    if v == values[0] {
      ReplacedIsGone(s, v);
      StaysGone(ReplaceAll(s, v), values[1..], v);
    } else {
      AllAreGone(ReplaceAll(s, values[0]), values[1..], v);
    }
  }

  /** A text without any of the values is left alone. */
  lemma {:induction false} NothingToRedact(s: string, values: seq<string>)
    requires "" !in values && forall v :: v in values ==> !Contains(s, v)
    ensures Redact(s, values) == s
    decreases |values|
  {
    if values != [] {
      NothingToRedact(s, values[1..]);
    }
  }

  lemma NotInShorter(s: string, v: string)
    requires |v| >= |s| && v != s
    ensures !Contains(s, v)
  {
    assert s[0..|s|] == s;
  }

  lemma ReplacedByItself(v: string)
    requires v != ""
    ensures ReplaceAll(v, v) == MARKER
  {
    assert At(v, v, 0);
    FirstIs(v, v, 0);
    assert v[..0] == "" && v[|v|..] == "";
    assert First("", v).None?;
    assert ReplaceAll("", v) == "";
    assert "" + MARKER + "" == MARKER;
  }

  /** The k-th value is a part of the marker, none after it is, and none before it is shorter: then a text
      that is just this value keeps it through the whole pass. */
  lemma PutBack(values: seq<string>, k: nat)
    requires "" !in values && k < |values| && Contains(MARKER, values[k])
    requires forall i :: 0 <= i < k ==> values[i] != values[k] && |values[i]| >= |values[k]|
    requires forall i :: k < i < |values| ==> !Contains(MARKER, values[i])
    ensures Redact(values[k], values) == MARKER
  {
    var v, before, after := values[k], values[..k], values[k + 1..];
    assert values == before + ([v] + after);
    RedactAppend(v, before, [v] + after);
    forall u | u in before ensures !Contains(v, u) {
      NotInShorter(v, u);
    }
    NothingToRedact(v, before);
    ReplacedByItself(v);
    assert ([v] + after)[1..] == after;
    NothingToRedact(MARKER, after);
  }

  lemma LastPart(values: seq<string>) returns (k: nat)
    requires exists i :: 0 <= i < |values| && Contains(MARKER, values[i])
    ensures k < |values| && Contains(MARKER, values[k])
    ensures forall i :: k < i < |values| ==> !Contains(MARKER, values[i])
    decreases |values|
  {
    var n := |values| - 1;
    if Contains(MARKER, values[n]) {
      k := n;
    } else {
      k := LastPart(values[..n]);
    }
  }

  /** Secrets that cannot stand across an edge of a marker, longest first as the code takes them, are gone from
      every text after the pass exactly when none is a part of the marker; one that is (DACT, say) is put back
      by its own replacement. */
  lemma GoneFromEveryTextIff(values: seq<string>)
    requires "" !in values && forall v :: v in values ==> NoEdge(v)
    requires forall i, j :: 0 <= i < j < |values| ==> values[i] != values[j] && |values[i]| >= |values[j]|
    ensures GoneFromEveryText(values) <==> forall v :: v in values ==> !Contains(MARKER, v)
  {
    if forall v :: v in values ==> !Contains(MARKER, v) {
      forall s, v | v in values ensures !Contains(Redact(s, values), v) {
        AllAreGone(s, values, v);
      }
    } else {
      var v :| v in values && Contains(MARKER, v);
      var i :| 0 <= i < |values| && values[i] == v;
      var k := LastPart(values);
      PutBack(values, k);
      assert values[k] in values && Contains(Redact(values[k], values), values[k]);
    }
  }

  // ---------- a single secret, any characters ----------

  /** v is a part u and one that meets the marker, and behind u the first v is the one that follows. */
  predicate Completed(v: string, k: nat)
    requires k < |v|
  {
    MeetsMarker(v[k..]) && First(v[..k] + v, v) == Some(k)
  }

  predicate ComesBackAt(v: string, k: nat)
    requires k < |v|
  {
    EndsMarker(v[..k]) || Completed(v, k)
  }

  /** The marker that replaces v, with the text around it, can hold v again. */
  predicate ComesBack(v: string) { Contains(MARKER, v) || exists k :: 0 < k < |v| && ComesBackAt(v, k) }

  /** It is left in the text s after it was replaced there. */
  predicate LeftIn(s: string, v: string)
    requires v != ""
  {
    Contains(ReplaceAll(s, v), v)
  }

  lemma TooShort(s: string, w: string)
    requires w != "" && |s| < |w|
    ensures ReplaceAll(s, w) == s
  {
  }

  lemma ContainsAt(a: string, v: string, b: string)
    ensures Contains(a + v + b, v)
  {
    assert (a + v + b)[|a|..|a| + |v|] == v;
    assert At(a + v + b, v, |a|);
  }

  lemma EndComesBack(v: string, k: nat)
    requires 0 < k < |v| && EndsMarker(v[..k])
    ensures LeftIn(v + v[k..], v)
  {
    var p := v[k..];
    assert (v + p)[0..|v|] == v;
    FirstIs(v + p, v, 0);
    assert v + p == "" + v + p;
    ReplaceFirst(v + p, v, "", p);
    TooShort(p, v);
    assert "" + MARKER + p == MARKER + p;
    EndCompletes(v[..k], p);
    assert v == v[..k] + p;
  }

  lemma EndCompletes(q: string, p: string)
    requires EndsMarker(q)
    ensures Contains(MARKER + p, q + p)
  {
    var i := |MARKER| - |q|;
    assert MARKER == MARKER[..i] + q;
    assert MARKER + p == MARKER[..i] + (q + p) + "";
    ContainsAt(MARKER[..i], q + p, "");
  }

  /** What is left of v behind the marker. */
  function Beyond(p: string): string { if |p| <= |MARKER| then "" else p[|MARKER|..] }

  lemma MeetingCompletes(u: string, p: string)
    requires MeetsMarker(p)
    ensures Contains(u + MARKER + Beyond(p), u + p)
  {
    if |p| <= |MARKER| {
      assert p == MARKER[..|p|];
      assert u + MARKER + "" == "" + (u + p) + MARKER[|p|..];
      ContainsAt("", u + p, MARKER[|p|..]);
    } else {
      assert p == MARKER + Beyond(p);
      assert u + MARKER + Beyond(p) == "" + (u + p) + "";
      ContainsAt("", u + p, "");
    }
  }

  lemma MeetingComesBack(v: string, k: nat)
    requires 0 < k < |v| && Completed(v, k)
    ensures LeftIn(v[..k] + v + Beyond(v[k..]), v)
  {
    var u, rest := v[..k], Beyond(v[k..]);
    FirstStays(u + v, rest, v, k);
    ReplaceFirst(u + v + rest, v, u, rest);
    TooShort(rest, v);
    MeetingCompletes(u, v[k..]);
    assert v == u + v[k..];
  }

  lemma FirstStays(a: string, b: string, v: string, k: nat)
    requires First(a, v) == Some(k) && k + |v| == |a|
    ensures First(a + b, v) == Some(k)
  {
    forall i | 0 <= i <= k ensures At(a + b, v, i) <==> At(a, v, i) {
      AtLeft(a, b, v, i);
    }
    FirstIs(a + b, v, k);
  }

  lemma AtMiddle(x: string, t: string, y: string, v: string, j: nat)
    requires j + |v| <= |t|
    ensures At(x + (t + y), v, |x| + j) <==> At(t, v, j)
  {
    AtRight(x, t + y, v, j);
    AtLeft(t, y, v, j);
  }

  /** The end of a text before its first v has its first v there too. */
  lemma FirstBehind(x: string, u: string, v: string, y: string)
    requires v != "" && First(x + (u + v + y), v) == Some(|x| + |u|)
    ensures First(u + v, v) == Some(|u|)
  {
    forall j | 0 <= j <= |u| ensures At(u + v, v, j) <==> At(x + (u + v + y), v, |x| + j) {
      AtMiddle(x, u + v, y, v, j);
    }
    FirstIs(u + v, v, |u|);
  }

  lemma FirstBehindIn(s: string, v: string, a: string, i: nat)
    requires v != "" && First(s, v) == Some(|a|) && s[..|a|] == a && i <= |a|
    ensures First(a[i..] + v, v) == Some(|a| - i)
  {
    var x, u, y := a[..i], a[i..], s[|a| + |v|..];
    assert s[|a|..|a| + |v|] == v;
    assert s == a + (v + y) && a == x + u;
    assert a + (v + y) == x + (u + v + y);
    FirstBehind(x, u, v, y);
  }

  lemma MeetsThere(s: string, v: string, a: string, b: string, i: nat)
    requires v != "" && First(s, v) == Some(|a|) && s[..|a|] == a
    requires At(a + MARKER + b, v, i) && i < |a| < i + |v|
    ensures |a| - i < |v| && ComesBackAt(v, |a| - i)
  {
    StandsOnTheMarker(a, b, v, i);
    FirstBehindIn(s, v, a, i);
  }

  lemma {:induction false} LeftOverComesBack(s: string, v: string)
    requires v != "" && LeftIn(s, v)
    ensures ComesBack(v)
    decreases |s|
  {
    var a, rest := CutFirst(s, v);
    var b := ReplaceAll(rest, v);
    var i := Place(a, b, v);
    if i >= |a| + |MARKER| {
      assert At(b, v, i - |a| - |MARKER|);
      LeftOverComesBack(rest, v);
    } else {
      NoneBeforeFirst(s, v, |a|);
      assert s[..|a|] == a;
      TouchComesBack(s, v, a, b, i);
    }
  }

  lemma Place(a: string, b: string, v: string) returns (i: nat)
    requires Contains(a + MARKER + b, v)
    ensures At(a + MARKER + b, v, i)
    ensures i + |v| <= |a| ==> Contains(a, v)
    ensures i >= |a| + |MARKER| ==> At(b, v, i - |a| - |MARKER|)
  {
    i :| 0 <= i <= |a + MARKER + b| && At(a + MARKER + b, v, i);
    assert a + MARKER + b == a + (MARKER + b);
    if i + |v| <= |a| {
      AtLeft(a, MARKER + b, v, i);
    }
    if i >= |a| + |MARKER| {
      AtRight(a + MARKER, b, v, i - |a| - |MARKER|);
    }
  }

  lemma TouchComesBack(s: string, v: string, a: string, b: string, i: nat)
    requires v != "" && First(s, v) == Some(|a|) && s[..|a|] == a
    requires At(a + MARKER + b, v, i) && i < |a| + |MARKER| && i + |v| > |a|
    ensures ComesBack(v)
  {
    if i < |a| {
      MeetsThere(s, v, a, b, i);
    } else {
      StandsOnTheMarker(a, b, v, i);
      if i + |v| > |a| + |MARKER| {
        assert ComesBackAt(v, |a| + |MARKER| - i);
      }
    }
  }

  lemma ComesBackSomewhere(v: string) returns (s: string)
    requires v != "" && ComesBack(v)
    ensures LeftIn(s, v)
  {
    if Contains(MARKER, v) {
      s := v;
      ReplacedByItself(v);
    } else {
      var k :| 0 < k < |v| && ComesBackAt(v, k);
      if EndsMarker(v[..k]) {
        s := v + v[k..];
        EndComesBack(v, k);
      } else {
        s := v[..k] + v + Beyond(v[k..]);
        MeetingComesBack(v, k);
      }
    }
  }

  /** A single secret, whatever its characters, is gone from every text exactly if the marker cannot hold it again:
      it is no part of the marker, does not begin with an end of it, and where it meets the beginning of one, its
      own beginning cannot stand before the secret without making an earlier one. */
  lemma OneSecretIsGoneIff(v: string)
    requires v != ""
    ensures GoneFromEveryText([v]) <==> !ComesBack(v)
  {
    forall s ensures LeftIn(s, v) <==> Contains(Redact(s, [v]), v) {
      assert Redact(s, [v]) == Redact(ReplaceAll(s, v), []);
    }
    if ComesBack(v) {
      var s := ComesBackSomewhere(v);
      assert v in [v] && Contains(Redact(s, [v]), v);
    }
    forall s | LeftIn(s, v) ensures ComesBack(v) {
      LeftOverComesBack(s, v);
    }
  }

  // ---------- markers stay whole ----------

  lemma FirstLeftOfMarker(a: string, b: string, w: string)
    requires Distinct(w) && First(a, w).Some?
    ensures First(a + MARKER + b, w) == First(a, w)
  {
    var s, k := a + MARKER + b, First(a, w).value;
    assert s == a + (MARKER + b);
    AtLeft(a, MARKER + b, w, k);
    assert At(s, w, k);
    var f := First(s, w).value;
    OnOneSide(a, b, w, f);
  }

  lemma NothingBefore(a: string, b: string, w: string, k: nat)
    requires Distinct(w) && !Contains(a, w) && forall i :: 0 <= i < k ==> !At(b, w, i)
    ensures forall i :: 0 <= i < |a| + |MARKER| + k ==> !At(a + MARKER + b, w, i)
  {
    forall i | 0 <= i < |a| + |MARKER| + k && At(a + MARKER + b, w, i) ensures false {
      OnOneSide(a, b, w, i);
    }
  }

  lemma FirstIs(s: string, w: string, k: nat)
    requires At(s, w, k) && forall i :: 0 <= i < k ==> !At(s, w, i)
    ensures First(s, w) == Some(k)
  {
    assert Contains(s, w);
  }

  lemma FirstAfter(p: string, b: string, w: string, k: nat)
    requires At(b, w, k) && forall i :: 0 <= i < |p| + k ==> !At(p + b, w, i)
    ensures First(p + b, w) == Some(|p| + k)
  {
    AtRight(p, b, w, k);
    FirstIs(p + b, w, |p| + k);
  }

  lemma FirstRightOfMarker(a: string, b: string, w: string, k: nat)
    requires Distinct(w) && !Contains(a, w) && At(b, w, k) && forall i :: 0 <= i < k ==> !At(b, w, i)
    ensures First(a + MARKER + b, w) == Some(|a| + |MARKER| + k)
  {
    NothingBefore(a, b, w, k);
    FirstAfter(a + MARKER, b, w, k);
  }

  lemma Regroup(a: string, m: string, x: string, w: string, rest: string)
    ensures a + m + (x + w + rest) == (a + m + x) + w + rest
    ensures (a + w + rest) + m + x == a + w + (rest + m + x)
  {
  }

  lemma ReplaceFirst(s: string, w: string, a: string, rest: string)
    requires w != "" && First(s, w) == Some(|a|) && s == a + w + rest
    ensures ReplaceAll(s, w) == a + MARKER + ReplaceAll(rest, w)
  {
    assert s[..|a|] == a && s[|a| + |w|..] == rest;
  }

  lemma CutFirst(s: string, w: string) returns (a: string, rest: string)
    requires w != "" && First(s, w).Some?
    ensures s == a + w + rest && First(s, w) == Some(|a|) && ReplaceAll(s, w) == a + MARKER + ReplaceAll(rest, w)
  {
    var k := First(s, w).value;
    a, rest := s[..k], s[k + |w|..];
    assert s == s[..k] + s[k..k + |w|] + s[k + |w|..];
  }

  /** A replacement works on the two sides of a marker separately and leaves the marker whole. */
  lemma {:induction false} ReplaceAroundMarker(a: string, b: string, w: string)
    requires Distinct(w)
    ensures ReplaceAll(a + MARKER + b, w) == ReplaceAll(a, w) + MARKER + ReplaceAll(b, w)
    decreases |a|
  {
    var s := a + MARKER + b;
    if First(a, w).Some? {
      FirstLeftOfMarker(a, b, w);
      var x, rest := CutFirst(a, w);
      Regroup(x, MARKER, b, w, rest);
      ReplaceFirst(s, w, x, rest + MARKER + b);
      ReplaceAroundMarker(rest, b, w);
      Regroup(x, MARKER, ReplaceAll(b, w), MARKER, ReplaceAll(rest, w));
    } else if First(b, w).Some? {
      FirstRightOfMarker(a, b, w, First(b, w).value);
      var x, rest := CutFirst(b, w);
      Regroup(a, MARKER, x, w, rest);
      ReplaceFirst(s, w, a + MARKER + x, rest);
      Regroup(a, MARKER, x, MARKER, ReplaceAll(rest, w));
    } else {
      MarkerSeparates(a, b, w);
    }
  }

  lemma {:induction false} RedactAroundMarker(a: string, b: string, values: seq<string>)
    requires "" !in values && forall v :: v in values ==> Distinct(v)
    ensures Redact(a + MARKER + b, values) == Redact(a, values) + MARKER + Redact(b, values)
    decreases |values|
  {
    if values != [] {
      ReplaceAroundMarker(a, b, values[0]);
      RedactAroundMarker(ReplaceAll(a, values[0]), ReplaceAll(b, values[0]), values[1..]);
    }
  }

  // ---------- a replaced occurrence becomes one marker ----------

  /** The text between the occurrences of w that are replaced. */
  function Pieces(s: string, w: string): (r: seq<string>)
    requires w != ""
    ensures r != []
    decreases |s|
  {
    var i := First(s, w);
    if i.None? then [s] else [s[..i.value]] + Pieces(s[i.value + |w|..], w)
  }

  function JoinMarked(pieces: seq<string>): string
    requires pieces != []
  {
    if |pieces| == 1 then pieces[0] else pieces[0] + MARKER + JoinMarked(pieces[1..])
  }

  function RedactEach(pieces: seq<string>, values: seq<string>): (r: seq<string>)
    requires "" !in values
    ensures |r| == |pieces| && forall i :: 0 <= i < |r| ==> r[i] == Redact(pieces[i], values)
  {
    if pieces == [] then [] else [Redact(pieces[0], values)] + RedactEach(pieces[1..], values)
  }

  lemma {:induction false} ReplaceAllByPieces(s: string, w: string)
    requires w != ""
    ensures ReplaceAll(s, w) == JoinMarked(Pieces(s, w))
    decreases |s|
  {
    var i := First(s, w);
    if i.Some? {
      ReplaceAllByPieces(s[i.value + |w|..], w);
      assert Pieces(s, w)[1..] == Pieces(s[i.value + |w|..], w);
    }
  }

  lemma {:induction false} RedactJoined(pieces: seq<string>, values: seq<string>)
    requires pieces != [] && "" !in values && forall v :: v in values ==> Distinct(v)
    ensures Redact(JoinMarked(pieces), values) == JoinMarked(RedactEach(pieces, values))
    decreases |pieces|
  {
    if |pieces| > 1 {
      RedactAroundMarker(pieces[0], JoinMarked(pieces[1..]), values);
      RedactJoined(pieces[1..], values);
      assert RedactEach(pieces, values)[1..] == RedactEach(pieces[1..], values);
    }
  }

  /** Every occurrence that is replaced, of any of the secrets, ends as exactly one marker, whatever shorter
      secrets it contains or touches, and the text between two of them is redacted as if it stood alone. The
      longest secret is the one with k = 0: it is looked for in the text itself. */
  lemma ReplacedBecomesOneMarker(s: string, values: seq<string>, k: nat)
    requires k < |values| && "" !in values && forall v :: v in values ==> Distinct(v)
    ensures "" !in values[..k] && "" !in values[k + 1..] && values[k] != ""
    ensures Redact(s, values) == JoinMarked(RedactEach(Pieces(Redact(s, values[..k]), values[k]), values[k + 1..]))
  {
    assert values[k] in values;
    var before, after := values[..k], values[k + 1..];
    assert values == before + ([values[k]] + after);
    RedactAppend(s, before, [values[k]] + after);
    assert ([values[k]] + after)[1..] == after;
    var t := Redact(s, before);
    ReplaceAllByPieces(t, values[k]);
    RedactJoined(Pieces(t, values[k]), after);
  }
}
