/** The list of sentences the reader reports, and the names of the holes in it. */
module AuditSentences {
  import opened Options
  import opened PyText
  import opened AuditMessages
  import opened AuditMeaning

  // ---------- the reported list ----------

  datatype SentenceKind = Fixed | Templated

  /** [... for t in dict.fromkeys(texts) if t]: first occurrences, in order, without the empty one. */
  function Report(texts: seq<string>, seen: set<string>): seq<(SentenceKind, string)> {
    if texts == [] then []
    else (if texts[0] in seen || texts[0] == "" then []
          else [(if HasBraces(texts[0]) then Templated else Fixed, texts[0])])
         + Report(texts[1..], seen + {texts[0]})
  }

  /** _sentences of an expression: None when it is not written out. */
  function Sentences(e: Expr): Option<seq<(SentenceKind, string)>> {
    var texts := Texts(e, {}).0;
    if texts.None? then None else Some(Report(RenderAll(texts.value), {}))
  }

  lemma {:induction false} ReportIsTheSet(texts: seq<string>, seen: set<string>)
    ensures forall s :: s in Report(texts, seen) <==>
              s.1 in texts && s.1 !in seen && s.1 != "" && s.0 == if HasBraces(s.1) then Templated else Fixed
    ensures forall i, j :: 0 <= i < j < |Report(texts, seen)| ==> Report(texts, seen)[i].1 != Report(texts, seen)[j].1
  {
    if texts != [] {
      ReportIsTheSet(texts[1..], seen + {texts[0]});
      assert forall s :: s in Report(texts[1..], seen + {texts[0]}) ==> s.1 != texts[0];
      assert texts == [texts[0]] + texts[1..];
    }
  }

  lemma {:induction false} HoleShows(t: Template, i: nat)
    requires i < |t| && t[i].Hole?
    ensures HasBraces(Render(t))
  {
    if i == 0 {
      assert Render(t)[0] == '{' && Render(t)[1] == '{';
    } else {
      HoleShows(t[1..], i - 1);
      var rest := Render(t[1..]);
      var k :| 0 <= k < |rest| - 1 && rest[k] == '{' && rest[k + 1] == '{';
      var n := |RenderPiece(t[0])|;
      assert Render(t)[n + k] == rest[k] && Render(t)[n + k + 1] == rest[k + 1];
    }
  }

  predicate HasHole(t: Template) { exists i :: 0 <= i < |t| && t[i].Hole? }

  lemma {:induction false} OnlyTheEmptyString(t: Template, s: string)
    requires Instance(t, s) && Render(t) == ""
    ensures s == ""
  {
    if t != [] {
      assert RenderPiece(t[0]) == "";
      var k :| 0 <= k <= |s| && Fits(t[0], s[..k]) && Instance(t[1..], s[k..]);
      OnlyTheEmptyString(t[1..], s[k..]);
    }
  }

  lemma HolesShow(t: Template)
    ensures HasHole(t) ==> HasBraces(Render(t))
  {
    if HasHole(t) {
      var i :| 0 <= i < |t| && t[i].Hole?;
      HoleShows(t, i);
    }
  }

  lemma ReportHas(texts: seq<Template>, t: Template) returns (kind: SentenceKind)
    requires t in texts && Render(t) != ""
    ensures (kind, Render(t)) in Report(RenderAll(texts), {}) && (HasHole(t) ==> kind == Templated)
  {
    var n :| 0 <= n < |texts| && texts[n] == t;
    assert RenderAll(texts)[n] == Render(t);
    ReportIsTheSet(RenderAll(texts), {});
    kind := if HasBraces(Render(t)) then Templated else Fixed;
    HolesShow(t);
  }

  /** The report misses nothing: whatever the expression produces, but the empty string, is an instance of a
      template reported under its text, as "template" if it has a hole; and no text is reported twice. */
  lemma EverySentenceIsReported(e: Expr, s: string) returns (t: Template, kind: SentenceKind)
    requires Sentences(e).Some? && Produces(e, s) && s != ""
    ensures Instance(t, s) && (kind, Render(t)) in Sentences(e).value && (HasHole(t) ==> kind == Templated)
    ensures forall i, j :: 0 <= i < j < |Sentences(e).value| ==> Sentences(e).value[i].1 != Sentences(e).value[j].1
  {
    EverySentenceHasItsTemplate(e, {}, s);
    t :| t in Texts(e, {}).0.value && Instance(t, s);
    if Render(t) == "" {
      OnlyTheEmptyString(t, s);
    }
    kind := ReportHas(Texts(e, {}).0.value, t);
    ReportIsTheSet(RenderAll(Texts(e, {}).0.value), {});
  }

  // ---------- one name, one value ----------

  /** No two holes share a name. */
  predicate Unrepeated(t: Template) {
    forall i, j :: 0 <= i < j < |t| && t[i].Hole? && t[j].Hole? ==> t[i].name != t[j].name
  }

  ghost predicate AllUnrepeated(ts: seq<Template>) { forall t :: t in ts ==> Unrepeated(t) }

  /** The names the holes of an expression get, in whatever branch. */
  function Holes(e: Expr, taken: set<string>): set<string>
    decreases e, 1
  {
    match e
    case IfExp(b, o) => Holes(b, taken) + Holes(o, taken)
    case Add(l, r) => Holes(l, taken) + Holes(r, Texts(l, taken).1)
    case Joined(parts) => HolesIn(parts, taken)
    case _ => {}
  }

  function HolesIn(parts: seq<Part>, taken: set<string>): set<string>
    decreases parts, 0
  {
    if parts == [] then {} else HolesAt(parts[0], taken) + HolesIn(parts[1..], Choices(parts[0], taken).1)
  }

  function HolesAt(p: Part, taken: set<string>): set<string>
    decreases p, 0
  {
    match p
    case Lit(_) => {}
    case Value(inner) =>
      var (texts, t) := if inner.IfExp? || inner.Add? then Texts(inner, taken) else (None, taken);
      if Collapses(inner, texts) then {HoleName(inner, t)} else Holes(inner, taken)
  }

  /** No name is used again where one before it may stand: a walk over the expression, not over its templates,
      of which there can be exponentially many. A branch of a conditional does not say which names it used,
      so only those can come back. */
  predicate NamesOnce(e: Expr, taken: set<string>)
    decreases e, 1
  {
    match e
    case IfExp(b, o) => NamesOnce(b, taken) && NamesOnce(o, taken)
    case Add(l, r) =>
      NamesOnce(l, taken) && NamesOnce(r, Texts(l, taken).1) && Holes(l, taken) !! Holes(r, Texts(l, taken).1)
    case Joined(parts) => NamesOnceIn(parts, taken, {})
    case _ => true
  }

  predicate NamesOnceIn(parts: seq<Part>, taken: set<string>, used: set<string>)
    decreases parts, 0
  {
    parts == [] ||
    (NamesOnceAt(parts[0], taken) && used !! HolesAt(parts[0], taken) &&
     NamesOnceIn(parts[1..], Choices(parts[0], taken).1, used + HolesAt(parts[0], taken)))
  }

  predicate NamesOnceAt(p: Part, taken: set<string>)
    decreases p, 0
  {
    match p
    case Lit(_) => true
    case Value(inner) =>
      var texts := if inner.IfExp? || inner.Add? then Texts(inner, taken).0 else None;
      Collapses(inner, texts) || NamesOnce(inner, taken)
  }

  ghost predicate Names(t: Template, n: string) { exists i :: 0 <= i < |t| && t[i] == Hole(n) }

  /** These are the names the holes of the templates have. */
  ghost predicate Uses(ts: seq<Template>, used: set<string>) {
    && ts != []
    && (forall t, n :: t in ts && Names(t, n) ==> n in used)
    && (forall n :: n in used ==> exists t :: t in ts && Names(t, n))
  }

  lemma NamesAppend(a: Template, b: Template, n: string)
    ensures Names(a + b, n) <==> Names(a, n) || Names(b, n)
  {
    if i :| 0 <= i < |a| && a[i] == Hole(n) {
      assert (a + b)[i] == Hole(n);
    }
    if i :| 0 <= i < |b| && b[i] == Hole(n) {
      assert (a + b)[|a| + i] == Hole(n);
    }
  }

  lemma UnrepeatedParts(a: Template, b: Template)
    requires Unrepeated(a + b)
    ensures Unrepeated(a) && Unrepeated(b)
  {
    var t, k := a + b, |a|;
    forall i, j | 0 <= i < j < |b| && b[i].Hole? && b[j].Hole? ensures b[i].name != b[j].name {
      assert t[k + i] == b[i] && t[k + j] == b[j];
    }
    forall i, j | 0 <= i < j < |a| && a[i].Hole? && a[j].Hole? ensures a[i].name != a[j].name {
      assert t[i] == a[i] && t[j] == a[j];
    }
  }

  lemma SharedNameRepeats(a: Template, b: Template, n: string)
    requires Names(a, n) && Names(b, n)
    ensures !Unrepeated(a + b)
  {
    var i :| 0 <= i < |a| && a[i] == Hole(n);
    var j :| 0 <= j < |b| && b[j] == Hole(n);
    assert (a + b)[i] == Hole(n) == (a + b)[|a| + j];
  }

  lemma UnrepeatedJoin(a: Template, b: Template)
    requires Unrepeated(a) && Unrepeated(b) && forall n :: Names(a, n) ==> !Names(b, n)
    ensures Unrepeated(a + b)
  {
    var t, k := a + b, |a|;
    forall i, j | 0 <= i < j < |t| && t[i].Hole? && t[j].Hole? ensures t[i].name != t[j].name {
      if i < k <= j {
        assert a[i] == Hole(t[i].name) && b[j - k] == Hole(t[j].name);
        assert Names(a, t[i].name) && Names(b, t[j].name);
      }
    }
  }

  lemma UnrepeatedAppend(a: Template, b: Template)
    ensures Unrepeated(a + b) <==> Unrepeated(a) && Unrepeated(b) && forall n :: Names(a, n) ==> !Names(b, n)
  {
    if Unrepeated(a + b) {
      UnrepeatedParts(a, b);
      forall n | Names(a, n) ensures !Names(b, n) {
        if Names(b, n) {
          SharedNameRepeats(a, b, n);
        }
      }
    } else if Unrepeated(a) && Unrepeated(b) && forall n :: Names(a, n) ==> !Names(b, n) {
      UnrepeatedJoin(a, b);
    }
  }

  lemma CrossUses(left: seq<Template>, right: seq<Template>, l: set<string>, r: set<string>)
    requires Uses(left, l) && Uses(right, r)
    ensures Uses(Cross(left, right), l + r)
  {
    CrossHas(left, right, left[0], right[0]);
    forall t, n | t in Cross(left, right) && Names(t, n) ensures n in l + r {
      var a, b := CrossParts(left, right, t);
      NamesAppend(a, b, n);
    }
    forall n | n in l + r ensures exists t :: t in Cross(left, right) && Names(t, n) {
      var a := if n in l then var a :| a in left && Names(a, n); a else left[0];
      var b := if n in l then right[0] else var b :| b in right && Names(b, n); b;
      CrossHas(left, right, a, b);
      NamesAppend(a, b, n);
      assert a + b in Cross(left, right);
    }
  }

  lemma CrossUnrepeatedIff(left: seq<Template>, right: seq<Template>, l: set<string>, r: set<string>)
    requires Uses(left, l) && Uses(right, r)
    ensures AllUnrepeated(Cross(left, right)) <==> AllUnrepeated(left) && AllUnrepeated(right) && l !! r
  {
    if AllUnrepeated(Cross(left, right)) {
      forall a | a in left ensures Unrepeated(a) {
        CrossHas(left, right, a, right[0]);
        UnrepeatedAppend(a, right[0]);
      }
      forall b | b in right ensures Unrepeated(b) {
        CrossHas(left, right, left[0], b);
        UnrepeatedAppend(left[0], b);
      }
      forall n | n in l ensures n !in r {
        if n in r {
          var a :| a in left && Names(a, n);
          var b :| b in right && Names(b, n);
          CrossHas(left, right, a, b);
          UnrepeatedAppend(a, b);
        }
      }
    }
    if AllUnrepeated(left) && AllUnrepeated(right) && l !! r {
      forall t | t in Cross(left, right) ensures Unrepeated(t) {
        var a, b := CrossParts(left, right, t);
        UnrepeatedAppend(a, b);
      }
    }
  }

  lemma BothUse(a: seq<Template>, b: seq<Template>, x: set<string>, y: set<string>)
    requires Uses(a, x) && Uses(b, y)
    ensures Uses(a + b, x + y) && (AllUnrepeated(a + b) <==> AllUnrepeated(a) && AllUnrepeated(b))
  {
    assert forall t :: t in a + b <==> t in a || t in b;
  }

  lemma NothingUsed(t: Template)
    requires forall i :: 0 <= i < |t| ==> !t[i].Hole?
    ensures Uses([t], {}) && AllUnrepeated([t])
  {
  }

  /** One name, one value: no two holes of any template share a name exactly when no name is used again after a
      branch that may have used it. */
  lemma {:induction false} HoleNamesAreDistinctIff(e: Expr, taken: set<string>)
    requires Texts(e, taken).0.Some?
    ensures Uses(Texts(e, taken).0.value, Holes(e, taken))
    ensures AllUnrepeated(Texts(e, taken).0.value) <==> NamesOnce(e, taken)
    decreases e, 1
  {
    match e {
      case Str(v) => NothingUsed([Text(v)]);
      case IfExp(b, o) =>
        HoleNamesAreDistinctIff(b, taken);
        HoleNamesAreDistinctIff(o, taken);
        BothUse(Texts(b, taken).0.value, Texts(o, taken).0.value, Holes(b, taken), Holes(o, taken));
      case Add(l, r) =>
        var (left, t1) := Texts(l, taken);
        HoleNamesAreDistinctIff(l, taken);
        HoleNamesAreDistinctIff(r, t1);
        CrossUses(left.value, Texts(r, t1).0.value, Holes(l, taken), Holes(r, t1));
        CrossUnrepeatedIff(left.value, Texts(r, t1).0.value, Holes(l, taken), Holes(r, t1));
      case Joined(parts) =>
        NothingUsed([]);
        PartNamesAreDistinctIff(parts, [[]], taken, {});
        assert {} + HolesIn(parts, taken) == HolesIn(parts, taken);
    }
  }

  lemma {:induction false} PartNamesAreDistinctIff(parts: seq<Part>, out: seq<Template>, taken: set<string>,
                                                   used: set<string>)
    requires Uses(out, used)
    ensures Uses(JoinParts(parts, out, taken).0, used + HolesIn(parts, taken))
    ensures AllUnrepeated(JoinParts(parts, out, taken).0) <==> AllUnrepeated(out) && NamesOnceIn(parts, taken, used)
    decreases parts, 0
  {
    if parts == [] {
      assert used + {} == used;
    } else {
      var (options, t) := Choices(parts[0], taken);
      var here := HolesAt(parts[0], taken);
      ChoiceNamesAreDistinctIff(parts[0], taken);
      CrossUses(out, options, used, here);
      CrossUnrepeatedIff(out, options, used, here);
      PartNamesAreDistinctIff(parts[1..], Cross(out, options), t, used + here);
      UnionsJoin(used, here, HolesIn(parts[1..], t));
    }
  }

  lemma UnionsJoin(a: set<string>, b: set<string>, c: set<string>)
    ensures (a + b) + c == a + (b + c)
  {
  }

  lemma {:induction false} ChoiceNamesAreDistinctIff(p: Part, taken: set<string>)
    ensures Uses(Choices(p, taken).0, HolesAt(p, taken))
    ensures AllUnrepeated(Choices(p, taken).0) <==> NamesOnceAt(p, taken)
    decreases p, 0
  {
    match p {
      case Lit(text) => NothingUsed([Text(text)]);
      case Value(inner) =>
        var (texts, t) := if inner.IfExp? || inner.Add? then Texts(inner, taken) else (None, taken);
        if Collapses(inner, texts) {
          OneHoleUsed(HoleName(inner, t));
        } else {
          HoleNamesAreDistinctIff(inner, taken);
        }
    }
  }

  lemma OneHoleUsed(n: string)
    ensures Uses([[Hole(n)]], {n}) && AllUnrepeated([[Hole(n)]])
  {
    assert [Hole(n)][0] == Hole(n);
    assert Names([Hole(n)], n) && [Hole(n)] in [[Hole(n)]];
  }

  lemma FormattedName(inner: Expr, out: seq<Template>, taken: set<string>)
    requires inner.Attr?
    ensures JoinParts([Value(inner)], out, taken).0 == Cross(out, [[Hole(HoleName(inner, taken))]])
  {
    assert [Value(inner)][1..] == [];
  }

  lemma AttributeName(owner: string)
    ensures HoleName(Attr(Name(owner), "a"), {}) == "a"
  {
    assert AttributePath(Attr(Name(owner), "a"))[0] == "a" && AsciiLower("a") == "a";
  }

  lemma PartsProduceTwo(p: Part, q: Part, s: string)
    requires |s| == 2 && PartProduces(p, s[..1]) && PartProduces(q, s[1..])
    ensures Produces(Joined([p, q]), s)
  {
    assert [p, q][1..] == [q] && [q][1..] == [] && s[1..][..1] == s[1..] && s[1..][1..] == "";
    assert PartsProduce([q], s[1..]);
  }

  /** The templates of the conditional f'{x.a}' if c else 'k', and of the f-string that formats it before y.a. */
  lemma BranchThenValue(x: Expr, y: Expr)
    requires x == Attr(Name("x"), "a") && y == Attr(Name("y"), "a")
    ensures var inner := IfExp(Joined([Value(x)]), Str("k"));
            Texts(Joined([Value(inner), Value(y)]), {}).0 ==
              Some(Cross(Cross([[]], [[Hole("a")], [Text("k")]]), [[Hole("a")]]))
  {
    var inner := IfExp(Joined([Value(x)]), Str("k"));
    var none: Template, one: Template := [], [Hole("a")];
    AttributeName("x");
    AttributeName("y");
    FormattedName(x, [none], {});
    assert Cross([none], [one]) == [one] by {
      assert none + one == one && [none][1..] == [] && Prepend(none, [one]) == [one];
    }
    assert Texts(inner.body, {}).0 == Some([one]);
    assert Texts(inner.orelse, {}).0 == Some([[Text("k")]]);
    assert [one] + [[Text("k")]] == [one, [Text("k")]];
    assert Choices(Value(inner), {}) == ([one, [Text("k")]], {});
    assert [Value(inner), Value(y)][1..] == [Value(y)];
    FormattedName(y, Cross([none], [one, [Text("k")]]), {});
  }

  lemma CrossHas(left: seq<Template>, right: seq<Template>, a: Template, b: Template)
    requires a in left && b in right
    ensures a + b in Cross(left, right)
  {
    CrossMembers(left, right);
  }

  lemma OneFormatted(x: Expr, s: string)
    requires x.Attr?
    ensures Produces(Joined([Value(x)]), s)
  {
    assert [Value(x)][1..] == [] && s[..|s|] == s && s[|s|..] == "";
    assert PartProduces([Value(x)][0], s[..|s|]) && PartsProduce([Value(x)][1..], s[|s|..]);
  }

  lemma TwiceA()
    ensures !Unrepeated([Hole("a"), Hole("a")])
  {
    var t := [Hole("a"), Hole("a")];
    assert t[0].Hole? && t[1].Hole? && t[0].name == t[1].name;
  }

  function Branching(x: Expr): Expr { IfExp(Joined([Value(x)]), Str("k")) }

  lemma BothNamedA(x: Expr, y: Expr)
    requires x == Attr(Name("x"), "a") && y == Attr(Name("y"), "a")
    ensures var texts := Texts(Joined([Value(Branching(x)), Value(y)]), {}).0;
            texts.Some? && [Hole("a"), Hole("a")] in texts.value
  {
    BranchThenValue(x, y);
    CrossHas([[]], [[Hole("a")], [Text("k")]], [], [Hole("a")]);
    CrossHas(Cross([[]], [[Hole("a")], [Text("k")]]), [[Hole("a")]], [] + [Hole("a")], [Hole("a")]);
    assert [] + [Hole("a")] + [Hole("a")] == [Hole("a"), Hole("a")];
  }

  /** And they are used again: f"{f'{x.a}' if c else 'k'}{y.a}" reads as "{{a}}{{a}}", because each branch
      names its values afresh and does not say which names it used. */
  lemma NamesCanRepeat() returns (e: Expr, t: Template)
    ensures Texts(e, {}).0.Some? && t in Texts(e, {}).0.value
    ensures t == [Hole("a"), Hole("a")] && Produces(e, "xy") && !NamesOnce(e, {})
  {
    var x, y := Attr(Name("x"), "a"), Attr(Name("y"), "a");
    e, t := Joined([Value(Branching(x)), Value(y)]), [Hole("a"), Hole("a")];
    BothNamedA(x, y);
    OneFormatted(x, "x");
    assert "xy"[..1] == "x";
    TwiceA();
    HoleNamesAreDistinctIff(e, {});
    PartsProduceTwo(Value(Branching(x)), Value(y), "xy");
  }
}
