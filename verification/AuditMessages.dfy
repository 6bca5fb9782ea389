/** Reading the sentences an expression can produce off the source (scripts/audit_messages.py). */
module AuditMessages {
  import opened Options
  import opened PyText

  /** A Python expression, as far as the reader tells expressions apart. Num: a constant that is not a
      string, and what str() makes of it. Call keeps only its positional arguments. */
  datatype Expr =
    | Str(value: string)
    | Num(text: string)
    | IfExp(body: Expr, orelse: Expr)
    | Add(left: Expr, right: Expr)
    | Joined(parts: seq<Part>)
    | Attr(base: Expr, attr: string)
    | Name(id: string)
    | Call(args: seq<Expr>)
    | Other

  /** A part of an f-string: literal text, or a value without conversion or format spec. */
  datatype Part = Lit(text: string) | Value(inner: Expr)

  /** A sentence with holes; the reader writes a hole as {{name}}. */
  datatype Piece = Text(text: string) | Hole(name: string)
  type Template = seq<Piece>

  function RenderPiece(p: Piece): string {
    match p
    case Text(s) => s
    case Hole(n) => "{{" + n + "}}"
  }

  function Render(t: Template): string {
    if t == [] then "" else RenderPiece(t[0]) + Render(t[1..])
  }

  function RenderAll(ts: seq<Template>): (r: seq<string>)
    ensures |r| == |ts| && forall i :: 0 <= i < |r| ==> r[i] == Render(ts[i])
  {
    if ts == [] then [] else [Render(ts[0])] + RenderAll(ts[1..])
  }

  /** "{{" in s. */
  predicate HasBraces(s: string) { exists i :: 0 <= i < |s| - 1 && s[i] == '{' && s[i + 1] == '{' }

  predicate AnyBraces(ss: seq<string>) { exists i :: 0 <= i < |ss| && HasBraces(ss[i]) }

  // ---------- names of holes ----------

  /** name, name2, name3, ... */
  function Candidate(base: string, i: nat): string { if i <= 1 then base else base + Decimal(i) }

  lemma CandidatesDiffer(base: string, i: nat, j: nat)
    requires 1 <= i < j
    ensures Candidate(base, i) != Candidate(base, j)
  {
    if Candidate(base, i) == Candidate(base, j) {
      assert Candidate(base, j)[|base|..] == Decimal(j) && |Decimal(j)| >= 1;
      if i > 1 {
        assert Candidate(base, i)[|base|..] == Decimal(i);
        DecimalInjective(i, j);
      }
    }
  }

  /** The first candidate from the i-th on that is not taken; `left` are the taken names not tried yet. */
  function FirstFree(base: string, i: nat, left: set<string>): string
    decreases |left|
  {
    if Candidate(base, i) in left then FirstFree(base, i + 1, left - {Candidate(base, i)}) else Candidate(base, i)
  }

  function AttributePath(e: Expr): seq<string> {
    if e.Attr? then [e.attr] + AttributePath(e.base) else if e.Name? then [e.id] else []
  }

  function FirstTelling(parts: seq<string>): string {
    if parts == [] then "value"
    else if parts[0] == "value" || parts[0] == "self" then FirstTelling(parts[1..])
    else AsciiLower(parts[0])
  }

  /** first.second.third... */
  function Dotted(first: string, rest: seq<string>): Expr
    decreases |rest|
  {
    if rest == [] then Name(first) else Attr(Dotted(first, rest[..|rest| - 1]), rest[|rest| - 1])
  }

  predicate Telling(word: string) { word != "value" && word != "self" }

  lemma {:induction false} BaseOfDotted(first: string, rest: seq<string>, k: nat)
    requires k <= |rest| && forall i :: k <= i < |rest| ==> !Telling(rest[i])
    ensures FirstTelling(AttributePath(Dotted(first, rest))) == FirstTelling(AttributePath(Dotted(first, rest[..k])))
    decreases |rest|
  {
    if k < |rest| {
      BaseOfDotted(first, rest[..|rest| - 1], k);
      assert rest[..|rest| - 1][..k] == rest[..k];
    } else {
      assert rest[..k] == rest;
    }
  }

  /** A value is named after the last part of its dotted name that says something, in lower case; "value" if none
      does. A call is named after its first argument, anything else without a name is a "value". */
  lemma NamedAfterTheLastTellingPart(first: string, rest: seq<string>, k: nat, others: seq<Expr>)
    requires k <= |rest| && forall i :: k <= i < |rest| ==> !Telling(rest[i])
    requires k > 0 ==> Telling(rest[k - 1])
    ensures var name := if k > 0 then AsciiLower(rest[k - 1])
                        else if Telling(first) then AsciiLower(first)
                        else "value";
            BaseName(Dotted(first, rest)) == name && BaseName(Call([Dotted(first, rest)] + others)) == name
    ensures BaseName(Call([])) == BaseName(Other) == "value"
  {
    BaseOfDotted(first, rest, k);
    if k == 0 {
      assert rest[..0] == [] && AttributePath(Name(first))[1..] == [];
    } else {
      assert rest[..k][|rest[..k]| - 1] == rest[k - 1];
    }
  }

  function BaseName(e: Expr): string {
    FirstTelling(AttributePath(if e.Call? && e.args != [] then e.args[0] else e))
  }

  function HoleName(e: Expr, taken: set<string>): string { FirstFree(BaseName(e), 1, taken) }

  /** _placeholder: a name not taken yet, recorded as taken. */
  method Placeholder(e: Expr, taken: set<string>) returns (name: string, taken': set<string>)
    ensures name == HoleName(e, taken) && name !in taken && taken' == taken + {name}
  {
    var base := BaseName(e);
    name := base;
    var i := 2;
    ghost var left := taken;
    while name in taken
      invariant i >= 2 && name == Candidate(base, i - 1)
      invariant left <= taken
      invariant forall x :: x in taken && x !in left ==> exists j :: 1 <= j < i - 1 && x == Candidate(base, j)
      invariant HoleName(e, taken) == FirstFree(base, i - 1, left)
      decreases |left|
    {
      assert name in left by {
        forall j | 1 <= j < i - 1 ensures name != Candidate(base, j) {
          CandidatesDiffer(base, j, i - 1);
        }
      }
      left := left - {name};
      name, i := base + Decimal(i), i + 1;
    }
    taken' := taken + {name};
  }

  lemma {:induction false} FirstFreeIsFree(base: string, i: nat, left: set<string>, taken: set<string>)
    requires i >= 1 && left <= taken
    requires forall x :: x in taken && x !in left ==> exists j :: 1 <= j < i && x == Candidate(base, j)
    ensures FirstFree(base, i, left) !in taken
    decreases |left|
  {
    forall j | 1 <= j < i ensures Candidate(base, i) != Candidate(base, j) {
      CandidatesDiffer(base, j, i);
    }
    if Candidate(base, i) in left {
      FirstFreeIsFree(base, i + 1, left - {Candidate(base, i)}, taken);
    }
  }

  lemma HoleNameIsFree(e: Expr, taken: set<string>)
    ensures HoleName(e, taken) !in taken
  {
    FirstFreeIsFree(BaseName(e), 1, taken, taken);
  }

  // ---------- the symbolic evaluator ----------

  /** [a + b for a in left for b in right] */
  function Cross(left: seq<Template>, right: seq<Template>): seq<Template> {
    if left == [] then [] else Prepend(left[0], right) + Cross(left[1..], right)
  }

  function Prepend(a: Template, right: seq<Template>): (r: seq<Template>)
    ensures |r| == |right| && forall i :: 0 <= i < |r| ==> r[i] == a + right[i]
  {
    if right == [] then [] else [a + right[0]] + Prepend(a, right[1..])
  }

  /** _texts: the templates (None: not written out), and the names taken afterwards. */
  function Texts(e: Expr, taken: set<string>): (Option<seq<Template>>, set<string>)
    decreases e, 1
  {
    match e
    case Str(v) => (Some([[Text(v)]]), taken)
    case IfExp(b, o) =>
      var body, orelse := Texts(b, taken).0, Texts(o, taken).0;
      (if body.Some? && orelse.Some? then Some(body.value + orelse.value) else None, taken)
    case Add(l, r) =>
      var (left, t1) := Texts(l, taken);
      var (right, t2) := Texts(r, t1);
      (if left.Some? && right.Some? then Some(Cross(left.value, right.value)) else None, t2)
    case Joined(parts) =>
      var (out, t) := JoinParts(parts, [[]], taken);
      (Some(out), t)
    case _ => (None, taken)
  }

  /** The f-string loop, from its variables. */
  function JoinParts(parts: seq<Part>, out: seq<Template>, taken: set<string>): (seq<Template>, set<string>)
    decreases parts, 0
  {
    if parts == [] then (out, taken)
    else
      var (options, t) := Choices(parts[0], taken);
      JoinParts(parts[1..], Cross(out, options), t)
  }

  /** Whether a value is collapsed to a hole, given what _texts made of it. */
  predicate Collapses(inner: Expr, texts: Option<seq<Template>>) {
    texts.None? || (AnyBraces(RenderAll(texts.value)) && !inner.IfExp?)
  }

  function Choices(part: Part, taken: set<string>): (seq<Template>, set<string>)
    decreases part, 0
  {
    match part
    case Lit(s) => ([[Text(s)]], taken)
    case Value(inner) =>
      var (texts, t) := if inner.IfExp? || inner.Add? then Texts(inner, taken) else (None, taken);
      if Collapses(inner, texts) then ([[Hole(HoleName(inner, t))]], t + {HoleName(inner, t)}) else (texts.value, t)
  }

  lemma BracesAre(s: string)
    ensures HasBraces(s) <==> Contains(s, "{{")
  {
    if i :| 0 <= i < |s| - 1 && s[i] == '{' && s[i + 1] == '{' {
      assert s[i..i + 2] == "{{" && At(s, "{{", i);
    }
    if i :| 0 <= i <= |s| && At(s, "{{", i) {
      assert s[i] == s[i..i + 2][0] && s[i + 1] == s[i..i + 2][1];
    }
  }

  /** A formatted value becomes a single hole exactly if it is not written out, or is no conditional and one of its
      texts has double braces; else it gives its own templates. */
  lemma ValueIsOneHoleIff(inner: Expr, taken: set<string>)
    ensures var (texts, t) := if inner.IfExp? || inner.Add? then Texts(inner, taken) else (None, taken);
            var braced := texts.Some? && exists i :: 0 <= i < |texts.value| && Contains(Render(texts.value[i]), "{{");
            Choices(Value(inner), taken).0 ==
            if texts.None? || (braced && !inner.IfExp?) then [[Hole(HoleName(inner, t))]] else texts.value
  {
    var (texts, t) := if inner.IfExp? || inner.Add? then Texts(inner, taken) else (None, taken);
    if texts.Some? {
      forall i | 0 <= i < |texts.value|
        ensures HasBraces(RenderAll(texts.value)[i]) <==> Contains(Render(texts.value[i]), "{{")
      {
        BracesAre(Render(texts.value[i]));
      }
    }
  }

  // ---------- strings, as the script has them ----------

  function CrossStrings(left: seq<string>, right: seq<string>): seq<string> {
    if left == [] then [] else PrependString(left[0], right) + CrossStrings(left[1..], right)
  }

  function PrependString(a: string, right: seq<string>): seq<string> {
    if right == [] then [] else [a + right[0]] + PrependString(a, right[1..])
  }

  lemma {:induction false} RenderAppend(a: Template, b: Template)
    ensures Render(a + b) == Render(a) + Render(b)
  {
    if a == [] {
      assert a + b == b;
    } else {
      assert (a + b)[1..] == a[1..] + b;
      RenderAppend(a[1..], b);
      assert Render(a + b) == RenderPiece(a[0]) + (Render(a[1..]) + Render(b));
    }
  }

  lemma {:induction false} RenderAllAppend(a: seq<Template>, b: seq<Template>)
    ensures RenderAll(a + b) == RenderAll(a) + RenderAll(b)
  {
  }

  lemma {:induction false} RenderPrepend(a: Template, right: seq<Template>)
    ensures RenderAll(Prepend(a, right)) == PrependString(Render(a), RenderAll(right))
  {
    if right != [] {
      RenderAppend(a, right[0]);
      RenderPrepend(a, right[1..]);
      assert RenderAll(right)[1..] == RenderAll(right[1..]);
      assert Prepend(a, right)[1..] == Prepend(a, right[1..]);
    }
  }

  lemma {:induction false} RenderCross(left: seq<Template>, right: seq<Template>)
    ensures RenderAll(Cross(left, right)) == CrossStrings(RenderAll(left), RenderAll(right))
  {
    if left != [] {
      RenderPrepend(left[0], right);
      RenderCross(left[1..], right);
      RenderAllAppend(Prepend(left[0], right), Cross(left[1..], right));
      assert RenderAll(left)[1..] == RenderAll(left[1..]);
    }
  }

  lemma RenderOne(p: Piece)
    ensures RenderAll([[p]]) == [RenderPiece(p)]
  {
    assert [p][1..] == [] && Render([p]) == RenderPiece(p) + "" == RenderPiece(p);
  }

  function Rendered(texts: Option<seq<Template>>): Option<seq<string>> {
    if texts.None? then None else Some(RenderAll(texts.value))
  }

  /** _texts, on strings and with the shared set of taken names threaded through. */
  method TextsOf(e: Expr, taken: set<string>) returns (texts: Option<seq<string>>, taken': set<string>)
    ensures texts == Rendered(Texts(e, taken).0) && taken' == Texts(e, taken).1
    decreases e
  {
    match e {
      case Str(v) =>
        RenderOne(Text(v));
        texts, taken' := Some([v]), taken;
      case IfExp(b, o) =>
        var body, _ := TextsOf(b, taken);
        var orelse, _ := TextsOf(o, taken);
        taken' := taken;
        if body.Some? && orelse.Some? {
          RenderAllAppend(Texts(b, taken).0.value, Texts(o, taken).0.value);
          texts := Some(body.value + orelse.value);
        } else {
          texts := None;
        }
      case Add(l, r) =>
        var left, t1 := TextsOf(l, taken);
        var right;
        right, taken' := TextsOf(r, t1);
        if left.Some? && right.Some? {
          RenderCross(Texts(l, taken).0.value, Texts(r, t1).0.value);
          texts := Some(CrossStrings(left.value, right.value));
        } else {
          texts := None;
        }
      case Joined(parts) =>
        var out: seq<string> := [""];
        taken' := taken;
        ghost var shape: seq<Template> := [[]];
        assert RenderAll(shape) == out;
        assert parts[0..] == parts;
        for n := 0 to |parts|
          invariant out == RenderAll(shape)
          invariant JoinParts(parts[n..], shape, taken') == JoinParts(parts, [[]], taken)
        {
          assert parts[n..][0] == parts[n] && parts[n..][1..] == parts[n + 1..];
          ghost var (choices, after) := Choices(parts[n], taken');
          var options: seq<string>;
          options, taken' := PartOptions(parts[n], taken');
          RenderCross(shape, choices);
          out := CrossStrings(out, options);
          shape := Cross(shape, choices);
        }
        assert parts[|parts|..] == [];
        texts := Some(out);
      case _ =>
        texts, taken' := None, taken;
    }
  }

  method PartOptions(part: Part, taken: set<string>) returns (options: seq<string>, taken': set<string>)
    ensures options == RenderAll(Choices(part, taken).0) && taken' == Choices(part, taken).1
    decreases part
  {
    match part {
      case Lit(s) =>
        RenderOne(Text(s));
        options, taken' := [s], taken;
      case Value(inner) =>
        var texts: Option<seq<string>> := None;
        taken' := taken;
        if inner.IfExp? || inner.Add? {
          texts, taken' := TextsOf(inner, taken);
        }
        if texts.None? || (AnyBraces(texts.value) && !inner.IfExp?) {
          var name;
          name, taken' := Placeholder(inner, taken');
          RenderOne(Hole(name));
          options := ["{{" + name + "}}"];
        } else {
          options := texts.value;
        }
    }
  }
}
