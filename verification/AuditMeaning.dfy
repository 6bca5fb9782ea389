/** What the templates read off the source mean: the sentences the expression can produce, no more and
    no less than the holes allow. */
module AuditMeaning {
  import opened Options
  import opened AuditMessages

  // ---------- what an expression can produce ----------

  /** Some run of the expression gives the string s. A name, attribute, call or anything else not written out
      may give any string. */
  ghost predicate Produces(e: Expr, s: string)
    decreases e, 1
  {
    match e
    case Str(v) => s == v
    case Num(text) => s == text
    case IfExp(b, o) => Produces(b, s) || Produces(o, s)
    case Add(l, r) => exists k :: 0 <= k <= |s| && Produces(l, s[..k]) && Produces(r, s[k..])
    case Joined(parts) => PartsProduce(parts, s)
    case _ => true
  }

  ghost predicate PartsProduce(parts: seq<Part>, s: string)
    decreases parts, 0
  {
    if parts == [] then s == ""
    else exists k :: 0 <= k <= |s| && PartProduces(parts[0], s[..k]) && PartsProduce(parts[1..], s[k..])
  }

  ghost predicate PartProduces(p: Part, s: string)
    decreases p, 0
  {
    match p
    case Lit(text) => s == text
    case Value(inner) => Produces(inner, s)
  }

  // ---------- what a template stands for ----------

  ghost predicate Fits(p: Piece, s: string) { p.Text? ==> s == p.text }

  ghost predicate Instance(t: Template, s: string) {
    if t == [] then s == ""
    else exists k :: 0 <= k <= |s| && Fits(t[0], s[..k]) && Instance(t[1..], s[k..])
  }

  ghost predicate InstanceOfOne(ts: seq<Template>, s: string) { exists t :: t in ts && Instance(t, s) }

  lemma {:induction false} InstanceJoin(a: Template, b: Template, s: string, k: nat)
    requires k <= |s| && Instance(a, s[..k]) && Instance(b, s[k..])
    ensures Instance(a + b, s)
  {
    if a == [] {
      assert a + b == b && s[k..] == s;
    } else {
      var j :| 0 <= j <= k && Fits(a[0], s[..k][..j]) && Instance(a[1..], s[..k][j..]);
      assert s[..k][..j] == s[..j] && s[..k][j..] == s[j..][..k - j] && s[k..] == s[j..][k - j..];
      InstanceJoin(a[1..], b, s[j..], k - j);
      assert (a + b)[1..] == a[1..] + b;
    }
  }

  lemma {:induction false} InstanceSplit(a: Template, b: Template, s: string) returns (k: nat)
    requires Instance(a + b, s)
    ensures k <= |s| && Instance(a, s[..k]) && Instance(b, s[k..])
  {
    if a == [] {
      assert a + b == b && s[0..] == s;
      k := 0;
    } else {
      assert (a + b)[1..] == a[1..] + b;
      var j :| 0 <= j <= |s| && Fits((a + b)[0], s[..j]) && Instance((a + b)[1..], s[j..]);
      var i := InstanceSplit(a[1..], b, s[j..]);
      k := i + j;
      assert s[..k][..j] == s[..j] && s[..k][j..] == s[j..][..i] && s[k..] == s[j..][i..];
    }
  }

  lemma {:induction false} CrossMembers(left: seq<Template>, right: seq<Template>)
    ensures forall a, b :: a in left && b in right ==> a + b in Cross(left, right)
    ensures forall t :: t in Cross(left, right) ==> exists a, b :: a in left && b in right && t == a + b
  {
    if left != [] {
      CrossMembers(left[1..], right);
      var first, rest := Prepend(left[0], right), Cross(left[1..], right);
      forall a, b | a in left && b in right ensures a + b in Cross(left, right) {
        if a == left[0] {
          var i :| 0 <= i < |right| && right[i] == b;
          assert first[i] == a + b;
        } else {
          assert a in left[1..];
        }
      }
      forall t | t in Cross(left, right) ensures exists a, b :: a in left && b in right && t == a + b {
        if t in first {
          var i :| 0 <= i < |first| && first[i] == t;
          assert left[0] in left && right[i] in right;
        } else {
          var a, b :| a in left[1..] && b in right && t == a + b;
          assert a in left;
        }
      }
    }
  }

  lemma CrossParts(left: seq<Template>, right: seq<Template>, t: Template) returns (a: Template, b: Template)
    requires t in Cross(left, right)
    ensures a in left && b in right && t == a + b
  {
    CrossMembers(left, right);
    a, b :| a in left && b in right && t == a + b;
  }

  /** b takes one of the choices of each part. */
  ghost predicate Chosen(parts: seq<Part>, taken: set<string>, b: Template)
    decreases |parts|, 1
  {
    if parts == [] then b == [] else exists k :: 0 <= k <= |b| && ChosenAt(parts, taken, b, k)
  }

  /** Up to k it is a choice of the first part, and from there on of the others. */
  ghost predicate ChosenAt(parts: seq<Part>, taken: set<string>, b: Template, k: nat)
    requires parts != [] && k <= |b|
    decreases |parts|, 0
  {
    b[..k] in Choices(parts[0], taken).0 && Chosen(parts[1..], Choices(parts[0], taken).1, b[k..])
  }

  lemma ChosenSplit(parts: seq<Part>, taken: set<string>, b: Template) returns (k: nat)
    requires parts != [] && Chosen(parts, taken, b)
    ensures k <= |b| && ChosenAt(parts, taken, b, k)
  {
    k :| 0 <= k <= |b| && ChosenAt(parts, taken, b, k);
  }

  lemma {:induction false} JoinedAreChosen(parts: seq<Part>, out: seq<Template>, taken: set<string>, t: Template)
    returns (a: Template, b: Template)
    requires t in JoinParts(parts, out, taken).0
    ensures a in out && t == a + b && Chosen(parts, taken, b)
    decreases |parts|
  {
    if parts == [] {
      a, b := t, [];
      assert t == a + b;
    } else {
      var (options, t') := Choices(parts[0], taken);
      var ac, rest := JoinedAreChosen(parts[1..], Cross(out, options), t', t);
      var k;
      a, b, k := TakeChoice(out, options, ac, rest);
      assert ChosenAt(parts, taken, b, k);
    }
  }

  lemma TakeChoice(out: seq<Template>, options: seq<Template>, ac: Template, rest: Template)
    returns (a: Template, b: Template, k: nat)
    requires ac in Cross(out, options)
    ensures a in out && ac + rest == a + b && k <= |b| && b[..k] in options && b[k..] == rest
  {
    var c;
    a, c := CrossParts(out, options, ac);
    b, k := c + rest, |c|;
    assert a + c + rest == a + b && b[..k] == c;
  }

  lemma OnePiece(t: Template, s: string)
    requires |t| == 1
    ensures Instance(t, s) <==> Fits(t[0], s)
  {
    assert t != [] && t[1..] == [];
    assert s[..|s|] == s && s[|s|..] == "" && Instance([], s[|s|..]);
    if Instance(t, s) {
      var k :| 0 <= k <= |s| && Fits(t[0], s[..k]) && Instance(t[1..], s[k..]);
      assert s[..k] + s[k..] == s && s[k..] == "";
    }
    if Fits(t[0], s) {
      assert Fits(t[0], s[..|s|]);
    }
  }

  lemma OneText(v: string, s: string)
    ensures Instance([Text(v)], s) <==> s == v
  {
    OnePiece([Text(v)], s);
  }

  lemma OneHole(n: string, s: string)
    ensures Instance([Hole(n)], s)
  {
    OnePiece([Hole(n)], s);
  }

  // ---------- soundness ----------

  /** Soundness: every string the expression can produce is an instance of one of its templates. */
  lemma {:induction false} EverySentenceHasItsTemplate(e: Expr, taken: set<string>, s: string)
    requires Texts(e, taken).0.Some? && Produces(e, s)
    ensures InstanceOfOne(Texts(e, taken).0.value, s)
    decreases e, 1
  {
    match e {
      case Str(v) =>
        OneText(v, s);
        assert [Text(v)] in Texts(e, taken).0.value;
      case IfExp(b, o) =>
        if Produces(b, s) {
          EverySentenceHasItsTemplate(b, taken, s);
        } else {
          EverySentenceHasItsTemplate(o, taken, s);
        }
      case Add(l, r) =>
        var k :| 0 <= k <= |s| && Produces(l, s[..k]) && Produces(r, s[k..]);
        var (left, t1) := Texts(l, taken);
        EverySentenceHasItsTemplate(l, taken, s[..k]);
        EverySentenceHasItsTemplate(r, t1, s[k..]);
        JoinInstances(left.value, Texts(r, t1).0.value, s, k);
      case Joined(parts) =>
        assert s[0..] == s && s[..0] == "" && Instance([], s[..0]);
        assert InstanceOfOne([[]], s[..0]);
        PartsHaveTheirTemplates(parts, [[]], taken, s, 0);
    }
  }

  lemma JoinInstances(left: seq<Template>, right: seq<Template>, s: string, k: nat)
    requires k <= |s| && InstanceOfOne(left, s[..k]) && InstanceOfOne(right, s[k..])
    ensures InstanceOfOne(Cross(left, right), s)
  {
    var a :| a in left && Instance(a, s[..k]);
    var b :| b in right && Instance(b, s[k..]);
    InstanceJoin(a, b, s, k);
    CrossMembers(left, right);
  }

  lemma PartsSplit(parts: seq<Part>, s: string) returns (j: nat)
    requires parts != [] && PartsProduce(parts, s)
    ensures j <= |s| && PartProduces(parts[0], s[..j]) && PartsProduce(parts[1..], s[j..])
  {
    j :| 0 <= j <= |s| && PartProduces(parts[0], s[..j]) && PartsProduce(parts[1..], s[j..]);
  }

  lemma JoinUpTo(left: seq<Template>, right: seq<Template>, s: string, k: nat, j: nat)
    requires k + j <= |s| && InstanceOfOne(left, s[..k]) && InstanceOfOne(right, s[k..][..j])
    ensures InstanceOfOne(Cross(left, right), s[..k + j]) && s[k..][j..] == s[k + j..]
  {
    var upto := s[..k + j];
    assert upto[..k] == s[..k] && upto[k..] == s[k..][..j];
    JoinInstances(left, right, upto, k);
  }

  lemma {:induction false} PartsHaveTheirTemplates(parts: seq<Part>, out: seq<Template>, taken: set<string>,
                                                   s: string, k: nat)
    requires k <= |s| && InstanceOfOne(out, s[..k]) && PartsProduce(parts, s[k..])
    ensures InstanceOfOne(JoinParts(parts, out, taken).0, s)
    decreases parts, 0
  {
    if parts == [] {
      assert s[..k] == s;
    } else {
      var j := PartsSplit(parts, s[k..]);
      var (options, t) := Choices(parts[0], taken);
      PartHasItsTemplate(parts[0], taken, s[k..][..j]);
      JoinUpTo(out, options, s, k, j);
      PartsHaveTheirTemplates(parts[1..], Cross(out, options), t, s, k + j);
    }
  }

  lemma {:induction false} PartHasItsTemplate(p: Part, taken: set<string>, s: string)
    requires PartProduces(p, s)
    ensures InstanceOfOne(Choices(p, taken).0, s)
    decreases p, 0
  {
    var options := Choices(p, taken).0;
    match p {
      case Lit(v) =>
        OneText(v, s);
        assert options[0] in options;
      case Value(inner) =>
        var (texts, t) := if inner.IfExp? || inner.Add? then Texts(inner, taken) else (None, taken);
        if Collapses(inner, texts) {
          OneHole(HoleName(inner, t), s);
          assert options[0] in options;
        } else {
          EverySentenceHasItsTemplate(inner, taken, s);
        }
    }
  }

  // ---------- completeness ----------

  /** Completeness: every template is there for some choice of branches, also where values were collapsed to
      one hole. */
  lemma {:induction false} EveryTemplateIsRealised(e: Expr, taken: set<string>, t: Template) returns (s: string)
    requires Texts(e, taken).0.Some? && t in Texts(e, taken).0.value
    ensures Produces(e, s) && Instance(t, s)
    decreases e, 1
  {
    match e {
      case Str(v) =>
        s := v;
        OneText(v, s);
      case IfExp(b, o) =>
        if t in Texts(b, taken).0.value {
          s := EveryTemplateIsRealised(b, taken, t);
        } else {
          s := EveryTemplateIsRealised(o, taken, t);
        }
      case Add(l, r) =>
        var (left, t1) := Texts(l, taken);
        var a, b := CrossParts(left.value, Texts(r, t1).0.value, t);
        var x := EveryTemplateIsRealised(l, taken, a);
        var y := EveryTemplateIsRealised(r, t1, b);
        s := x + y;
        assert s[..|x|] == x && s[|x|..] == y;
        InstanceJoin(a, b, s, |x|);
      case Joined(parts) =>
        var a, b := JoinedAreChosen(parts, [[]], taken, t);
        assert t == b;
        s := PartsAreRealised(parts, taken, b);
    }
  }

  lemma {:induction false} PartsAreRealised(parts: seq<Part>, taken: set<string>, b: Template) returns (s: string)
    requires Chosen(parts, taken, b)
    ensures PartsProduce(parts, s) && Instance(b, s)
    decreases parts, 0
  {
    if parts == [] {
      s := "";
    } else {
      var k := ChosenSplit(parts, taken, b);
      var x := PartIsRealised(parts[0], taken, b[..k]);
      var y := PartsAreRealised(parts[1..], Choices(parts[0], taken).1, b[k..]);
      s := x + y;
      assert s[..|x|] == x && s[|x|..] == y && b[..k] + b[k..] == b;
      InstanceJoin(b[..k], b[k..], s, |x|);
      PartsJoin(parts, s, |x|);
    }
  }

  lemma {:induction false} SomethingIsProduced(e: Expr) returns (s: string)
    ensures Produces(e, s)
    decreases e, 1
  {
    match e {
      case Str(v) => s := v;
      case Num(text) => s := text;
      case IfExp(b, o) => s := SomethingIsProduced(b);
      case Add(l, r) =>
        var x := SomethingIsProduced(l);
        var y := SomethingIsProduced(r);
        s := x + y;
        assert s[..|x|] == x && s[|x|..] == y;
      case Joined(parts) => s := PartsProduceSomething(parts);
      case _ => s := "";
    }
  }

  lemma {:induction false} PartsProduceSomething(parts: seq<Part>) returns (s: string)
    ensures PartsProduce(parts, s)
    decreases parts, 0
  {
    if parts == [] {
      s := "";
    } else {
      var x := PartProducesSomething(parts[0]);
      var y := PartsProduceSomething(parts[1..]);
      s := x + y;
      assert s[..|x|] == x && s[|x|..] == y;
    }
  }

  lemma {:induction false} PartProducesSomething(p: Part) returns (s: string)
    ensures PartProduces(p, s)
    decreases p, 0
  {
    match p {
      case Lit(v) => s := v;
      case Value(inner) => s := SomethingIsProduced(inner);
    }
  }

  lemma {:induction false} PartIsRealised(p: Part, taken: set<string>, t: Template) returns (s: string)
    requires t in Choices(p, taken).0
    ensures PartProduces(p, s) && Instance(t, s)
    decreases p, 0
  {
    match p {
      case Lit(v) =>
        s := v;
        OneText(v, s);
      case Value(inner) =>
        var (texts, t') := if inner.IfExp? || inner.Add? then Texts(inner, taken) else (None, taken);
        if Collapses(inner, texts) {
          s := SomethingIsProduced(inner);
          OneHole(HoleName(inner, t'), s);
        } else {
          s := EveryTemplateIsRealised(inner, taken, t);
        }
    }
  }

  // ---------- exactness ----------

  /** Every hole of the templates stands for a value that may be any string. */
  predicate PlainHoles(e: Expr, taken: set<string>)
    decreases e, 1
  {
    match e
    case IfExp(b, o) => PlainHoles(b, taken) && PlainHoles(o, taken)
    case Add(l, r) => PlainHoles(l, taken) && PlainHoles(r, Texts(l, taken).1)
    case Joined(parts) => PlainParts(parts, taken)
    case _ => true
  }

  predicate PlainParts(parts: seq<Part>, taken: set<string>)
    decreases parts, 0
  {
    parts == [] || (PlainPart(parts[0], taken) && PlainParts(parts[1..], Choices(parts[0], taken).1))
  }

  predicate PlainPart(p: Part, taken: set<string>)
    decreases p, 0
  {
    match p
    case Lit(_) => true
    case Value(inner) =>
      var texts := if inner.IfExp? || inner.Add? then Texts(inner, taken).0 else None;
      if Collapses(inner, texts)
      then inner.Attr? || inner.Name? || inner.Call? || inner.Other?
      else PlainHoles(inner, taken)
  }

  /** Then the templates are exact: their instances are precisely the strings the expression can produce. */
  lemma TemplatesAreExact(e: Expr, taken: set<string>, s: string)
    requires Texts(e, taken).0.Some? && PlainHoles(e, taken)
    ensures Produces(e, s) <==> InstanceOfOne(Texts(e, taken).0.value, s)
  {
    if Produces(e, s) {
      EverySentenceHasItsTemplate(e, taken, s);
    }
    if t :| t in Texts(e, taken).0.value && Instance(t, s) {
      InstancesAreProduced(e, taken, t, s);
    }
  }

  lemma {:induction false} InstancesAreProduced(e: Expr, taken: set<string>, t: Template, s: string)
    requires Texts(e, taken).0.Some? && PlainHoles(e, taken) && t in Texts(e, taken).0.value && Instance(t, s)
    ensures Produces(e, s)
    decreases e, 1
  {
    match e {
      case Str(v) => OneText(v, s);
      case IfExp(b, o) =>
        if t in Texts(b, taken).0.value {
          InstancesAreProduced(b, taken, t, s);
        } else {
          InstancesAreProduced(o, taken, t, s);
        }
      case Add(l, r) =>
        var (left, t1) := Texts(l, taken);
        var a, b := CrossParts(left.value, Texts(r, t1).0.value, t);
        var k := InstanceSplit(a, b, s);
        InstancesAreProduced(l, taken, a, s[..k]);
        InstancesAreProduced(r, t1, b, s[k..]);
      case Joined(parts) =>
        var a, b := JoinedAreChosen(parts, [[]], taken, t);
        assert t == b;
        InstancesOfParts(parts, taken, b, s);
    }
  }

  lemma PartsJoin(parts: seq<Part>, s: string, j: nat)
    requires parts != [] && j <= |s| && PartProduces(parts[0], s[..j]) && PartsProduce(parts[1..], s[j..])
    ensures PartsProduce(parts, s)
  {
  }

  lemma {:induction false} InstancesOfParts(parts: seq<Part>, taken: set<string>, b: Template, s: string)
    requires Chosen(parts, taken, b) && PlainParts(parts, taken) && Instance(b, s)
    ensures PartsProduce(parts, s)
    decreases parts, 0
  {
    if parts != [] {
      var k := ChosenSplit(parts, taken, b);
      assert b[..k] + b[k..] == b;
      var j := InstanceSplit(b[..k], b[k..], s);
      PartInstances(parts[0], taken, b[..k], s[..j]);
      InstancesOfParts(parts[1..], Choices(parts[0], taken).1, b[k..], s[j..]);
      PartsJoin(parts, s, j);
    }
  }

  lemma {:induction false} PartInstances(p: Part, taken: set<string>, t: Template, s: string)
    requires t in Choices(p, taken).0 && PlainPart(p, taken) && Instance(t, s)
    ensures PartProduces(p, s)
    decreases p, 0
  {
    match p {
      case Lit(v) => OneText(v, s);
      case Value(inner) =>
        var (texts, t') := if inner.IfExp? || inner.Add? then Texts(inner, taken) else (None, taken);
        if !Collapses(inner, texts) {
          InstancesAreProduced(inner, taken, t, s);
        }
    }
  }
}
