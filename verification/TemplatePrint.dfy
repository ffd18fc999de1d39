/** Printing a template literal and finding its end again. */
module TemplatePrint {
  import opened Wrappers
  import opened SqlLexis
  import opened TextParts
  import opened Templates

  /** A template: text, and then expressions each followed by text. */
  datatype Template = Template(text: string, holes: seq<Hole>)

  datatype Hole = Hole(parts: seq<Piece>, text: string)

  /** What an expression consists of. */
  datatype Piece =
    | Code(code: string)
    | Braces(parts: seq<Piece>)
    | Str(quote: char, raw: string)
    | Nested(template: Template)
    | BlockComment(text: string)
    | LineComment(text: string)

  function Print(t: Template): string
    decreases t, 1
  {
    "`" + PrintFrom(t.text, t.holes)
  }

  function PrintFrom(text: string, holes: seq<Hole>): string
    decreases holes, 0
  {
    if holes == [] then text + "`"
    else text + "${" + PrintParts(holes[0].parts) + "}" + PrintFrom(holes[0].text, holes[1..])
  }

  function PrintParts(parts: seq<Piece>): string
    decreases parts, 0
  {
    if parts == [] then "" else PrintPart(parts[0]) + PrintParts(parts[1..])
  }

  function PrintPart(p: Piece): string
    decreases p, 2
  {
    match p
    case Code(code) => code
    case Braces(parts) => "{" + (PrintParts(parts) + "}")
    case Str(q, raw) => [q] + (raw + [q])
    case Nested(t) => Print(t)
    case BlockComment(text) => "/*" + (text + "*/")
    case LineComment(text) => "//" + (text + "\n")
  }

  // ----- well-formed templates -----

  /** Every backslash has something to escape; no backtick and no ${ stands in the text unescaped. */
  predicate IsText(s: string, k: nat)
    decreases |s| - k
  {
    if k >= |s| then k == |s|
    else if s[k] == '\\' then IsText(s, k + 2)
    else s[k] != '`' && !(s[k] == '$' && k + 1 < |s| && s[k + 1] == '{') && IsText(s, k + 1)
  }

  /** No literal, brace or comment starts in the code. */
  predicate IsCode(s: string) {
    forall k | 0 <= k < |s| ::
      && !IsQuote(s[k]) && s[k] != '`' && s[k] != '{' && s[k] != '}'
      && !(s[k] == '/' && k + 1 < |s| && (s[k + 1] == '*' || s[k + 1] == '/'))
  }

  predicate EndsInSlash(p: Piece) { p.Code? && p.code != [] && p.code[|p.code| - 1] == '/' }

  /** No slash before it makes a comment of this. */
  predicate AfterSlash(rest: string) { rest != [] ==> rest[0] != '/' && rest[0] != '*' }

  /** Quotes and line breaks stand only behind a backslash, and every backslash has something to escape. */
  predicate IsRaw(raw: string, q: char) { IsQuote(q) && IsRawFrom(raw, 0, q) }

  predicate IsRawFrom(raw: string, k: nat, q: char)
    decreases |raw| - k
  {
    if k >= |raw| then k == |raw|
    else if raw[k] == '\\' then IsRawFrom(raw, k + 2, q)
    else raw[k] != q && raw[k] != '\n' && IsRawFrom(raw, k + 1, q)
  }

  ghost predicate WellFormed(t: Template)
    decreases t, 1
  {
    WellFormedFrom(t.text, t.holes)
  }

  ghost predicate WellFormedFrom(text: string, holes: seq<Hole>)
    decreases holes, 0
  {
    IsText(text, 0) &&
    (holes != [] ==> WellFormedParts(holes[0].parts) && WellFormedFrom(holes[0].text, holes[1..]))
  }

  ghost predicate WellFormedParts(parts: seq<Piece>)
    decreases parts, 0
  {
    parts != [] ==>
      && WellFormedPart(parts[0]) && WellFormedParts(parts[1..])
      && (EndsInSlash(parts[0]) ==> AfterSlash(PrintParts(parts[1..])))
  }

  ghost predicate WellFormedPart(p: Piece)
    decreases p, 2
  {
    match p
    case Code(code) => IsCode(code)
    case Braces(parts) => WellFormedParts(parts)
    case Str(q, raw) => IsRaw(raw, q)
    case Nested(t) => WellFormed(t)
    case BlockComment(text) => FirstOccurrence(text + "*/", "*/", 0, |text| + 2) == Some(|text|)
    case LineComment(text) => '\n' !in text
  }

  // ----- finding the end -----

  /** x stands in c from p to e. */
  ghost predicate Stands(c: string, p: nat, x: string, e: nat)
    ensures Stands(c, p, x, e) ==> p <= e <= |c|
  {
    e == p + |x| && Part(c, p, x)
  }

  lemma StandsAt(c: string, p: nat, x: string, e: nat)
    requires Stands(c, p, x, e)
    ensures forall k :: 0 <= k < |x| ==> c[p + k] == x[k]
  {
  }

  lemma StandsFirst(c: string, p: nat, x: string, e: nat)
    requires Stands(c, p, x, e) && x != []
    ensures e == p + |x| && c[p] == x[0] && (|x| > 1 ==> c[p + 1] == x[1])
  {
    assert c[p + 0] == x[0];
  }

  /** The place where the second of two texts starts. */
  lemma StandsSplit(c: string, p: nat, x: string, y: string, e: nat) returns (m: nat)
    requires Stands(c, p, x + y, e)
    ensures Stands(c, p, x, m) && Stands(c, m, y, e)
  {
    m := p + |x|;
    PartSplit(c, p, x, y, m);
  }

  lemma {:induction false} TextScan(c: string, p: nat, s: string, e: nat, k: nat, i: nat)
    requires Stands(c, p, s, e) && k <= |s| && i == p + k && IsText(s, k)
    requires e < |c| && (c[e] == '`' || c[e] == '$')
    ensures TextEnd(c, i) == TextEnd(c, e)
    decreases |s| - k
  {
    if k < |s| {
      StandsAt(c, p, s, e);
      assert c[p + k] == s[k];
      if s[k] == '\\' {
        TextScan(c, p, s, e, k + 2, i + 2);
      } else {
        if k + 1 < |s| {
          assert c[p + (k + 1)] == s[k + 1];
        }
        TextScan(c, p, s, e, k + 1, i + 1);
      }
    }
  }

  lemma {:induction false} CodeScan(c: string, p: nat, s: string, e: nat, k: nat, i: nat, depth: nat)
    requires Stands(c, p, s, e) && k <= |s| && i == p + k && IsCode(s) && depth > 0
    requires EndsInSlash(Code(s)) && e < |c| ==> c[e] != '/' && c[e] != '*'
    ensures ExprEnd(c, i, depth) == ExprEnd(c, e, depth)
    decreases |s| - k
  {
    if k < |s| {
      StandsAt(c, p, s, e);
      assert c[p + k] == s[k];
      if k + 1 < |s| {
        assert c[p + (k + 1)] == s[k + 1];
      }
      CodeScan(c, p, s, e, k + 1, i + 1, depth);
    }
  }

  lemma {:induction false} StopIn(c: string, p: nat, u: string, e: nat, j: nat, i: nat, q: char)
    requires Stands(c, p, u, e) && i == p + j && StringStop(u, j, q) < |u|
    ensures StringStop(c, i, q) == p + StringStop(u, j, q)
    decreases |u| - j
  {
    StandsAt(c, p, u, e);
    assert j < |u| && c[p + j] == u[j];
    if u[j] != q && u[j] != '\n' {
      var step := if u[j] == '\\' then 2 else 1;
      StopIn(c, p, u, e, j + step, i + step, q);
    }
  }

  lemma {:induction false} RawStops(raw: string, k: nat, q: char)
    requires IsRawFrom(raw, k, q) && IsQuote(q)
    ensures StringStop(raw + [q], k, q) == |raw|
    decreases |raw| - k
  {
    if k < |raw| {
      RawStops(raw, if raw[k] == '\\' then k + 2 else k + 1, q);
    }
  }

  lemma StrScan(c: string, p: nat, q: char, raw: string, e: nat, depth: nat)
    requires Stands(c, p, [q] + (raw + [q]), e) && IsRaw(raw, q) && depth > 0
    ensures ExprEnd(c, p, depth) == ExprEnd(c, e, depth)
  {
    var m := StandsSplit(c, p, [q], raw + [q], e);
    StandsAt(c, p, [q], m);
    assert c[p + 0] == [q][0];
    RawStops(raw, 0, q);
    StopIn(c, m, raw + [q], e, 0, m, q);
    StandsAt(c, m, raw + [q], e);
    assert c[m + |raw|] == q;
  }

  lemma StandsPart(c: string, p: nat, u: string, e: nat)
    requires Stands(c, p, u, e)
    ensures Part(c, p, u) && e == p + |u|
  {
  }

  lemma OccurrenceIn(c: string, p: nat, u: string, e: nat, d: string, at: nat)
    requires Stands(c, p, u, e) && |d| > 0 && FirstOccurrence(u, d, 0, |u|) == Some(at)
    ensures FirstOccurrence(c, d, p, |c|) == Some(p + at)
  {
    hide FirstOccurrence, Part, Stands;
    StandsPart(c, p, u, e);
    OccurrenceMoved(c, p, u, d, 0, |u|);
    assert FirstOccurrence(c, d, p, e) == Some(p + at);
    LaterLimit(c, d, p, e, |c|);
  }

  lemma CommentScan(c: string, p: nat, text: string, e: nat, depth: nat)
    requires Stands(c, p, "/*" + (text + "*/"), e) && depth > 0
    requires FirstOccurrence(text + "*/", "*/", 0, |text| + 2) == Some(|text|)
    ensures ExprEnd(c, p, depth) == ExprEnd(c, e, depth)
  {
    hide FirstOccurrence, Stands, ExprEnd;
    var u := text + "*/";
    var m := StandsSplit(c, p, "/*", u, e);
    assert c[p] == '/' && c[p + 1] == '*' && m == p + 2 by {
      StandsFirst(c, p, "/*", m);
    }
    assert e == m + |u| by { StandsPart(c, m, u, e); }
    OccurrenceIn(c, m, u, e, "*/", |text|);
    CommentStep(c, p, m, m + |text|, depth);
  }

  lemma CommentStep(c: string, p: nat, m: nat, close: nat, depth: nat)
    requires m == p + 2 && p + 1 < |c| && c[p] == '/' && c[p + 1] == '*' && depth > 0
    requires FirstOccurrence(c, "*/", m, |c|) == Some(close)
    ensures ExprEnd(c, p, depth) == ExprEnd(c, close + 2, depth)
  {
    hide FirstOccurrence;
  }

  lemma LineBreakOccurs(u: string, q: nat)
    ensures OccursAt(u, "\n", q) <==> q < |u| && u[q] == '\n'
  {
    var mark := "\n";
    if OccursAt(u, mark, q) {
      assert u[q + 0] == mark[0];
    }
  }

  lemma LineBreakAt(text: string)
    requires '\n' !in text
    ensures FirstOccurrence(text + "\n", "\n", 0, |text| + 1) == Some(|text|)
  {
    hide OccursAt, FirstOccurrence;
    var u := text + "\n";
    forall q: nat | q <= |text|
      ensures OccursAt(u, "\n", q) <==> q == |text|
    {
      LineBreakOccurs(u, q);
      assert q < |text| ==> u[q] == text[q] && text[q] in text;
    }
    FirstIs(u, "\n", 0, |u|, |text|);
  }

  lemma LineScan(c: string, p: nat, text: string, e: nat, depth: nat)
    requires Stands(c, p, "//" + (text + "\n"), e) && depth > 0 && '\n' !in text
    ensures ExprEnd(c, p, depth) == ExprEnd(c, e, depth)
  {
    hide FirstOccurrence, Stands;
    var u := text + "\n";
    var m := StandsSplit(c, p, "//", u, e);
    assert c[p] == '/' && c[p + 1] == '/' && m == p + 2 by {
      StandsFirst(c, p, "//", m);
    }
    LineBreakAt(text);
    SkipSlash(c, p, m);
    assert c[m + |text|] == '\n' && e == m + |text| + 1 by {
      StandsAt(c, m, u, e);
      StandsPart(c, m, u, e);
      assert u[|text|] == '\n';
    }
    OccurrenceIn(c, m, u, e, "\n", |text|);
  }

  /** The second slash of a line comment is no line break. */
  lemma SkipSlash(c: string, p: nat, m: nat)
    requires m == p + 2 && m <= |c| && c[p + 1] == '/'
    ensures FirstOccurrence(c, "\n", p + 1, |c|) == FirstOccurrence(c, "\n", m, |c|)
  {
    LineBreakOccurs(c, p + 1);
    hide OccursAt;
  }

  lemma {:induction false} PartScan(c: string, p: nat, x: Piece, e: nat, depth: nat)
    requires Stands(c, p, PrintPart(x), e) && WellFormedPart(x) && depth > 0
    requires EndsInSlash(x) && e < |c| ==> c[e] != '/' && c[e] != '*'
    ensures ExprEnd(c, p, depth) == ExprEnd(c, e, depth)
    decreases x, 2
  {
    match x
    case Code(code) => CodeScan(c, p, code, e, 0, p, depth);
    case Braces(parts) => BracesScan(c, p, parts, e, depth);
    case Str(q, raw) => StrScan(c, p, q, raw, e, depth);
    case Nested(t) =>
      TemplateScan(c, p, t, e);
      StandsFirst(c, p, Print(t), e);
    case BlockComment(text) => CommentScan(c, p, text, e, depth);
    case LineComment(text) => LineScan(c, p, text, e, depth);
  }

  lemma {:induction false} BracesScan(c: string, p: nat, parts: seq<Piece>, e: nat, depth: nat)
    requires Stands(c, p, "{" + (PrintParts(parts) + "}"), e) && WellFormedParts(parts) && depth > 0
    ensures ExprEnd(c, p, depth) == ExprEnd(c, e, depth)
    decreases parts, 1
  {
    hide Stands;
    var inner := PrintParts(parts);
    var m := StandsSplit(c, p, "{", inner + "}", e);
    var n := StandsSplit(c, m, inner, "}", e);
    assert m == p + 1 && c[p] == '{' by {
      StandsFirst(c, p, "{", m);
    }
    assert e == n + 1 && c[n] == '}' by {
      StandsFirst(c, n, "}", e);
    }
    PartsScan(c, m, parts, n, depth + 1);
    BraceSteps(c, p, n, depth);
  }

  lemma BraceSteps(c: string, p: nat, n: nat, depth: nat)
    requires p < n < |c| && c[p] == '{' && c[n] == '}' && depth > 0
    ensures ExprEnd(c, p, depth) == ExprEnd(c, p + 1, depth + 1)
    ensures ExprEnd(c, n, depth + 1) == ExprEnd(c, n + 1, depth)
  {
    hide FirstOccurrence, StringStop, TextEnd;
  }

  lemma {:induction false} PartsScan(c: string, p: nat, parts: seq<Piece>, e: nat, depth: nat)
    requires Stands(c, p, PrintParts(parts), e) && WellFormedParts(parts) && depth > 0
    requires e < |c| && c[e] == '}'
    ensures ExprEnd(c, p, depth) == ExprEnd(c, e, depth)
    decreases parts, 0
  {
    if parts != [] {
      var rest := PrintParts(parts[1..]);
      var m := StandsSplit(c, p, PrintPart(parts[0]), rest, e);
      if rest != "" {
        StandsFirst(c, m, rest, e);
      }
      PartScan(c, p, parts[0], m, depth);
      PartsScan(c, m, parts[1..], e, depth);
    }
  }

  lemma {:induction false} HolesScan(c: string, p: nat, text: string, holes: seq<Hole>, e: nat)
    requires Stands(c, p, PrintFrom(text, holes), e) && WellFormedFrom(text, holes)
    ensures TextEnd(c, p) == Some(e)
    decreases holes, 1
  {
    if holes == [] {
      var m := StandsSplit(c, p, text, "`", e);
      StandsFirst(c, m, "`", e);
      TextScan(c, p, text, m, 0, p);
    } else {
      var inner, rest := PrintParts(holes[0].parts), PrintFrom(holes[0].text, holes[1..]);
      assert PrintFrom(text, holes) == text + ("${" + (inner + ("}" + rest)));
      var m := StandsSplit(c, p, text, "${" + (inner + ("}" + rest)), e);
      HoleScan(c, m, holes, rest, e);
      var a := StandsSplit(c, m, "${", inner + ("}" + rest), e);
      StandsFirst(c, m, "${", a);
      TextScan(c, p, text, m, 0, p);
    }
  }

  lemma {:induction false} HoleScan(c: string, m: nat, holes: seq<Hole>, rest: string, e: nat)
    requires holes != [] && rest == PrintFrom(holes[0].text, holes[1..])
    requires Stands(c, m, "${" + (PrintParts(holes[0].parts) + ("}" + rest)), e)
    requires WellFormedParts(holes[0].parts) && WellFormedFrom(holes[0].text, holes[1..])
    ensures TextEnd(c, m) == Some(e)
    decreases holes, 0
  {
    var inner := PrintParts(holes[0].parts);
    var a := StandsSplit(c, m, "${", inner + ("}" + rest), e);
    var b := StandsSplit(c, a, inner, "}" + rest, e);
    var d := StandsSplit(c, b, "}", rest, e);
    StandsFirst(c, m, "${", a);
    StandsFirst(c, b, "}", d);
    PartsScan(c, a, holes[0].parts, b, 1);
    HolesScan(c, d, holes[0].text, holes[1..], e);
  }

  lemma {:induction false} TemplateScan(c: string, p: nat, t: Template, e: nat)
    requires Stands(c, p, Print(t), e) && WellFormed(t)
    ensures p < |c| && TemplateEnd(c, p) == Some(e)
    decreases t, 1
  {
    var m := StandsSplit(c, p, "`", PrintFrom(t.text, t.holes), e);
    HolesScan(c, m, t.text, t.holes, e);
  }

  /** Whatever stands around a printed template, its end is found where it was printed to. */
  lemma PrintedTemplateEnds(before: string, t: Template, after: string)
    requires WellFormed(t)
    ensures var c := before + Print(t) + after;
            |before| < |c| && TemplateEnd(c, |before|) == Some(|before| + |Print(t)|)
  {
    var c := before + Print(t) + after;
    assert Stands(c, |before|, Print(t), |before| + |Print(t)|);
    TemplateScan(c, |before|, t, |before| + |Print(t)|);
  }
}
