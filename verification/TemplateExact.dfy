/** The reader of template literals accepts the printed templates and nothing else. */
module TemplateExact {
  import opened SqlLexis
  import opened TemplatePrint
  import opened Templates
  import opened TextParts
  import opened Wrappers

  // ----- text -----

  /** What stands in front does not matter. */
  lemma {:induction false} TextMoved(a: string, s: string, k: nat)
    ensures IsText(a + s, |a| + k) == IsText(s, k)
    decreases |s| - k
  {
    if k < |s| {
      assert (a + s)[|a| + k] == s[k];
      if s[k] == '\\' {
        TextMoved(a, s, k + 2);
      } else {
        if k + 1 < |s| {
          assert (a + s)[|a| + (k + 1)] == s[k + 1];
        }
        TextMoved(a, s, k + 1);
      }
    }
  }

  lemma TextLonger(c: string, i: nat, s: string)
    requires i < |c| && IsText(s, 0) && c[i] != '`' && c[i] != '\\'
    requires c[i] == '$' && s != "" ==> s[0] != '{'
    ensures IsText([c[i]] + s, 0)
  {
    TextMoved([c[i]], s, 0);
  }

  lemma EscapeLonger(c: string, i: nat, s: string)
    requires i + 2 <= |c| && IsText(s, 0) && c[i] == '\\'
    ensures IsText(c[i..i + 2] + s, 0)
  {
    TextMoved(c[i..i + 2], s, 0);
  }

  // ----- strings -----

  lemma {:induction false} RawMoved(a: string, s: string, k: nat, q: char)
    ensures IsRawFrom(a + s, |a| + k, q) == IsRawFrom(s, k, q)
    decreases |s| - k
  {
    if k < |s| {
      assert (a + s)[|a| + k] == s[k];
      RawMoved(a, s, if s[k] == '\\' then k + 2 else k + 1, q);
    }
  }

  lemma {:induction false} RawRead(c: string, j: nat, q: char)
    requires StringStop(c, j, q) < |c|
    ensures j <= StringStop(c, j, q) && IsRawFrom(c[j..StringStop(c, j, q)], 0, q)
    decreases |c| - j
  {
    var stop := StringStop(c, j, q);
    if c[j] != q && c[j] != '\n' {
      var n := if c[j] == '\\' then j + 2 else j + 1;
      RawRead(c, n, q);
      RawMoved(c[j..n], c[n..stop], 0, q);
      assert c[j..stop] == c[j..n] + c[n..stop];
    }
  }

  // ----- comments -----

  lemma CommentRead(c: string, i: nat, close: nat)
    requires FirstOccurrence(c, "*/", i, |c|) == Some(close)
    ensures i <= close && close + 2 <= |c| && c[close..close + 2] == "*/"
    ensures FirstOccurrence(c[i..close] + "*/", "*/", 0, close - i + 2) == Some(close - i)
  {
    hide *;
    var d := "*/";
    FirstOccurs(c, d, i, |c|);
    OccursText(c, d, close);
    var u := c[i..close] + d;
    ClosedPart(c, i, close, d);
    forall k | 0 <= k < close - i
      ensures !OccursAt(u, d, k)
    {
      OccursMoved(c, i, u, d, k);
    }
    OccursMoved(c, i, u, d, close - i);
    FirstIs(u, d, 0, |u|, close - i);
  }

  lemma ClosedPart(c: string, i: nat, close: nat, d: string)
    requires i <= close && close + |d| <= |c| && c[close..close + |d|] == d
    ensures Part(c, i, c[i..close] + d)
  {
    assert c[i..close + |d|] == c[i..close] + c[close..close + |d|];
  }

  lemma LineRead(c: string, i: nat, end: nat)
    requires i + 1 < |c| && c[i + 1] == '/' && FirstOccurrence(c, "\n", i + 1, |c|) == Some(end)
    ensures i + 2 <= end < |c| && c[end] == '\n' && '\n' !in c[i + 2..end]
  {
    hide OccursAt, FirstOccurrence;
    FirstOccurs(c, "\n", i + 1, |c|);
    LineBreakOccurs(c, end);
    LineBreakOccurs(c, i + 1);
    forall k | i + 2 <= k < end
      ensures c[k] != '\n'
    {
      LineBreakOccurs(c, k);
    }
  }

  // ----- braces -----

  /** To close several braces is to close one and then the others. */
  lemma {:induction false} OneByOne(c: string, i: nat, depth: nat)
    requires depth > 1
    ensures ExprEnd(c, i, depth) ==
            match ExprEnd(c, i, 1) case None => None case Some(m) => ExprEnd(c, m, depth - 1)
    decreases |c| - i
  {
    if i < |c| {
      if c[i] == '{' {
        BraceByBrace(c, i, depth);
      } else if c[i] != '}' {
        var next := Behind(c, i);
        StepOver(c, i, depth);
        StepOver(c, i, 1);
        hide ExprEnd, Behind;
        if next.Some? {
          OneByOne(c, next.value, depth);
        }
      }
    }
  }

  lemma {:induction false} BraceByBrace(c: string, i: nat, depth: nat)
    requires depth > 1 && i < |c| && c[i] == '{'
    ensures ExprEnd(c, i, depth) ==
            match ExprEnd(c, i, 1) case None => None case Some(m) => ExprEnd(c, m, depth - 1)
    decreases |c| - i, -1
  {
    OpenBrace(c, i, depth);
    OpenBrace(c, i, 1);
    hide ExprEnd;
    OneByOne(c, i + 1, depth + 1);
    OneByOne(c, i + 1, 2);
    var m := ExprEnd(c, i + 1, 1);
    if m.Some? {
      OneByOne(c, m.value, depth);
    }
  }

  lemma OpenBrace(c: string, i: nat, depth: nat)
    requires depth > 0 && i < |c| && c[i] == '{'
    ensures ExprEnd(c, i, depth) == ExprEnd(c, i + 1, depth + 1)
  {
  }

  /** Where the reader goes on behind what starts at i, braces aside. */
  function Behind(c: string, i: nat): (r: Option<nat>)
    requires i < |c|
    ensures r.Some? ==> i < r.value
  {
    if IsQuote(c[i]) then
      var j := StringStop(c, i + 1, c[i]);
      if j < |c| && c[j] == c[i] then Some(j + 1) else None
    else if c[i] == '`' then TemplateEnd(c, i)
    else if c[i] == '/' && i + 1 < |c| && c[i + 1] == '*' then
      var end := FirstOccurrence(c, "*/", i + 2, |c|);
      if end.Some? then Some(end.value + 2) else None
    else if c[i] == '/' && i + 1 < |c| && c[i + 1] == '/' then FirstOccurrence(c, "\n", i + 1, |c|)
    else Some(i + 1)
  }

  lemma StepOver(c: string, i: nat, depth: nat)
    requires depth > 0 && i < |c| && c[i] != '{' && c[i] != '}'
    ensures ExprEnd(c, i, depth) == match Behind(c, i) case None => None case Some(n) => ExprEnd(c, n, depth)
  {
    hide FirstOccurrence, StringStop, TextEnd;
  }

  // ----- what has been read was printed -----

  /** The parts are printed from i up to the brace that ends them before e. */
  ghost predicate PartsTo(c: string, i: nat, parts: seq<Piece>, e: nat) {
    i < e <= |c| && WellFormedParts(parts) && c[i..e - 1] == PrintParts(parts) && c[e - 1] == '}'
  }

  ghost predicate TextTo(c: string, i: nat, text: string, holes: seq<Hole>, e: nat) {
    i < e <= |c| && WellFormedFrom(text, holes) && c[i..e] == PrintFrom(text, holes)
  }

  /** One piece in front. */
  lemma MoreParts(c: string, i: nat, p: Piece, n: nat, rest: seq<Piece>, e: nat)
    requires i < n <= |c| && c[i..n] == PrintPart(p) && WellFormedPart(p) && PartsTo(c, n, rest, e)
    requires EndsInSlash(p) ==> c[n] != '/' && c[n] != '*'
    ensures PartsTo(c, i, [p] + rest, e)
  {
    var parts := [p] + rest;
    assert parts[0] == p && parts[1..] == rest;
    assert c[i..e - 1] == c[i..n] + c[n..e - 1];
    assert n < e - 1 ==> PrintParts(rest)[0] == c[n..e - 1][0] == c[n];
    hide PrintPart, WellFormedPart;
  }

  lemma {:induction false} ReadParts(c: string, i: nat, e: nat) returns (parts: seq<Piece>)
    requires ExprEnd(c, i, 1) == Some(e)
    ensures PartsTo(c, i, parts, e)
    decreases |c| - i, 3
  {
    if c[i] == '}' {
      assert c[i..e - 1] == "" && e == i + 1;
      parts := [];
    } else {
      hide PartsTo, WellFormedPart, PrintPart, FirstOccurrence;
      var p, n := ReadPart(c, i, e);
      var rest := ReadParts(c, n, e);
      MoreParts(c, i, p, n, rest, e);
      parts := [p] + rest;
    }
  }

  /** The first piece of an expression. */
  lemma {:induction false} ReadPart(c: string, i: nat, e: nat) returns (p: Piece, n: nat)
    requires ExprEnd(c, i, 1) == Some(e) && i < |c| && c[i] != '}'
    ensures i < n < |c| && c[i..n] == PrintPart(p) && WellFormedPart(p) && ExprEnd(c, n, 1) == Some(e)
    ensures EndsInSlash(p) ==> c[n] != '/' && c[n] != '*'
    decreases |c| - i, 2
  {
    hide ExprEnd, FirstOccurrence, StringStop, TextEnd, PrintPart, WellFormedPart;
    if c[i] == '{' {
      OpenBrace(c, i, 1);
      OneByOne(c, i + 1, 2);
      n := ExprEnd(c, i + 1, 1).value;
      ReadsOn(c, n, e);
      var inner := ReadParts(c, i + 1, n);
      p := Braces(inner);
      BracesPrinted(c, i, inner, n);
    } else {
      StepOver(c, i, 1);
      n := Behind(c, i).value;
      ReadsOn(c, n, e);
      if IsQuote(c[i]) {
        p := StringRead(c, i, n);
      } else if c[i] == '`' {
        var t := ReadTemplate(c, i, n);
        p := Nested(t);
        NestedPrinted(c, i, t, n);
      } else if c[i] == '/' && i + 1 < |c| && c[i + 1] == '*' {
        p := BlockRead(c, i, n);
      } else if c[i] == '/' && i + 1 < |c| && c[i + 1] == '/' {
        LineRead(c, i, n);
        BreakSkipped(c, n);
        p := LineComment(c[i + 2..n]);
        LinePrinted(c, i, n);
        n := n + 1;
        ReadsOn(c, n, e);
      } else {
        p := Code([c[i]]);
        CodePrinted(c, i);
      }
    }
  }

  lemma ReadsOn(c: string, n: nat, e: nat)
    requires ExprEnd(c, n, 1) == Some(e)
    ensures n < |c|
  {
  }

  lemma BracesPrinted(c: string, i: nat, inner: seq<Piece>, n: nat)
    requires i < |c| && c[i] == '{' && PartsTo(c, i + 1, inner, n)
    ensures c[i..n] == PrintPart(Braces(inner)) && WellFormedPart(Braces(inner)) && !EndsInSlash(Braces(inner))
  {
    hide PrintParts, WellFormedParts;
    assert c[i..n] == [c[i]] + (c[i + 1..n - 1] + [c[n - 1]]);
  }

  lemma NestedPrinted(c: string, i: nat, t: Template, n: nat)
    requires i < n <= |c| && WellFormed(t) && c[i..n] == Print(t)
    ensures c[i..n] == PrintPart(Nested(t)) && WellFormedPart(Nested(t)) && !EndsInSlash(Nested(t))
  {
    hide Print, WellFormed;
  }

  lemma StringRead(c: string, i: nat, n: nat) returns (p: Piece)
    requires i < |c| && IsQuote(c[i]) && Behind(c, i) == Some(n)
    ensures n <= |c| && c[i..n] == PrintPart(p) && WellFormedPart(p) && !EndsInSlash(p)
  {
    var q := c[i];
    hide StringStop, IsRawFrom;
    RawRead(c, i + 1, q);
    p := Str(q, c[i + 1..n - 1]);
    assert c[i..n] == [q] + (c[i + 1..n - 1] + [q]);
  }

  lemma BlockRead(c: string, i: nat, n: nat) returns (p: Piece)
    requires i + 1 < |c| && c[i] == '/' && c[i + 1] == '*' && Behind(c, i) == Some(n)
    ensures n <= |c| && c[i..n] == PrintPart(p) && WellFormedPart(p) && !EndsInSlash(p)
  {
    hide FirstOccurrence;
    var text := c[i + 2..n - 2];
    CommentRead(c, i + 2, n - 2);
    p := BlockComment(text);
    assert c[i..n] == c[i..i + 2] + (c[i + 2..n - 2] + c[n - 2..n]);
    assert c[i..i + 2] == "/*";
    assert |text| + 2 == n - 2 - (i + 2) + 2;
  }

  /** A line break is nothing special behind its comment. */
  lemma BreakSkipped(c: string, n: nat)
    requires n < |c| && c[n] == '\n'
    ensures ExprEnd(c, n, 1) == ExprEnd(c, n + 1, 1)
  {
    hide FirstOccurrence, StringStop, TextEnd;
  }

  lemma LinePrinted(c: string, i: nat, end: nat)
    requires i + 2 <= end < |c| && c[i] == '/' && c[i + 1] == '/' && c[end] == '\n' && '\n' !in c[i + 2..end]
    ensures var p := LineComment(c[i + 2..end]);
            c[i..end + 1] == PrintPart(p) && WellFormedPart(p) && !EndsInSlash(p)
  {
    assert c[i..end + 1] == c[i..i + 2] + (c[i + 2..end] + [c[end]]);
    assert c[i..i + 2] == "//";
  }

  lemma CodePrinted(c: string, i: nat)
    requires i < |c| && !IsQuote(c[i]) && c[i] != '`' && c[i] != '{' && c[i] != '}'
    ensures var p := Code([c[i]]); c[i..i + 1] == PrintPart(p) && WellFormedPart(p)
    ensures EndsInSlash(Code([c[i]])) ==> c[i] == '/'
  {
  }

  lemma {:induction false} ReadText(c: string, i: nat, e: nat) returns (text: string, holes: seq<Hole>)
    requires TextEnd(c, i) == Some(e)
    ensures TextTo(c, i, text, holes, e)
    decreases |c| - i, 3
  {
    hide ExprEnd, TextTo;
    if c[i] == '\\' {
      text, holes := ReadText(c, i + 2, e);
      EscapeInFront(c, i, text, holes, e);
      text := c[i..i + 2] + text;
    } else if c[i] == '`' {
      text, holes := "", [];
      LastText(c, i);
    } else if c[i] == '$' && i + 1 < |c| && c[i + 1] == '{' {
      var n := ExprEnd(c, i + 2, 1).value;
      var parts := ReadParts(c, i + 2, n);
      text, holes := ReadText(c, n, e);
      HoleInFront(c, i, parts, n, text, holes, e);
      text, holes := "", [Hole(parts, text)] + holes;
    } else {
      text, holes := ReadText(c, i + 1, e);
      CharInFront(c, i, text, holes, e);
      text := [c[i]] + text;
    }
  }

  lemma LastText(c: string, i: nat)
    requires i < |c| && c[i] == '`'
    ensures TextTo(c, i, "", [], i + 1)
  {
  }

  lemma PrintFromLonger(a: string, text: string, holes: seq<Hole>)
    ensures PrintFrom(a + text, holes) == a + PrintFrom(text, holes)
  {
  }

  lemma EscapeInFront(c: string, i: nat, text: string, holes: seq<Hole>, e: nat)
    requires i < |c| && c[i] == '\\' && TextTo(c, i + 2, text, holes, e)
    ensures TextTo(c, i, c[i..i + 2] + text, holes, e)
  {
    hide PrintFrom, IsText;
    EscapeLonger(c, i, text);
    PrintFromLonger(c[i..i + 2], text, holes);
    assert c[i..e] == c[i..i + 2] + c[i + 2..e];
  }

  lemma CharInFront(c: string, i: nat, text: string, holes: seq<Hole>, e: nat)
    requires i < |c| && c[i] != '\\' && c[i] != '`' && TextTo(c, i + 1, text, holes, e)
    requires c[i] == '$' && i + 1 < |c| ==> c[i + 1] != '{'
    ensures TextTo(c, i, [c[i]] + text, holes, e)
  {
    hide IsText;
    if text != "" {
      assert text[0] == PrintFrom(text, holes)[0] == c[i + 1..e][0] == c[i + 1];
    }
    hide PrintFrom;
    TextLonger(c, i, text);
    PrintFromLonger([c[i]], text, holes);
    assert c[i..e] == [c[i]] + c[i + 1..e];
  }

  lemma HoleInFront(c: string, i: nat, parts: seq<Piece>, n: nat, text: string, holes: seq<Hole>, e: nat)
    requires i + 1 < |c| && c[i] == '$' && c[i + 1] == '{' && PartsTo(c, i + 2, parts, n) && TextTo(c, n, text, holes, e)
    ensures TextTo(c, i, "", [Hole(parts, text)] + holes, e)
  {
    var all := [Hole(parts, text)] + holes;
    assert all[0] == Hole(parts, text) && all[1..] == holes;
    assert WellFormedFrom("", all) by { hide PrintParts; }
    assert PrintFrom("", all) == "" + "${" + PrintParts(parts) + "}" + PrintFrom(text, holes) by { hide WellFormedParts; }
    hide PrintFrom, PrintParts, WellFormedFrom, WellFormedParts;
    assert c[i..e] == c[i..i + 2] + c[i + 2..n - 1] + [c[n - 1]] + c[n..e];
    assert c[i..i + 2] == "${";
  }

  lemma {:induction false} ReadTemplate(c: string, i: nat, e: nat) returns (t: Template)
    requires i < |c| && c[i] == '`' && TemplateEnd(c, i) == Some(e)
    ensures i < e <= |c| && WellFormed(t) && c[i..e] == Print(t)
    decreases |c| - i, 1
  {
    var text, holes := ReadText(c, i + 1, e);
    hide TextEnd, PrintFrom, WellFormedFrom;
    t := Template(text, holes);
    assert c[i..e] == "`" + c[i + 1..e];
  }

  /** The reader finds an end exactly where a template is printed up to that end; where none is printed it
      finds none. */
  lemma TemplateIsPrinted(c: string, p: nat, e: nat)
    requires p < |c| && c[p] == '`'
    ensures TemplateEnd(c, p) == Some(e) <==> p < e <= |c| && exists t :: WellFormed(t) && c[p..e] == Print(t)
  {
    hide TextEnd, WellFormed, Print;
    if TemplateEnd(c, p) == Some(e) {
      var t := ReadTemplate(c, p, e);
    }
    if p < e <= |c| {
      if t :| WellFormed(t) && c[p..e] == Print(t) {
        assert |Print(t)| == e - p by { assert |c[p..e]| == e - p; }
        assert Stands(c, p, Print(t), e);
        TemplateScan(c, p, t, e);
      }
    }
  }
}
