/** What stands inside literals never reaches the verdict on a DELETE statement. */
module MaskLiterals {
  import opened Wrappers
  import opened SqlLexis
  import opened TextParts
  import opened HollowCondition
  import opened MaskStatement
  import opened QuoteText

  /** A literal as it is written: the raw text between its delimiters. */
  datatype Literal =
    | Quoted(quote: char, raw: string)
    | Dollar(delim: string, raw: string)

  function Written(l: Literal): (w: string)
    ensures l.Quoted? ==> |w| == |l.raw| + 2
  {
    match l
    case Quoted(q, raw) => [q] + (raw + [q])
    case Dollar(d, raw) => d + (raw + d)
  }

  /** A statement: text, and then literals each followed by text. */
  datatype Statement = Statement(text: string, rest: seq<(Literal, string)>)

  function Render(s: Statement): string
    decreases |s.rest|
  {
    if s.rest == [] then s.text
    else s.text + (Written(s.rest[0].0) + Render(Next(s)))
  }

  /** The statement behind the first literal. */
  function Next(s: Statement): Statement
    requires s.rest != []
  {
    Statement(s.rest[0].1, s.rest[1..])
  }

  // ----- which statements are meant -----

  /** The dollar sign at k opens no delimiter, whatever stands behind the text. */
  predicate PlainDollar(x: string, k: nat)
    requires k < |x|
  {
    || (k + 1 < |x| && x[k + 1] != '$' && !TagStart(x[k + 1]))
    || (TagRun(x, k + 1) < |x| && DelimiterFrom(x, k).None?)
  }

  /** No literal, no statement end; parentheses do not close more than `depth`. */
  predicate PlainFrom(x: string, k: nat, depth: nat)
    requires k <= |x|
    decreases |x| - k
  {
    k == |x| ||
    (if x[k] == '(' then PlainFrom(x, k + 1, depth + 1)
     else if x[k] == ')' then depth > 0 && PlainFrom(x, k + 1, depth - 1)
     else x[k] !in ";'\"" && (x[k] == '$' ==> PlainDollar(x, k)) && PlainFrom(x, k + 1, depth))
  }

  function DepthAfter(x: string, k: nat, depth: nat): nat
    requires k <= |x| && PlainFrom(x, k, depth)
    decreases |x| - k
  {
    if k == |x| then depth
    else if x[k] == '(' then DepthAfter(x, k + 1, depth + 1)
    else if x[k] == ')' then DepthAfter(x, k + 1, depth - 1)
    else DepthAfter(x, k + 1, depth)
  }

  /** The quoted string is an escape string. */
  predicate Escapes(before: string, q: char, bs: bool) {
    var n := |before|;
    q == '\'' && (bs || (n >= 2 && (before[n - 1] == 'E' || before[n - 1] == 'e') && !IdentChar(before[n - 2])))
  }

  /** The inside of a literal as it is written: quotes doubled or, in an escape string, behind backslashes. */
  ghost predicate ClosedQuote(raw: string, q: char, esc: bool) {
    exists signs :: Spelled(signs, esc) && raw == Inside(signs, q)
  }

  /** The delimiter comes again only at the end. */
  ghost predicate ClosedDollar(raw: string, d: string) {
    && (exists tag :: IsTag(tag) && d == Delimiter(tag))
    && forall k: nat :: k < |raw| ==> !OccursAt(raw + d, d, k)
  }

  lemma QuoteCloses(raw: string, q: char, esc: bool)
    requires IsQuote(q) && ClosedQuote(raw, q, esc)
    ensures QuoteEndFrom(raw + [q], q, esc, 0, |raw| + 1) == Some(|raw| + 1)
  {
    var signs :| Spelled(signs, esc) && raw == Inside(signs, q);
    var t := raw + [q];
    assert t[0..|t|] == Closing(signs, q);
    ReadsClosing(t, q, esc, 0, |t|, |t|, signs);
  }

  lemma DollarCloses(raw: string, d: string)
    requires ClosedDollar(raw, d)
    ensures IsDelimiter(d) && FirstOccurrence(raw + d, d, 0, |raw| + |d|) == Some(|raw|)
  {
    assert d[0..|d|] == d;
    DelimiterExact(d, 0, d);
    assert OccursAt(raw + d, d, |raw|);
    hide OccursAt, IsTag;
    FirstIs(raw + d, d, 0, |raw| + |d|, |raw|);
  }

  /** The text x tells whether the string behind it is an escape string. Only at the start of the statement
      it may not: there it depends on what stands before. */
  predicate Tells(behind: string, x: string, bs: bool) {
    behind != [] || bs || (x != [] && (|x| == 1 ==> x[0] != 'E' && x[0] != 'e'))
  }

  /** The literal behind the text x is closed, whatever follows. */
  ghost predicate Closed(behind: string, x: string, l: Literal, bs: bool, token: Option<string>) {
    var before := behind + x;
    match l
    case Quoted(q, raw) =>
      && IsQuote(q) && (q == '\'' ==> Tells(behind, x, bs))
      && ClosedQuote(raw, q, Escapes(before, q, bs)) && token != Some([q])
    case Dollar(d, raw) =>
      && before != [] && !IdentChar(before[|before| - 1])
      && ClosedDollar(raw, d) && token != Some(d)
  }

  /** The character a literal ends with. */
  function LastOf(l: Literal): (r: string)
    ensures |r| == 1
  {
    if l.Quoted? then [l.quote] else "$"
  }

  /** Two literals with nothing between them that read as two. */
  predicate Apart(l: Literal, next: Statement) {
    next.text == [] && next.rest != [] && l.Quoted? && next.rest[0].0.Quoted? ==> l.quote != next.rest[0].0.quote
  }

  /** Every literal is closed and apart from the next; `behind` is what the literal before the statement
      ends with, if any. */
  ghost predicate WellFormed(s: Statement, behind: string, depth: nat, bs: bool, token: Option<string>)
    decreases |s.rest|
  {
    && PlainFrom(s.text, 0, depth)
    && (s.rest != [] ==>
          var l := s.rest[0].0;
          && Closed(behind, s.text, l, bs, token) && Apart(l, Next(s))
          && WellFormed(Next(s), LastOf(l), DepthAfter(s.text, 0, depth), bs, token))
  }

  /** What may follow the statement: nothing, or what ends it. */
  ghost predicate EndsStatement(t: string, i: nat, depth: nat, token: Option<string>)
    requires i <= |t|
  {
    || i == |t| || t[i] == ';' || (t[i] == ')' && depth == 0)
    || (token.Some? && i + |token.value| <= |t| && t[i..i + |token.value|] == token.value)
  }

  ghost predicate IsToken(token: Option<string>) {
    token.None? || token.value == "'" || token.value == "\"" || IsDelimiter(token.value)
  }

  // ----- the masked statement -----

  /** The masked text, from the texts and the kinds of the literals alone. */
  function Masked(s: Statement, behind: string): string
    decreases |s.rest|
  {
    if s.rest == [] then s.text else MaskedFirst(s, behind) + Masked(Next(s), LastOf(s.rest[0].0))
  }

  /** The first text without a string prefix, and the mark for the literal behind it. */
  function MaskedFirst(s: Statement, behind: string): string
    requires s.rest != []
  {
    s.text[..|s.text| - PrefixOf(behind, s.text, s.rest[0].0)] + MarkOf(s.rest[0].0)
  }

  /** How long a string prefix E, B, X, N or U& the text ends with that is not part of a name. */
  function StringPrefix(y: string): nat {
    var n := |y|;
    if n >= 1 && y[n - 1] in "EeBbXxNn" && (n >= 2 ==> !IdentChar(y[n - 2])) then 1
    else if n >= 2 && y[n - 1] == '&' && y[n - 2] in "Uu" && (n >= 3 ==> !IdentChar(y[n - 3])) then 2
    else 0
  }

  /** The length of the string prefix at the end of the text x before the literal. */
  function PrefixOf(behind: string, x: string, l: Literal): (r: nat)
    ensures r <= |x|
  {
    var n := StringPrefix(behind + x);
    if !l.Quoted? || l.quote != '\'' then 0 else if n <= |x| then n else |x|
  }

  function MarkOf(l: Literal): string {
    if l.Quoted? && l.quote == '"' then " ident " else " 0 "
  }

  ghost predicate SameKind(a: Literal, b: Literal) {
    if a.Quoted? then b.Quoted? && a.quote == b.quote else b.Dollar?
  }

  /** The statements differ in nothing but what their literals contain. */
  ghost predicate SameSkeleton(a: Statement, b: Statement) {
    && a.text == b.text && |a.rest| == |b.rest|
    && forall i :: 0 <= i < |a.rest| ==> SameKind(a.rest[i].0, b.rest[i].0) && a.rest[i].1 == b.rest[i].1
  }

  lemma {:induction false} MaskedBySkeleton(a: Statement, b: Statement, behind: string)
    requires SameSkeleton(a, b)
    ensures Masked(a, behind) == Masked(b, behind)
    decreases |a.rest|
  {
    if a.rest != [] {
      SameFirst(a, b, behind);
      hide MaskedFirst;
      MaskedBySkeleton(Next(a), Next(b), LastOf(a.rest[0].0));
    }
  }

  lemma SameFirst(a: Statement, b: Statement, behind: string)
    requires a.text == b.text && a.rest != [] && b.rest != [] && SameKind(a.rest[0].0, b.rest[0].0)
    ensures MaskedFirst(a, behind) == MaskedFirst(b, behind) && LastOf(a.rest[0].0) == LastOf(b.rest[0].0)
  {
    hide StringPrefix;
  }

  // ----- the scanner finds the literals -----

  function DepthStep(c: char, depth: nat): nat
    requires c == ')' ==> depth > 0
  {
    if c == '(' then depth + 1 else if c == ')' then depth - 1 else depth
  }

  lemma PlainStep(t: string, from: nat, token: Option<string>, bs: bool, run: nat, i: nat, depth: nat)
    requires from <= run <= i < |t| && IsToken(token)
    requires t[i] == '(' || (t[i] == ')' && depth > 0) || !IsSpecial(t[i]) || (t[i] == '$' && DelimiterFrom(t, i).None?)
    ensures StepAt(t, from, token, bs, run, i, depth) == Go(i + 1, DepthStep(t[i], depth))
  {
    hide QuoteEnd, PrefixLength, DelimiterFrom, FirstOccurrence, StopsAt, IsToken;
    TokenStart(t, token, i);
    if t[i] == '$' && StopsAt(t, token, i) {
      TokenOpens(t, token, i);
    }
  }

  /** A token that starts with a dollar sign is a delimiter. */
  lemma TokenIsDelimiter(t: string, token: Option<string>, i: nat)
    requires IsToken(token) && i < |t| && t[i] == '$' && StopsAt(t, token, i)
    ensures token.Some? && IsDelimiter(token.value) && OccursAt(t, token.value, i)
  {
    assert t[i + 0] == token.value[0];
  }

  lemma TokenOpens(t: string, token: Option<string>, i: nat)
    requires IsToken(token) && i < |t| && t[i] == '$' && StopsAt(t, token, i)
    ensures DelimiterFrom(t, i).Some?
  {
    hide IsToken, StopsAt, IsDelimiter;
    TokenIsDelimiter(t, token, i);
    DelimiterOccurs(t, token.value, i);
  }

  lemma PlainDollarIn(t: string, p: nat, x: string, k: nat)
    requires Part(t, p, x) && k < |x| && x[k] == '$' && PlainDollar(x, k)
    ensures DelimiterFrom(t, p + k).None?
  {
    PartAt(t, p, x);
    TagRunMoved(t, p, x, k + 1);
    var e := TagRun(x, k + 1);
    if e < |x| {
      assert t[p + e] == x[e];
    }
    if k + 1 < |x| {
      assert t[p + (k + 1)] == x[k + 1];
    }
  }

  lemma MaskGoes(t: string, from: nat, token: Option<string>, bs: bool, run: nat, i: nat, depth: nat, inside: nat)
    requires from <= run <= i < |t| && StepAt(t, from, token, bs, run, i, depth) == Go(i + 1, inside)
    ensures Mask(t, from, token, bs, run, i, depth) == Mask(t, from, token, bs, run, i + 1, inside)
  {
    hide StepAt;
  }

  lemma {:induction false} MaskText(t: string, from: nat, token: Option<string>, bs: bool,
                                    run: nat, p: nat, x: string, k: nat, depth: nat, i: nat, e: nat)
    requires from <= run <= p && Part(t, p, x) && k <= |x| && PlainFrom(x, k, depth) && IsToken(token)
    requires i == p + k && e == p + |x|
    ensures Mask(t, from, token, bs, run, i, depth) == Mask(t, from, token, bs, run, e, DepthAfter(x, k, depth))
    decreases |x| - k
  {
    hide Mask, StepAt, Part, IsToken, DelimiterFrom, PlainDollar;
    if k < |x| {
      assert t[i] == x[k] by { PartAt(t, p, x); }
      if x[k] == '$' {
        PlainDollarIn(t, p, x, k);
      }
      var inside := DepthStep(x[k], depth);
      PlainStep(t, from, token, bs, run, i, depth);
      MaskGoes(t, from, token, bs, run, i, depth, inside);
      MaskText(t, from, token, bs, run, p, x, k + 1, inside, i + 1, e);
    }
  }

  lemma TokenStart(t: string, token: Option<string>, i: nat)
    requires IsToken(token) && i < |t|
    ensures StopsAt(t, token, i) ==> IsQuote(t[i]) || t[i] == '$'
    ensures StopsAt(t, token, i) && IsQuote(t[i]) ==> token == Some([t[i]])
  {
    if StopsAt(t, token, i) {
      assert t[i + 0] == token.value[0];
    }
  }

  lemma {:induction false} QuoteEndIn(t: string, p: nat, raw: string, q: char, esc: bool, j: nat)
    requires Part(t, p, raw + [q]) && j <= |raw| + 1
    requires p + |raw| + 1 < |t| ==> t[p + |raw| + 1] != q
    requires QuoteEndFrom(raw + [q], q, esc, j, |raw| + 1) == Some(|raw| + 1)
    ensures QuoteEndFrom(t, q, esc, p + j, |t|) == Some(p + |raw| + 1)
    decreases |raw| + 1 - j
  {
    PartAt(t, p, raw + [q]);
    var u := raw + [q];
    assert t[p + j] == u[j];
    if esc && u[j] == '\\' {
      QuoteEndIn(t, p, raw, q, esc, j + 2);
    } else if u[j] != q {
      QuoteEndIn(t, p, raw, q, esc, j + 1);
    } else if j + 1 < |u| {
      assert t[p + j + 1] == u[j + 1];
      if u[j + 1] == q {
        QuoteEndIn(t, p, raw, q, esc, j + 2);
      }
    }
  }

  lemma FirstIn(t: string, p: nat, raw: string, d: string)
    requires Part(t, p, raw + d) && ClosedDollar(raw, d) && |d| > 0
    ensures FirstOccurrence(t, d, p, |t|) == Some(p + |raw|)
  {
    DollarCloses(raw, d);
    hide FirstOccurrence, Part;
    OccurrenceMoved(t, p, raw + d, d, 0, |raw| + |d|);
    assert FirstOccurrence(t, d, p, p + |raw| + |d|) == Some(p + |raw|);
    LaterLimit(t, d, p, p + |raw| + |d|, |t|);
  }

  /** The reading began at o, or behind the literal that ends with `behind` there. */
  ghost predicate Begins(from: nat, o: nat, behind: string) {
    if behind == [] then from == o else from <= o && |behind| == 1 && (IsQuote(behind[0]) || behind[0] == '$')
  }

  lemma PrefixIn(t: string, from: nat, o: nat, behind: string, x: string)
    requires Begins(from, o, behind) && Part(t, o, behind + x)
    ensures PrefixLength(t, o + |behind + x|, from) == StringPrefix(behind + x)
  {
    var y := behind + x;
    var n := |y|;
    PartAt(t, o, y);
    if n >= 1 {
      assert t[o + (n - 1)] == y[n - 1];
    }
    if n >= 2 {
      assert t[o + (n - 2)] == y[n - 2];
    }
    if n >= 3 {
      assert t[o + (n - 3)] == y[n - 3];
    }
  }

  lemma EscapeIn(t: string, from: nat, o: nat, behind: string, x: string, bs: bool)
    requires Begins(from, o, behind) && Part(t, o, behind + x) && o + |behind + x| < |t|
    requires t[o + |behind + x|] == '\'' ==> Tells(behind, x, bs)
    ensures EscapeString(t, o + |behind + x|, 0, bs) == Escapes(behind + x, t[o + |behind + x|], bs)
  {
    var y := behind + x;
    var n := |y|;
    PartAt(t, o, y);
    if n >= 1 {
      assert t[o + (n - 1)] == y[n - 1];
    }
    if n >= 2 {
      assert t[o + (n - 2)] == y[n - 2];
    }
  }

  /** Behind y, of which the reading has not copied x yet, it replaces the literal as a whole. */
  lemma StepAtLiteral(t: string, from: nat, token: Option<string>, bs: bool, o: nat, behind: string, x: string,
                      p: nat, i: nat, l: Literal, depth: nat)
    requires Begins(from, o, behind) && Part(t, o, behind + x) && p == o + |behind| && i == p + |x|
    requires Part(t, i, Written(l)) && Closed(behind, x, l, bs, token) && IsToken(token)
    requires var end := i + |Written(l)|; end < |t| && l.Quoted? ==> t[end] != l.quote
    ensures i < |t|
    ensures StepAt(t, from, token, bs, p, i, depth)
         == Replace(i - PrefixOf(behind, x, l), MarkOf(l), i + |Written(l)|)
  {
    hide Closed, Part, StepAt, PrefixLength, IsToken;
    match l
    case Quoted(q, raw) => StepAtQuote(t, from, token, bs, o, behind, x, p, i, q, raw, depth);
    case Dollar(d, raw) => StepAtDollar(t, from, token, bs, o, behind, x, p, i, d, raw, depth);
  }

  lemma StepAtQuote(t: string, from: nat, token: Option<string>, bs: bool, o: nat, behind: string, x: string,
                    p: nat, i: nat, q: char, raw: string, depth: nat)
    requires Begins(from, o, behind) && Part(t, o, behind + x) && p == o + |behind| && i == p + |x|
    requires Part(t, i, [q] + (raw + [q]))
    requires Closed(behind, x, Quoted(q, raw), bs, token) && IsToken(token)
    requires var end := i + |raw| + 2; end < |t| ==> t[end] != q
    ensures i < |t|
    ensures StepAt(t, from, token, bs, p, i, depth)
         == Replace(i - PrefixOf(behind, x, Quoted(q, raw)), Mark(q), i + |raw| + 2)
  {
    hide Part, QuoteEndFrom, PrefixLength, StringPrefix, DelimiterAt, FirstOccurrence, StepAt, Tells, Escapes, EscapeString, ClosedQuote;
    var y := behind + x;
    PartSplit(t, i, [q], raw + [q], i + |[q]|);
    assert t[i] == q by {
      PartAt(t, i, [q]);
      assert t[i + 0] == [q][0];
    }
    TokenStart(t, token, i);
    PrefixIn(t, from, o, behind, x);
    EscapeIn(t, from, o, behind, x, bs);
    QuoteCloses(raw, q, Escapes(y, q, bs));
    QuoteEndIn(t, i + 1, raw, q, Escapes(y, q, bs), 0);
    QuoteStep(t, from, token, bs, p, i, depth);
  }

  lemma QuoteStep(t: string, from: nat, token: Option<string>, bs: bool, run: nat, i: nat, depth: nat)
    requires from <= run <= i < |t| && IsQuote(t[i]) && !StopsAt(t, token, i)
    requires QuoteEnd(t, i, bs, 0, |t|).Some?
    ensures var prefix := if t[i] == '\'' then Min(PrefixLength(t, i, from), i - run) else 0;
            StepAt(t, from, token, bs, run, i, depth)
            == Replace(i - prefix, Mark(t[i]), QuoteEnd(t, i, bs, 0, |t|).value)
  {
    hide QuoteEnd, PrefixLength, DelimiterAt, FirstOccurrence;
  }

  lemma StepAtDollar(t: string, from: nat, token: Option<string>, bs: bool, o: nat, behind: string, x: string,
                     p: nat, i: nat, d: string, raw: string, depth: nat)
    requires from <= p <= i == o + |behind + x| && Part(t, o, behind + x) && Part(t, i, d + (raw + d))
    requires Closed(behind, x, Dollar(d, raw), bs, token) && IsToken(token)
    ensures i < |t| && StepAt(t, from, token, bs, p, i, depth) == Replace(i, " 0 ", i + |d + (raw + d)|)
  {
    hide ClosedDollar, DelimiterFrom, IsDelimiter, FirstOccurrence, Part, OccursAt, StopsAt;
    DollarCloses(raw, d);
    PartSplit(t, i, d, raw + d, i + |d|);
    OpensDollar(t, o, behind + x, d, token);
    FirstIn(t, i + |d|, raw, d);
  }

  lemma OpensDollar(t: string, o: nat, y: string, d: string, token: Option<string>)
    requires Part(t, o, y) && Part(t, o + |y|, d) && IsDelimiter(d) && IsToken(token) && token != Some(d)
    requires y != [] && !IdentChar(y[|y| - 1])
    ensures o + |y| < |t| && t[o + |y|] == '$' && DelimiterAt(t, o + |y|, 0, |t|) == Some(d) && |d| >= 2
    ensures !StopsAt(t, token, o + |y|)
  {
    var i := o + |y|;
    assert t[i - 1] == y[|y| - 1] by { PartAt(t, o, y); }
    DelimiterOccurs(t, d, i);
    hide IsToken, StopsAt, IsDelimiter;
    if StopsAt(t, token, i) {
      TokenIsDelimiter(t, token, i);
      DelimiterOccurs(t, token.value, i);
    }
  }

  lemma {:induction false} MaskStatementAt(t: string, from: nat, token: Option<string>, bs: bool, o: nat, behind: string,
                                           p: nat, s: Statement, depth: nat, stop: nat)
    requires from <= o && Begins(from, o, behind) && Part(t, o, behind + Render(s))
    requires p == o + |behind| && stop == p + |Render(s)|
    requires WellFormed(s, behind, depth, bs, token) && IsToken(token)
    requires EndsStatement(t, stop, FinalDepth(s, behind, depth, bs, token), token)
    ensures Mask(t, from, token, bs, p, p, depth) == Masked(s, behind)
    decreases |s.rest|
  {
    PartSplit(t, o, behind, Render(s), p);
    if s.rest == [] {
      hide EndsStatement, IsToken, PlainFrom, DepthAfter, StepAt;
      MaskText(t, from, token, bs, p, p, s.text, 0, depth, p, stop);
      assert t[p..p + |s.text|] == s.text;
      if stop < |t| {
        TokenStops(t, token, stop, FinalDepth(s, behind, depth, bs, token));
      }
    } else {
      hide EndsStatement, WellFormed, FinalDepth, IsToken, Masked, Mask, Part;
      var l := s.rest[0].0;
      var i := p + |s.text|;
      var end := i + |Written(l)|;
      RenderSplit(t, o, behind, p, s, i, end);
      MaskRest(t, from, token, bs, o, behind, p, s, s.text, l, Next(s), depth, i, end, stop);
    }
  }

  /** The parts of a rendered statement; the last character of the literal belongs to the next part, too. */
  lemma RenderSplit(t: string, o: nat, behind: string, p: nat, s: Statement, i: nat, end: nat)
    requires s.rest != [] && Part(t, o, behind + Render(s)) && p == o + |behind|
    requires i == p + |s.text| && end == i + |Written(s.rest[0].0)|
    ensures Part(t, o, behind + s.text) && Part(t, p, s.text) && Part(t, i, Written(s.rest[0].0))
    ensures p + |Render(s)| == end + |Render(Next(s))|
    ensures Part(t, end, Render(Next(s)))
  {
    hide Part, Written;
    var w, next := Written(s.rest[0].0), Next(s);
    assert behind + Render(s) == (behind + s.text) + (w + Render(next));
    PartSplit(t, o, behind + s.text, w + Render(next), i);
    PartSplit(t, o, behind, s.text, p);
    PartSplit(t, i, w, Render(next), end);
  }

  /** A literal ends with its last character. */
  lemma LastPart(t: string, from: nat, i: nat, l: Literal, end: nat, next: string)
    requires from <= i && Part(t, i, Written(l)) && end == i + |Written(l)| && Part(t, end, next)
    requires l.Dollar? ==> IsDelimiter(l.delim)
    requires l.Quoted? ==> IsQuote(l.quote)
    ensures end > i && Part(t, end - 1, LastOf(l) + next)
    ensures from <= end - 1 && Begins(from, end - 1, LastOf(l))
  {
    var w := Written(l);
    if l.Dollar? {
      DelimiterEnds(l.delim);
      assert w[|w| - 1] == l.delim[|l.delim| - 1];
    }
    assert w[|w| - 1] == LastOf(l)[0];
    assert t[end - 1] == w[|w| - 1] by { PartAt(t, i, w); assert t[i + (|w| - 1)] == w[|w| - 1]; }
    assert t[end - 1..end] == LastOf(l);
    assert t[end - 1..end + |next|] == t[end - 1..end] + t[end..end + |next|];
  }

  lemma {:induction false} MaskRest(t: string, from: nat, token: Option<string>, bs: bool, o: nat, behind: string, p: nat,
                                    s: Statement, x: string, l: Literal, next: Statement,
                                    depth: nat, i: nat, end: nat, stop: nat)
    requires s.rest != [] && x == s.text && l == s.rest[0].0 && next == Next(s)
    requires from <= o && Begins(from, o, behind) && p == o + |behind|
    requires i == p + |x| && end == i + |Written(l)| && stop == end + |Render(next)|
    requires Part(t, o, behind + x) && Part(t, p, x) && Part(t, i, Written(l)) && Part(t, end, Render(next))
    requires WellFormed(s, behind, depth, bs, token) && IsToken(token)
    requires EndsStatement(t, stop, FinalDepth(s, behind, depth, bs, token), token)
    ensures Mask(t, from, token, bs, p, p, depth) == Masked(s, behind)
    decreases |s.rest|, 0
  {
    assert |next.rest| + 1 == |s.rest|;
    hide *;
    WellFormedAt(s, behind, depth, bs, token, x, l, next);
    RestMasked(t, from, token, bs, l, next, DepthAfter(x, 0, depth), i, end, stop);
    MaskedAt(s, behind, x, l, next);
    MaskOne(t, from, token, bs, o, behind, p, x, l, depth, i, end);
  }

  /** What stands behind a literal is masked as a statement of its own. */
  lemma {:induction false} RestMasked(t: string, from: nat, token: Option<string>, bs: bool, l: Literal, next: Statement,
                                      depth: nat, i: nat, end: nat, stop: nat)
    requires from <= i && end == i + |Written(l)| && stop == end + |Render(next)|
    requires Part(t, i, Written(l)) && Part(t, end, Render(next)) && Apart(l, next) && Distinct(l, token)
    requires WellFormed(next, LastOf(l), depth, bs, token) && IsToken(token)
    requires EndsStatement(t, stop, FinalDepth(next, LastOf(l), depth, bs, token), token)
    ensures from <= end && end <= |t| && Mask(t, from, token, bs, end, end, depth) == Masked(next, LastOf(l))
    ensures end < |t| && l.Quoted? ==> t[end] != l.quote
    decreases |next.rest| + 1, -1
  {
    hide *;
    RestStarts(t, from, token, bs, l, next, depth, i, end, stop);
    MaskStatementAt(t, from, token, bs, end - 1, LastOf(l), end, next, depth, stop);
  }

  lemma RestStarts(t: string, from: nat, token: Option<string>, bs: bool, l: Literal, next: Statement,
                   depth: nat, i: nat, end: nat, stop: nat)
    requires from <= i && end == i + |Written(l)| && stop == end + |Render(next)|
    requires Part(t, i, Written(l)) && Part(t, end, Render(next)) && Apart(l, next)
    requires WellFormed(next, LastOf(l), depth, bs, token) && IsToken(token)
    requires EndsStatement(t, stop, FinalDepth(next, LastOf(l), depth, bs, token), token)
    requires Distinct(l, token)
    ensures from < end && Begins(from, end - 1, LastOf(l)) && Part(t, end - 1, LastOf(l) + Render(next))
    ensures end < |t| && l.Quoted? ==> t[end] != l.quote
  {
    assert (l.Dollar? ==> IsDelimiter(l.delim)) && (l.Quoted? ==> IsQuote(l.quote) && token != Some([l.quote]));
    hide *;
    LastPart(t, from, i, l, end, Render(next));
    NextStart(t, token, bs, end, l, next, depth, stop);
  }

  lemma MaskedAt(s: Statement, behind: string, x: string, l: Literal, next: Statement)
    requires s.rest != [] && x == s.text && l == s.rest[0].0 && next == Next(s)
    ensures Masked(s, behind) == x[..|x| - PrefixOf(behind, x, l)] + MarkOf(l) + Masked(next, LastOf(l))
  {
    hide PrefixOf, MarkOf;
  }

  lemma WellFormedAt(s: Statement, behind: string, depth: nat, bs: bool, token: Option<string>,
                     x: string, l: Literal, next: Statement)
    requires s.rest != [] && x == s.text && l == s.rest[0].0 && next == Next(s)
    requires WellFormed(s, behind, depth, bs, token)
    ensures PlainFrom(x, 0, depth) && Closed(behind, x, l, bs, token) && Apart(l, next) && Distinct(l, token)
    ensures var inside, last := DepthAfter(x, 0, depth), LastOf(l);
            && WellFormed(next, last, inside, bs, token)
            && FinalDepth(s, behind, depth, bs, token) == FinalDepth(next, last, inside, bs, token)
  {
    hide PlainFrom, DepthAfter, ClosedDollar, ClosedQuote;
    if l.Dollar? {
      DollarCloses(l.raw, l.delim);
    }
  }

  /** The literal is delimited by what delimits literals, and not by the token. */
  ghost predicate Distinct(l: Literal, token: Option<string>) {
    match l
    case Quoted(q, _) => IsQuote(q) && token != Some([q])
    case Dollar(d, _) => IsDelimiter(d)
  }

  /** The text x and the literal behind it. */
  lemma MaskOne(t: string, from: nat, token: Option<string>, bs: bool, o: nat, behind: string, p: nat,
                x: string, l: Literal, depth: nat, i: nat, end: nat)
    requires from <= o && Begins(from, o, behind) && p == o + |behind| && i == p + |x| && end == i + |Written(l)|
    requires Part(t, o, behind + x) && Part(t, p, x) && Part(t, i, Written(l))
    requires PlainFrom(x, 0, depth) && Closed(behind, x, l, bs, token) && IsToken(token)
    requires end < |t| && l.Quoted? ==> t[end] != l.quote
    ensures Mask(t, from, token, bs, p, p, depth)
            == x[..|x| - PrefixOf(behind, x, l)] + MarkOf(l)
               + Mask(t, from, token, bs, end, end, DepthAfter(x, 0, depth))
  {
    hide *;
    var inside, cut := DepthAfter(x, 0, depth), |x| - PrefixOf(behind, x, l);
    StepAtLiteral(t, from, token, bs, o, behind, x, p, i, l, inside);
    assert Mask(t, from, token, bs, p, p, depth) == Mask(t, from, token, bs, p, i, inside) by {
      MaskText(t, from, token, bs, p, p, x, 0, depth, p, i);
    }
    assert t[p..p + cut] == x[..cut] by {
      PartFirst(t, p, x, cut);
    }
    MaskReplaces(t, from, token, bs, p, i, inside);
  }

  lemma PartFirst(t: string, p: nat, x: string, k: nat)
    requires Part(t, p, x) && k <= |x|
    ensures t[p..p + k] == x[..k]
  {
    assert t[p..p + k] == t[p..p + |x|][..k];
  }

  lemma MaskReplaces(t: string, from: nat, token: Option<string>, bs: bool, run: nat, i: nat, depth: nat)
    requires from <= run <= i < |t|
    ensures var s := StepAt(t, from, token, bs, run, i, depth);
            s.Replace? ==> Mask(t, from, token, bs, run, i, depth)
                           == t[run..s.cut] + s.mark + Mask(t, from, token, bs, s.end, s.end, depth)
  {
    hide StepAt;
  }

  ghost function FinalDepth(s: Statement, behind: string, depth: nat, bs: bool, token: Option<string>): nat
    requires WellFormed(s, behind, depth, bs, token)
    decreases |s.rest|
  {
    var inside := DepthAfter(s.text, 0, depth);
    if s.rest == [] then inside else FinalDepth(Next(s), LastOf(s.rest[0].0), inside, bs, token)
  }

  lemma TokenStops(t: string, token: Option<string>, i: nat, depth: nat)
    requires i < |t| && IsToken(token) && EndsStatement(t, i, depth, token)
    ensures forall from: nat, bs, run: nat | from <= run <= i :: StepAt(t, from, token, bs, run, i, depth) == Stop
  {
    if token.Some? && i + |token.value| <= |t| && t[i..i + |token.value|] == token.value {
      OccursText(t, token.value, i);
      hide OccursAt;
      TokenNotEmpty(token);
      assert t[i] == t[i..i + |token.value|][0];
      TokenStart(t, token, i);
    }
    hide QuoteEnd, DelimiterAt, FirstOccurrence, PrefixLength, IsToken, OccursAt;
  }

  lemma TokenNotEmpty(token: Option<string>)
    requires IsToken(token) && token.Some?
    ensures token.value != ""
  {
  }

  /** A delimiter starts and ends with a dollar sign. */
  lemma DelimiterEnds(d: string)
    requires IsDelimiter(d)
    ensures |d| >= 2 && d[0] == '$' && d[|d| - 1] == '$'
  {
    assert DelimiterFrom(d, 0) == Some(d);
  }

  /** Behind a quoted literal comes no quote of its kind. */
  lemma NextStart(t: string, token: Option<string>, bs: bool, end: nat, l: Literal, next: Statement, depth: nat, stop: nat)
    requires Part(t, end, Render(next)) && stop == end + |Render(next)| && Apart(l, next)
    requires WellFormed(next, LastOf(l), depth, bs, token)
    requires EndsStatement(t, stop, FinalDepth(next, LastOf(l), depth, bs, token), token)
    requires IsToken(token) && (l.Quoted? ==> IsQuote(l.quote) && token != Some([l.quote]))
    ensures end < |t| && l.Quoted? ==> t[end] != l.quote
  {
    if next.text != [] {
      PartAt(t, end, Render(next));
      assert t[end + 0] == Render(next)[0] == next.text[0];
    } else if next.rest != [] {
      var m := next.rest[0].0;
      if m.Dollar? {
        DollarCloses(m.raw, m.delim);
      }
      StartOf(t, end, next);
    } else if end < |t| {
      TokenStart(t, token, end);
    }
  }

  lemma StartOf(t: string, end: nat, next: Statement)
    requires Part(t, end, Render(next)) && next.text == [] && next.rest != []
    requires next.rest[0].0.Dollar? ==> IsDelimiter(next.rest[0].0.delim)
    ensures end < |t| && t[end] == if next.rest[0].0.Quoted? then next.rest[0].0.quote else '$'
  {
    var l := next.rest[0].0;
    if l.Dollar? {
      DelimiterEnds(l.delim);
    }
    assert Written(l) != [] && Written(l)[0] == if l.Quoted? then l.quote else '$';
    var all := Render(next);
    assert all[0] == Written(l)[0];
    PartAt(t, end, all);
    assert t[end + 0] == all[0];
  }

  /** The statement stands in a text that ends it. */
  ghost predicate InContext(s: Statement, before: string, after: string, bs: bool, token: Option<string>) {
    && IsToken(token) && WellFormed(s, [], 0, bs, token)
    && EndsStatement(before + Render(s) + after, |before + Render(s)|, FinalDepth(s, [], 0, bs, token), token)
  }

  /** The masked body the scanner reads behind `before`. */
  function BodyOf(s: Statement, before: string, after: string, bs: bool, token: Option<string>): string {
    Mask(before + Render(s) + after, |before|, token, bs, |before|, |before|, 0)
  }

  lemma BodyIsMasked(s: Statement, before: string, after: string, bs: bool, token: Option<string>)
    requires InContext(s, before, after, bs, token)
    ensures BodyOf(s, before, after, bs, token) == Masked(s, [])
  {
    var t := before + Render(s) + after;
    assert [] + Render(s) == Render(s);
    assert Part(t, |before|, Render(s));
    hide Mask, WellFormed, EndsStatement, Part;
    MaskStatementAt(t, |before|, token, bs, |before|, [], |before|, s, 0, |before + Render(s)|);
  }

  /** Two statements with the same skeleton, wherever they stand, get the same verdict. */
  lemma LiteralsDoNotMatter(a: Statement, beforeA: string, afterA: string,
                            b: Statement, beforeB: string, afterB: string,
                            bs: bool, token: Option<string>, empty: string -> bool)
    requires SameSkeleton(a, b)
    requires InContext(a, beforeA, afterA, bs, token) && InContext(b, beforeB, afterB, bs, token)
    ensures HasWhere(BodyOf(a, beforeA, afterA, bs, token), empty)
         == HasWhere(BodyOf(b, beforeB, afterB, bs, token), empty)
  {
    hide HasWhere, BodyOf, InContext;
    BodyIsMasked(a, beforeA, afterA, bs, token);
    BodyIsMasked(b, beforeB, afterB, bs, token);
    MaskedBySkeleton(a, b, []);
  }
}
