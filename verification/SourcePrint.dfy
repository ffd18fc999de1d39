/** Masking a source text that is put together from code, comments, strings and templates. */
module SourcePrint {
  import opened JavaScriptText
  import opened SourceMask
  import opened SqlLexis
  import opened TemplatePrint
  import opened Templates
  import opened TextParts
  import opened Wrappers

  // ----- where a string may start -----

  /** Operators, opening brackets, braces and separators. */
  predicate IsOpener(c: char) { c in "([{}" + "<>=!" + "+-*/%" + "&|^~" + ",;:?" }

  predicate IsKeyword(w: string) {
    || w == "return" || w == "throw" || w == "case" || w == "else"
    || w == "typeof" || w == "void" || w == "delete" || w == "in" || w == "of"
    || w == "await" || w == "yield"
  }

  ghost predicate AreBlanks(g: string) { forall c | c in g :: IsSpace(c) }

  /** The text ends in a keyword that is not part of a longer name. */
  ghost predicate EndsInKeyword(front: string) {
    exists f, w :: front == f + w && IsKeyword(w) && (f != "" ==> !IsNameChar(f[|f| - 1]))
  }

  /** Behind blanks there is nothing, an opener or a keyword. */
  ghost predicate MayStart(m: string) {
    exists front, blanks :: m == front + blanks && AreBlanks(blanks)
                            && (front == "" || IsOpener(front[|front| - 1]) || EndsInKeyword(front))
  }

  lemma {:induction false} LastFound(m: string)
    ensures var p := LastNonSpace(m);
            if p.None? then AreBlanks(m)
            else p.value < |m| && !IsSpace(m[p.value]) && AreBlanks(m[p.value + 1..])
    decreases |m|
  {
    if m != "" && IsSpace(m[|m| - 1]) {
      var n := |m| - 1;
      LastFound(m[..n]);
      var p := LastNonSpace(m[..n]);
      if p.Some? {
        assert m[p.value + 1..] == m[..n][p.value + 1..] + [m[n]];
      } else {
        assert m == m[..n] + [m[n]];
      }
    } else if m != "" {
      assert m[|m|..] == "";
    }
  }

  lemma {:induction false} NameFound(m: string, w: nat)
    requires w <= |m|
    ensures var s := NameStart(m, w);
            s <= w && (s > 0 ==> !IsNameChar(m[s - 1])) && forall k :: s <= k < w ==> IsNameChar(m[k])
    decreases w
  {
    if w > 0 && IsNameChar(m[w - 1]) {
      NameFound(m, w - 1);
    }
  }

  lemma KeywordListed(w: string)
    ensures w in PRECEDING_WORDS <==> IsKeyword(w)
  {
    var ws := PRECEDING_WORDS;
    assert ws[0] == "return" && ws[1] == "typeof" && ws[2] == "case" && ws[3] == "in" && ws[4] == "of";
    assert ws[5] == "void" && ws[6] == "yield" && ws[7] == "await" && ws[8] == "delete" && ws[9] == "else";
    assert ws[10] == "throw";
  }

  lemma KeywordLetters(w: string)
    requires IsKeyword(w)
    ensures w != "" && forall k :: 0 <= k < |w| ==> 'a' <= w[k] <= 'z'
  {
  }

  lemma LetterKind(c: char)
    requires 'a' <= c <= 'z'
    ensures IsNameChar(c) && !IsSpace(c) && !IsOpener(c)
  {
  }

  lemma OpenerListed(c: char)
    ensures c in PRECEDING_CHARS <==> IsOpener(c)
  {
  }

  lemma OpenerKind(c: char)
    requires IsOpener(c)
    ensures !IsSpace(c) && !IsNameChar(c)
  {
  }

  /** The decision, seen from the last character that is no blank. */
  lemma DecidedAt(m: string, p: nat)
    requires LastNonSpace(m) == Some(p) && p < |m|
    ensures CanStartString(m) <==>
            || m[p] in PRECEDING_CHARS
            || (IsNameChar(m[p]) && var s := NameStart(m, p); s <= p && m[s..p + 1] in PRECEDING_WORDS)
  {
    hide LastNonSpace, IsNameChar, NameStart, PRECEDING_CHARS, PRECEDING_WORDS;
  }

  lemma {:induction false} LastIs(front: string, blanks: string)
    requires AreBlanks(blanks) && (front != "" ==> !IsSpace(front[|front| - 1]))
    ensures LastNonSpace(front + blanks) == if front == "" then None else Some(|front| - 1)
    decreases |blanks|
  {
    var m := front + blanks;
    if blanks == "" {
      assert m == front;
    } else {
      var n := |blanks| - 1;
      assert blanks[n] in blanks && m[|m| - 1] == blanks[n] && m[..|m| - 1] == front + blanks[..n];
      LastIs(front, blanks[..n]);
    }
  }

  /** A string may start exactly there. */
  lemma StringMayStart(m: string)
    ensures CanStartString(m) <==> MayStart(m)
  {
    if CanStartString(m) {
      StartsThere(m);
    }
    if front, blanks :| m == front + blanks && AreBlanks(blanks)
                        && (front == "" || IsOpener(front[|front| - 1]) || EndsInKeyword(front)) {
      ThereStarts(m, front, blanks);
    }
  }

  lemma StartsThere(m: string)
    requires CanStartString(m)
    ensures MayStart(m)
  {
    hide *;
    LastFound(m);
    var p := LastNonSpace(m);
    if p.None? {
      assert m == "" + m;
      MayStartAt(m, "", m);
    } else {
      var n := p.value + 1;
      DecidedAt(m, p.value);
      var front, blanks := m[..n], m[n..];
      assert m == front + blanks && front[|front| - 1] == m[p.value];
      OpenerListed(m[p.value]);
      if m[p.value] !in PRECEDING_CHARS {
        NameFound(m, p.value);
        var s := NameStart(m, p.value);
        KeywordListed(m[s..n]);
        KeywordEnds(m, front, s, n);
      }
      MayStartAt(m, front, blanks);
    }
  }

  lemma MayStartAt(m: string, front: string, blanks: string)
    requires m == front + blanks && AreBlanks(blanks)
    requires front == "" || IsOpener(front[|front| - 1]) || EndsInKeyword(front)
    ensures MayStart(m)
  {
    hide IsOpener, EndsInKeyword, AreBlanks;
  }

  lemma KeywordEnds(m: string, front: string, s: nat, n: nat)
    requires s <= n <= |m| && front == m[..n] && IsKeyword(m[s..n]) && (s > 0 ==> !IsNameChar(m[s - 1]))
    ensures EndsInKeyword(front)
  {
    hide IsKeyword, IsNameChar;
    assert front == m[..s] + m[s..n];
  }

  lemma ThereStarts(m: string, front: string, blanks: string)
    requires m == front + blanks && AreBlanks(blanks)
    requires front == "" || IsOpener(front[|front| - 1]) || EndsInKeyword(front)
    ensures CanStartString(m)
  {
    if front == "" {
      LastIs(front, blanks);
    } else if IsOpener(front[|front| - 1]) {
      hide *;
      OpenerKind(front[|front| - 1]);
      OpenerListed(front[|front| - 1]);
      LastIs(front, blanks);
      DecidedAt(m, |front| - 1);
    } else {
      var f, w :| front == f + w && IsKeyword(w) && (f != "" ==> !IsNameChar(f[|f| - 1]));
      hide *;
      KeywordStarts(m, f, w, blanks);
    }
  }

  lemma KeywordStarts(m: string, f: string, w: string, blanks: string)
    requires m == f + w + blanks && AreBlanks(blanks) && IsKeyword(w) && (f != "" ==> !IsNameChar(f[|f| - 1]))
    ensures CanStartString(m)
  {
    hide *;
    var n := |f + w|;
    KeywordLetters(w);
    assert (f + w)[n - 1] == w[|w| - 1] == m[n - 1];
    LetterKind(w[|w| - 1]);
    LastIs(f + w, blanks);
    DecidedAt(m, n - 1);
    NameStartIs(m, f, w, blanks);
    KeywordListed(w);
  }

  lemma NameStartIs(m: string, f: string, w: string, blanks: string)
    requires m == f + w + blanks && w != "" && forall k :: 0 <= k < |w| ==> 'a' <= w[k] <= 'z'
    requires f != "" ==> !IsNameChar(f[|f| - 1])
    ensures NameStart(m, |f + w| - 1) == |f| && m[|f|..|f + w|] == w
  {
    forall k | |f| <= k < |f + w|
      ensures m[k] == w[k - |f|] && IsNameChar(m[k])
    {
      LetterKind(w[k - |f|]);
    }
    hide IsNameChar;
    NameFound(m, |f + w| - 1);
    var s := NameStart(m, |f + w| - 1);
    assert f != "" ==> m[|f| - 1] == f[|f| - 1];
    assert s == |f|;
  }

  // ----- what is written -----

  /** One character of a string: as it is, or behind a backslash. */
  datatype Sign = Plain(c: char) | Escaped(c: char)

  datatype Item =
    | Code(code: string)
    | Block(x: string)
    | Line(x: string)
    | Text(quote: char, signs: seq<Sign>)
    | Backticks(template: Template)

  function Inside(signs: seq<Sign>): string {
    if signs == [] then ""
    else (match signs[0] case Plain(c) => [c] case Escaped(c) => ['\\', c]) + Inside(signs[1..])
  }

  function Written(item: Item): string {
    match item
    case Code(code) => code
    case Block(x) => "/*" + x + "*/"
    case Line(x) => "//" + x
    case Text(q, signs) => [q] + Inside(signs) + [q]
    case Backticks(t) => Print(t)
  }

  function WrittenAll(items: seq<Item>): string {
    if items == [] then "" else Written(items[0]) + WrittenAll(items[1..])
  }

  /** Every character but line breaks becomes `fill`. */
  function Filled(x: string, fill: char): (r: string)
    ensures |r| == |x| && forall k :: 0 <= k < |x| ==> r[k] == if x[k] == '\n' then '\n' else fill
  {
    seq(|x|, k requires 0 <= k < |x| => if x[k] == '\n' then '\n' else fill)
  }

  /** Code stays, comments are blanked and the insides of strings and templates filled. */
  function MaskOf(item: Item): (r: string)
    ensures |r| == |Written(item)|
  {
    var w := Written(item);
    match item
    case Code(_) => w
    case Block(_) => Filled(w, ' ')
    case Line(_) => Filled(w, ' ')
    case _ =>
      if |w| < 2 then w else [w[0]] + Filled(w[1..|w| - 1], '_') + [w[|w| - 1]]
  }

  function MaskOfAll(items: seq<Item>): string {
    if items == [] then "" else MaskOf(items[0]) + MaskOfAll(items[1..])
  }

  // ----- which texts are meant -----

  /** No token begins in the code when r follows. */
  predicate PlainCode(code: string, r: string) {
    forall k :: 0 <= k < |code| ==>
      && code[k] != '\'' && code[k] != '"' && code[k] != '`'
      && (code[k] == '/' && k + 1 < |code + r| ==> (code + r)[k + 1] != '/' && (code + r)[k + 1] != '*')
  }

  /** No line break, and quotes and backslashes only behind a backslash. */
  ghost predicate Spelled(signs: seq<Sign>, q: char) {
    forall s | s in signs ::
      if s.Escaped? then !IsLineBreak(s.c) else s.c != q && s.c != '\\' && s.c != '\n'
  }

  /** The item, with r behind it, when `masked` is the mask of what stands before. */
  ghost predicate StandsBetween(masked: string, item: Item, r: string) {
    match item
    case Code(code) => PlainCode(code, r)
    case Block(x) => forall k: nat :: k < |x| ==> !OccursAt(x + "*/", "*/", k)
    case Line(x) => '\n' !in x && (r != "" ==> r[0] == '\n')
    case Text(q, signs) => IsQuote(q) && Spelled(signs, q) && MayStart(masked)
    case Backticks(t) => WellFormed(t)
  }

  ghost predicate WellWritten(masked: string, items: seq<Item>)
    decreases |items|
  {
    items != [] ==>
      StandsBetween(masked, items[0], WrittenAll(items[1..])) && WellWritten(masked + MaskOf(items[0]), items[1..])
  }

  // ----- the pattern finds the tokens -----

  lemma {:induction false} TextEnds(c: string, j: nat, q: char, signs: seq<Sign>, e: nat)
    requires e <= |c| && e == j + |Inside(signs)| + 1 && c[j..e] == Inside(signs) + [q]
    requires Spelled(signs, q) && IsQuote(q)
    ensures StringEnd(c, j, q) == Some(e)
    decreases |signs|
  {
    if signs == [] {
      assert c[j] == c[j..e][0];
    } else {
      var first := match signs[0] case Plain(x) => [x] case Escaped(x) => ['\\', x];
      var n := j + |first|;
      assert signs[0] in signs;
      assert c[j..e] == first + (Inside(signs[1..]) + [q]);
      assert c[j] == c[j..e][0] == first[0] && (|first| == 2 ==> c[j + 1] == c[j..e][1] == first[1]);
      assert c[n..e] == c[j..e][|first|..] == Inside(signs[1..]) + [q];
      TextEnds(c, n, q, signs[1..], e);
    }
  }

  /** And what the pattern takes for a string is written so. */
  lemma {:induction false} TextRead(c: string, j: nat, q: char) returns (signs: seq<Sign>)
    requires StringEnd(c, j, q).Some? && IsQuote(q)
    ensures var e := StringEnd(c, j, q).value; j < e <= |c| && c[j..e] == Inside(signs) + [q] && Spelled(signs, q)
    decreases |c| - j
  {
    if c[j] == q {
      signs := [];
      assert c[j..j + 1] == [q];
    } else {
      var e := StringEnd(c, j, q).value;
      var sign := if c[j] == '\\' then Escaped(c[j + 1]) else Plain(c[j]);
      var n := if c[j] == '\\' then j + 2 else j + 1;
      var rest := TextRead(c, n, q);
      signs := [sign] + rest;
      assert signs[1..] == rest;
      SliceParts(c, j, n, e);
      assert c[j..n] == if c[j] == '\\' then ['\\', c[j + 1]] else [c[j]];
      TextJoined(c, j, n, e, sign, rest, q);
    }
  }

  lemma SliceParts(c: string, j: nat, n: nat, e: nat)
    requires j <= n <= e <= |c|
    ensures c[j..e] == c[j..n] + c[n..e]
  {
  }

  lemma TextJoined(c: string, j: nat, n: nat, e: nat, sign: Sign, rest: seq<Sign>, q: char)
    requires j <= n <= e <= |c| && c[j..e] == c[j..n] + c[n..e] && c[n..e] == Inside(rest) + [q]
    requires c[j..n] == match sign case Plain(x) => [x] case Escaped(x) => ['\\', x]
    ensures c[j..e] == Inside([sign] + rest) + [q]
  {
    var all := [sign] + rest;
    assert all[0] == sign && all[1..] == rest;
  }

  /** A string of the source ends at e exactly when what stands up to there is written as one. */
  lemma TextEndExact(c: string, j: nat, q: char, e: nat)
    requires IsQuote(q)
    ensures StringEnd(c, j, q) == Some(e) <==>
            j < e <= |c| && exists signs :: Spelled(signs, q) && c[j..e] == Inside(signs) + [q]
  {
    if StringEnd(c, j, q) == Some(e) {
      var signs := TextRead(c, j, q);
    }
    if j < e <= |c| {
      if signs :| Spelled(signs, q) && c[j..e] == Inside(signs) + [q] {
        assert |c[j..e]| == |Inside(signs)| + 1;
        TextEnds(c, j, q, signs, e);
      }
    }
  }

  /** The item is a token of the text, up to e. */
  lemma TokenFound(c: string, p: nat, e: nat, masked: string, item: Item, r: string)
    requires StandsBetween(masked, item, r) && !item.Code?
    requires p + |Written(item)| == e <= |c| && c[p..e] == Written(item) && c[e..] == r
    ensures p < e && TokenEnd(c, p).Some? && c[p] == Written(item)[0]
    ensures if c[p] == '`' then TemplateEnd(c, p) == Some(e) else TokenEnd(c, p) == Some(e)
    ensures c[p] == '/' <==> item.Block? || item.Line?
    ensures IsQuote(c[p]) <==> item.Text?
  {
    hide OccursAt, WellFormed, Spelled, MayStart, StringEnd, FirstOccurrence, LineStop;
    match item
    case Block(x) => BlockFound(c, p, e, x);
    case Line(x) => LineFound(c, p, e, x, r);
    case Text(q, signs) => TextFound(c, p, e, q, signs);
    case Backticks(t) => TemplateFound(c, p, e, t);
  }

  lemma TextFound(c: string, p: nat, e: nat, q: char, signs: seq<Sign>)
    requires IsQuote(q) && Spelled(signs, q) && e <= |c| && e == p + |Inside(signs)| + 2
    requires c[p..e] == [q] + Inside(signs) + [q]
    ensures c[p] == q && TokenEnd(c, p) == Some(e)
  {
    var w := [q] + Inside(signs) + [q];
    assert c[p] == c[p..e][0] == w[0];
    assert c[p + 1..e] == c[p..e][1..] == w[1..] == Inside(signs) + [q];
    TextEnds(c, p + 1, q, signs, e);
    hide StringEnd;
  }

  lemma TemplateFound(c: string, p: nat, e: nat, t: Template)
    requires WellFormed(t) && e <= |c| && e == p + |Print(t)| && c[p..e] == Print(t)
    ensures p < e && c[p] == '`' && TokenEnd(c, p).Some? && TemplateEnd(c, p) == Some(e)
  {
    assert Print(t)[0] == '`';
    assert c[p] == c[p..e][0];
    hide Print, WellFormed, TemplateEnd;
    assert c == c[..p] + Print(t) + c[e..];
    PrintedTemplateEnds(c[..p], t, c[e..]);
  }

  lemma LineFound(c: string, p: nat, e: nat, x: string, r: string)
    requires e == p + 2 + |x| <= |c| && c[p..e] == "//" + x && c[e..] == r && '\n' !in x && (r != "" ==> r[0] == '\n')
    ensures c[p] == '/' && TokenEnd(c, p) == Some(e)
  {
    var w := "//" + x;
    assert c[p] == w[0] && c[p + 1] == w[1];
    forall k | p + 2 <= k < e
      ensures c[k] != '\n'
    {
      assert c[k] == w[k - p] == x[k - p - 2];
    }
    assert e < |c| ==> c[e] == r[0];
    LineStopFirst(c, p + 2);
  }

  lemma BlockFound(c: string, p: nat, e: nat, x: string)
    requires e == p + 4 + |x| <= |c| && c[p..e] == "/*" + x + "*/"
    requires forall k: nat :: k < |x| ==> !OccursAt(x + "*/", "*/", k)
    ensures c[p] == '/' && TokenEnd(c, p) == Some(e)
  {
    var u, w, n := x + "*/", "/*" + x + "*/", p + 2;
    assert w == "/*" + u;
    assert c[p] == w[0] && c[p + 1] == w[1];
    assert Part(c, n, u) by {
      forall k | 0 <= k < |u|
        ensures c[n + k] == u[k]
      {
        assert c[n + k] == w[k + 2];
      }
    }
    hide OccursAt, Part, FirstOccurrence;
    forall k | n <= k < n + |x|
      ensures !OccursAt(c, "*/", k)
    {
      OccursMoved(c, n, u, "*/", k - n);
    }
    OccursMoved(c, n, u, "*/", |x|);
    assert OccursAt(u, "*/", |x|) by { MarkAtEnd(x); }
    FirstIs(c, "*/", n, |c|, n + |x|);
  }

  lemma MarkAtEnd(x: string)
    ensures OccursAt(x + "*/", "*/", |x|)
  {
  }

  // ----- the mask -----

  /** No token runs over p. */
  ghost predicate Between(regions: seq<Region>, p: nat) {
    forall j :: 0 <= j < |regions| && regions[j].start < p ==> regions[j].end <= p
  }

  lemma CodeKept(c: string, masked: string, regions: seq<Region>, p: nat, q: nat, code: string, r: string)
    requires IsMask(c, masked, regions) && |masked| == |c| && Between(regions, p) && PlainCode(code, r)
    requires q == p + |code| <= |c| && c[p..q] == code && c[q..] == r
    ensures masked[p..q] == code && Between(regions, q)
    ensures forall j :: 0 <= j < |regions| ==> !(p <= regions[j].start < q)
  {
    forall j | 0 <= j < |regions|
      ensures !(p <= regions[j].start < q)
    {
      assert IsToken(c, regions[j]);
      if p <= regions[j].start < q {
        CodeHasNone(c, p, q, code, r, regions[j].start);
      }
    }
    hide IsToken, TokenEnd, LeftAlone, CanStartString, Masking;
    forall k | p <= k < q
      ensures masked[k] == code[k - p]
    {
      assert !Covers(regions, k);
      assert c[p..q][k - p] == c[k];
    }
  }

  lemma CodeHasNone(c: string, p: nat, q: nat, code: string, r: string, k: nat)
    requires PlainCode(code, r) && q == p + |code| <= |c| && c[p..q] == code && c[q..] == r && p <= k < q
    ensures c[k] != '`' && !IsQuote(c[k]) && (c[k] == '/' ==> TokenEnd(c, k).None?)
  {
    var u := code + r;
    assert c[k] == c[p..q][k - p] == code[k - p];
    assert k + 1 < |c| ==> c[k + 1] == u[k + 1 - p] by {
      assert k + 1 < q ==> c[k + 1] == c[p..q][k + 1 - p];
      assert k + 1 == q < |c| ==> c[q] == c[q..][0];
    }
  }

  /** A token that may start is one of the regions. */
  lemma TokenTaken(c: string, masked: string, regions: seq<Region>, p: nat, e: nat, item: Item, r: string)
    returns (j: nat)
    requires IsMask(c, masked, regions) && |masked| == |c| && Between(regions, p) && p <= |c|
    requires StandsBetween(masked[..p], item, r) && !item.Code?
    requires p + |Written(item)| == e <= |c| && c[p..e] == Written(item) && c[e..] == r
    ensures j < |regions| && regions[j] == Region(p, e, item.Text? || item.Backticks?)
  {
    TokenFound(c, p, e, masked[..p], item, r);
    StringMayStart(masked[..p]);
    assert Covers(regions, p) by {
      hide TokenEnd, CanStartString, MayStart, IsToken, Masking;
    }
    j :| 0 <= j < |regions| && regions[j].start <= p < regions[j].end;
    assert IsToken(c, regions[j]);
  }

  lemma TokenMasked(c: string, masked: string, regions: seq<Region>, p: nat, e: nat, item: Item, j: nat)
    requires IsMask(c, masked, regions) && |masked| == |c| && !item.Code?
    requires p + |Written(item)| == e <= |c| && c[p..e] == Written(item) && p < e
    requires j < |regions| && regions[j] == Region(p, e, item.Text? || item.Backticks?)
    ensures masked[p..e] == MaskOf(item) && Between(regions, e)
    ensures forall i :: 0 <= i < |regions| && p <= regions[i].start < e ==> i == j
  {
    hide *;
    RegionOf(c, masked, regions, j, p, e);
    RegionAlone(c, masked, regions, j, p, e);
    forall k | p <= k < e
      ensures masked[k] == MaskOf(item)[k - p]
    {
      MaskedAt(c, masked, regions, j, k);
      MaskAt(c, p, e, item, k);
    }
    SameChars(masked, p, e, MaskOf(item));
  }

  lemma RegionOf(c: string, masked: string, regions: seq<Region>, j: nat, p: nat, e: nat)
    requires IsMask(c, masked, regions) && j < |regions| && regions[j].start == p && regions[j].end == e
    ensures AreRegions(c, masked, regions)
    ensures regions[j].isString ==> p + 1 < e <= |c| && c[p] == c[e - 1] != '\n'
  {
    assert AreRegions(c, masked, regions) && IsToken(c, regions[j]) by { hide TokenEnd, TemplateEnd, CanStartString; }
    hide *;
    TokenQuotes(c, regions[j]);
  }

  lemma MaskedAt(c: string, masked: string, regions: seq<Region>, j: nat, k: nat)
    requires IsMask(c, masked, regions) && j < |regions| && regions[j].start <= k < regions[j].end
    ensures k < |masked| <= |c| && regions[j].end <= |c| && masked[k] == Masking(c, regions[j], k)
  {
    hide IsToken, Masking, CanStartString, KeepsOutside;
  }

  lemma SameChars(t: string, p: nat, e: nat, m: string)
    requires p <= e <= |t| && |m| == e - p && forall k :: p <= k < e ==> t[k] == m[k - p]
    ensures t[p..e] == m
  {
  }

  lemma RegionAlone(c: string, masked: string, regions: seq<Region>, j: nat, p: nat, e: nat)
    requires AreRegions(c, masked, regions) && j < |regions| && regions[j].start == p && regions[j].end == e
    ensures Between(regions, e)
    ensures forall i :: 0 <= i < |regions| && p <= regions[i].start < e ==> i == j
  {
    hide CanStartString, TokenEnd, TemplateEnd;
    forall i | 0 <= i < |regions|
      ensures regions[i].start < regions[i].end
    {
      assert IsToken(c, regions[i]);
    }
    hide IsToken;
  }

  lemma MaskAt(c: string, p: nat, e: nat, item: Item, k: nat)
    requires !item.Code? && p + |Written(item)| == e <= |c| && c[p..e] == Written(item) && p <= k < e
    requires item.Text? || item.Backticks? ==> p + 1 < e && c[p] == c[e - 1] != '\n'
    ensures MaskOf(item)[k - p] == Masking(c, Region(p, e, item.Text? || item.Backticks?), k)
  {
    hide *;
    var w := Written(item);
    CharsOf(c, p, e, w, k);
    if item.Text? || item.Backticks? {
      CharsOf(c, p, e, w, p);
      CharsOf(c, p, e, w, e - 1);
      StringMaskAt(item, w, k - p);
      MaskingIs(c, Region(p, e, true), k);
    } else {
      CommentMaskAt(item, w, k - p);
      MaskingIs(c, Region(p, e, false), k);
    }
  }

  lemma CharsOf(c: string, p: nat, e: nat, w: string, k: nat)
    requires p <= k < e <= |c| && c[p..e] == w
    ensures |w| == e - p && c[k] == w[k - p]
  {
  }

  lemma MaskingIs(c: string, r: Region, k: nat)
    requires r.start <= k < r.end <= |c|
    ensures Masking(c, r, k)
         == if r.isString && (k == r.start || k == r.end - 1) then c[r.start]
            else if c[k] == '\n' then '\n' else if r.isString then '_' else ' '
  {
  }

  lemma StringMaskAt(item: Item, w: string, k: nat)
    requires (item.Text? || item.Backticks?) && w == Written(item) && |w| >= 2 && k < |w|
    ensures MaskOf(item)[k]
         == if k == 0 || k == |w| - 1 then w[k] else if w[k] == '\n' then '\n' else '_'
  {
    hide Written;
    assert MaskOf(item) == [w[0]] + Filled(w[1..|w| - 1], '_') + [w[|w| - 1]];
  }

  lemma CommentMaskAt(item: Item, w: string, k: nat)
    requires (item.Block? || item.Line?) && w == Written(item) && k < |w|
    ensures MaskOf(item)[k] == if w[k] == '\n' then '\n' else ' '
  {
    hide Written;
  }

  lemma WrittenParts(c: string, p: nat, items: seq<Item>)
    requires items != [] && p <= |c| && c[p..] == WrittenAll(items)
    ensures var e := p + |Written(items[0])|;
            e <= |c| && c[p..e] == Written(items[0]) && c[e..] == WrittenAll(items[1..])
  {
    hide Written;
    SplitAt(c, p, Written(items[0]), WrittenAll(items[1..]));
  }

  lemma SplitAt(c: string, p: nat, x: string, y: string)
    requires p <= |c| && c[p..] == x + y
    ensures p + |x| <= |c| && c[p..p + |x|] == x && c[p + |x|..] == y
  {
    assert c[p..p + |x|] == c[p..][..|x|];
    assert c[p + |x|..] == c[p..][|x|..];
  }

  lemma SuffixSplit(m: string, p: nat, e: nat)
    requires p <= e <= |m|
    ensures m[p..] == m[p..e] + m[e..] && m[..e] == m[..p] + m[p..e]
  {
  }

  /** The first item is masked as it should be, and what the regions say of it. */
  lemma ItemMasked(c: string, masked: string, regions: seq<Region>, p: nat, e: nat, item: Item, r: string)
    requires IsMask(c, masked, regions) && |masked| == |c| && Between(regions, p) && p <= |c|
    requires StandsBetween(masked[..p], item, r)
    requires p + |Written(item)| == e <= |c| && c[p..e] == Written(item) && c[e..] == r
    ensures masked[p..e] == MaskOf(item) && Between(regions, e)
    ensures Recorded(c, regions, p, e, item)
  {
    if item.Code? {
      CodeKept(c, masked, regions, p, e, item.code, r);
    } else {
      var j := TokenTaken(c, masked, regions, p, e, item, r);
      TokenFound(c, p, e, masked[..p], item, r);
      TokenMasked(c, masked, regions, p, e, item, j);
    }
  }

  /** The regions that start in the item are it, if it is a token. */
  ghost predicate Recorded(c: string, regions: seq<Region>, p: nat, e: nat, item: Item) {
    && (forall j :: 0 <= j < |regions| && p <= regions[j].start < e ==>
          !item.Code? && regions[j] == Region(p, e, item.Text? || item.Backticks?))
    && (!item.Code? ==> exists j :: 0 <= j < |regions| && regions[j] == Region(p, e, item.Text? || item.Backticks?))
  }

  lemma FirstMasked(c: string, masked: string, regions: seq<Region>, p: nat, items: seq<Item>) returns (e: nat)
    requires IsMask(c, masked, regions) && |masked| == |c| && Between(regions, p) && p <= |c| && items != []
    requires c[p..] == WrittenAll(items) && WellWritten(masked[..p], items)
    ensures e == p + |Written(items[0])| <= |c| && c[p..e] == Written(items[0]) && c[e..] == WrittenAll(items[1..])
    ensures masked[p..e] == MaskOf(items[0]) && Between(regions, e) && Recorded(c, regions, p, e, items[0])
    ensures WellWritten(masked[..e], items[1..])
  {
    hide IsMask, Between, Recorded, MaskOf, Written, StandsBetween;
    e := p + |Written(items[0])|;
    WrittenParts(c, p, items);
    ItemMasked(c, masked, regions, p, e, items[0], WrittenAll(items[1..]));
    SuffixSplit(masked, p, e);
  }

  lemma {:induction false} AllMasked(c: string, masked: string, regions: seq<Region>, p: nat, items: seq<Item>)
    requires IsMask(c, masked, regions) && |masked| == |c| && Between(regions, p) && p <= |c|
    requires c[p..] == WrittenAll(items) && WellWritten(masked[..p], items)
    ensures masked[p..] == MaskOfAll(items)
    decreases |items|
  {
    if items != [] {
      var e := FirstMasked(c, masked, regions, p, items);
      hide IsMask, Between, Recorded, MaskOf, Written, WellWritten, WrittenAll;
      SuffixSplit(masked, p, e);
      AllMasked(c, masked, regions, e, items[1..]);
    } else {
      assert c[p..] == "" && masked[p..] == "";
    }
  }

  /** Of a source text put together from code, comments, strings and templates there is only one mask: code
      stays, comments are blanked, and the insides of strings and templates are filled. */
  lemma SourceMasked(items: seq<Item>, masked: string, regions: seq<Region>)
    requires WellWritten("", items)
    requires IsMask(WrittenAll(items), masked, regions) && |masked| == |WrittenAll(items)|
    ensures masked == MaskOfAll(items)
  {
    var c := WrittenAll(items);
    assert c[0..] == c && masked[0..] == masked && masked[..0] == "";
    AllMasked(c, masked, regions, 0, items);
  }

  // ----- the recorded strings -----

  /** The strings and templates of the text, when it begins at p. */
  function StringsOf(items: seq<Item>, p: nat): seq<StringLiteral> {
    if items == [] then []
    else
      var w := Written(items[0]);
      (if (items[0].Text? || items[0].Backticks?) && |w| >= 2
       then [StringLiteral(p, p + |w|, w[1..|w| - 1], w[0])] else [])
      + StringsOf(items[1..], p + |w|)
  }

  /** The literal is that of a string region that starts at p or later. */
  ghost predicate Taken(c: string, regions: seq<Region>, p: nat, l: StringLiteral) {
    exists j :: 0 <= j < |regions| && IsLiteral(c, regions[j], p, l)
  }

  ghost predicate IsLiteral(c: string, r: Region, p: nat, l: StringLiteral) {
    r.isString && p <= r.start && r.start + 1 < r.end <= |c| && l == LiteralOf(c, r)
  }

  lemma InnerSlice(c: string, p: nat, e: nat, w: string)
    requires p <= e <= |c| && c[p..e] == w && |w| >= 2
    ensures c[p] == w[0] && c[p + 1..e - 1] == w[1..|w| - 1]
  {
    assert forall k :: p <= k < e ==> c[k] == w[k - p];
  }

  lemma TakenStep(c: string, regions: seq<Region>, p: nat, e: nat, item: Item, l: StringLiteral)
    requires p <= e <= |c| && e == p + |Written(item)| && c[p..e] == Written(item) && Recorded(c, regions, p, e, item)
    ensures Taken(c, regions, p, l) <==>
            || Taken(c, regions, e, l)
            || (var w := Written(item);
                (item.Text? || item.Backticks?) && |w| >= 2 && l == StringLiteral(p, e, w[1..|w| - 1], w[0]))
  {
    var w := Written(item);
    var r := Region(p, e, item.Text? || item.Backticks?);
    hide Written;
    if |w| >= 2 {
      InnerSlice(c, p, e, w);
    }
    assert IsLiteral(c, r, p, l) <==> r.isString && |w| >= 2 && l == StringLiteral(p, e, w[1..|w| - 1], w[0]);
    if j :| 0 <= j < |regions| && IsLiteral(c, regions[j], p, l) {
      assert regions[j].start < e ==> regions[j] == r;
      assert regions[j].start >= e ==> IsLiteral(c, regions[j], e, l);
    }
    if j :| 0 <= j < |regions| && IsLiteral(c, regions[j], e, l) {
      assert IsLiteral(c, regions[j], p, l);
    }
    if !item.Code? {
      var j :| 0 <= j < |regions| && regions[j] == r;
      assert IsLiteral(c, r, p, l) ==> IsLiteral(c, regions[j], p, l);
    }
  }

  lemma {:induction false} StringsTaken(c: string, masked: string, regions: seq<Region>, p: nat, items: seq<Item>,
                                        l: StringLiteral)
    requires IsMask(c, masked, regions) && |masked| == |c| && Between(regions, p) && p <= |c|
    requires c[p..] == WrittenAll(items) && WellWritten(masked[..p], items)
    ensures l in StringsOf(items, p) <==> Taken(c, regions, p, l)
    decreases |items|
  {
    hide *;
    if items == [] {
      NothingTaken(c, regions, p, items, l);
    } else {
      var e := FirstMasked(c, masked, regions, p, items);
      TakenStep(c, regions, p, e, items[0], l);
      StringsTaken(c, masked, regions, e, items[1..], l);
      StringsFirst(items, p, e, l);
    }
  }

  lemma NothingTaken(c: string, regions: seq<Region>, p: nat, items: seq<Item>, l: StringLiteral)
    requires p <= |c| && items == [] && c[p..] == WrittenAll(items)
    ensures l !in StringsOf(items, p) && !Taken(c, regions, p, l)
  {
    assert |c[p..]| == 0;
    hide LiteralOf;
    assert forall j :: 0 <= j < |regions| ==> !IsLiteral(c, regions[j], p, l);
  }

  lemma StringsFirst(items: seq<Item>, p: nat, e: nat, l: StringLiteral)
    requires items != [] && e == p + |Written(items[0])|
    ensures l in StringsOf(items, p) <==>
            || l in StringsOf(items[1..], e)
            || (var w := Written(items[0]);
                (items[0].Text? || items[0].Backticks?) && |w| >= 2 && l == StringLiteral(p, e, w[1..|w| - 1], w[0]))
  {
    hide Written;
  }

  lemma {:induction false} LiteralsTaken(c: string, regions: seq<Region>, l: StringLiteral)
    requires RegionsFit(c, regions)
    ensures l in Literals(c, regions) <==> Taken(c, regions, 0, l)
    decreases |regions|
  {
    if regions != [] {
      var front, last := regions[..|regions| - 1], regions[|regions| - 1];
      LiteralsTaken(c, front, l);
      assert regions == front + [last];
      hide LiteralOf;
      TakenLast(c, front, last, l);
    }
  }

  lemma TakenLast(c: string, front: seq<Region>, last: Region, l: StringLiteral)
    ensures Taken(c, front + [last], 0, l) <==> Taken(c, front, 0, l) || IsLiteral(c, last, 0, l)
  {
    var all := front + [last];
    hide IsLiteral;
    assert all[|front|] == last;
    if j :| 0 <= j < |front| && IsLiteral(c, front[j], 0, l) {
      assert all[j] == front[j];
    }
  }

  /** Recorded are exactly the strings and templates of the text, with what stands between their quotes. */
  lemma StringsRecorded(items: seq<Item>, masked: string, regions: seq<Region>, l: StringLiteral)
    requires WellWritten("", items)
    requires IsMask(WrittenAll(items), masked, regions) && |masked| == |WrittenAll(items)|
    ensures l in LiteralsOf(WrittenAll(items), masked, regions) <==> l in StringsOf(items, 0)
  {
    var c := WrittenAll(items);
    assert c[0..] == c && masked[..0] == "";
    StringsTaken(c, masked, regions, 0, items, l);
    StringsApart(c, masked, regions);
    LiteralsTaken(c, regions, l);
  }
}
