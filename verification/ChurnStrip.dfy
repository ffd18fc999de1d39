/** The comment remover of the migration churn check: it blanks comments and
    keeps every character where it was. */
module ChurnStrip {
  import opened JavaScriptText
  import opened Wrappers
  import opened SqlLexis
  import opened TextParts

  predicate IsTagStart(c: char) { AsciiLetter(c) || c == '_' }

  predicate IsTagChar(c: char) { IsTagStart(c) || '0' <= c <= '9' }

  function TagStop(t: string, j: nat): (r: nat)
    requires j <= |t|
    ensures j <= r <= |t| && (r < |t| ==> !IsTagChar(t[r])) && forall k :: j <= k < r ==> IsTagChar(t[k])
    decreases |t| - j
  {
    if j < |t| && IsTagChar(t[j]) then TagStop(t, j + 1) else j
  }

  /** Behind the delimiter $tag$ that starts at i. */
  function TagEnd(t: string, i: nat): (r: Option<nat>)
    requires i < |t|
    ensures r.Some? ==> i + 2 <= r.value <= |t| && t[i] == '$' == t[r.value - 1]
  {
    var r := TagStop(t, i + 1);
    if t[i] == '$' && r < |t| && t[r] == '$' && (r > i + 1 ==> IsTagStart(t[i + 1])) then Some(r + 1) else None
  }

  /** Behind the quote that closes a literal, reading from j; the end of the text without one. */
  function LiteralEnd(t: string, j: nat): (r: nat)
    requires j <= |t|
    ensures j <= r <= |t|
    decreases |t| - j
  {
    if j == |t| then j
    else if t[j] != '\'' then LiteralEnd(t, j + 1)
    else if j + 1 < |t| && t[j + 1] == '\'' then LiteralEnd(t, j + 2)
    else j + 1
  }

  /** Behind the mark that closes a block comment, reading from j; the end of the text without one. */
  function CommentStop(t: string, j: nat): (r: nat)
    requires j <= |t|
    ensures j <= r <= |t|
    decreases |t| - j
  {
    if j == |t| then j
    else if t[j] == '*' && j + 1 < |t| && t[j + 1] == '/' then j + 2
    else CommentStop(t, j + 1)
  }

  datatype Piece = Verbatim(end: nat) | Blank(end: nat)

  function PieceAt(t: string, i: nat): (p: Piece)
    requires i < |t|
    ensures i < p.end <= |t|
    ensures p.Blank? ==> t[i] != '\n'
  {
    var c := t[i];
    if c == '\'' then Verbatim(LiteralEnd(t, i + 1))
    else if c == '$' && TagEnd(t, i).Some? then
      var open := TagEnd(t, i).value;
      var close := FirstOccurrence(t, t[i..open], open, |t|);
      Verbatim(if close.Some? then close.value + (open - i) else |t|)
    else if c == '-' && i + 1 < |t| && t[i + 1] == '-' then Blank(LineStop(t, i + 1))
    else if c == '/' && i + 1 < |t| && t[i + 1] == '*' then Blank(CommentStop(t, i + 2))
    else Verbatim(i + 1)
  }

  function Blanks(t: string, i: nat, end: nat): (r: string)
    requires i <= end <= |t|
    ensures |r| == end - i && forall k :: 0 <= k < |r| ==> r[k] == if t[i + k] == '\n' then '\n' else ' '
  {
    seq(end - i, k requires 0 <= k < end - i => if t[i + k] == '\n' then '\n' else ' ')
  }

  /** The text from i on with its comments blanked. */
  function Strip(t: string, i: nat): (r: string)
    requires i <= |t|
    ensures |r| == |t| - i
    decreases |t| - i
  {
    if i == |t| then "" else Kept(t, i, PieceAt(t, i)) + Strip(t, PieceAt(t, i).end)
  }

  function Kept(t: string, i: nat, p: Piece): (r: string)
    requires i <= p.end <= |t|
    ensures |r| == p.end - i
  {
    if p.Verbatim? then t[i..p.end] else Blanks(t, i, p.end)
  }

  /** A character that starts nothing stays. */
  lemma StripOne(t: string, i: nat)
    requires i < |t| && PieceAt(t, i) == Verbatim(i + 1)
    ensures Strip(t, i) == [t[i]] + Strip(t, i + 1)
  {
    assert t[i..i + 1] == [t[i]];
  }

  /** What starts at i: a literal, a comment or a single character. */
  method NextPiece(t: string, i: nat) returns (p: Piece)
    requires i < |t|
    ensures p == PieceAt(t, i)
  {
    hide FirstOccurrence, TagEnd, LineStop, CommentStop, LiteralEnd;
    var ch := t[i];
    if ch == '\'' {
      var end := ReadLiteral(t, i);
      return Verbatim(end);
    }
    if ch == '$' && TagEnd(t, i).Some? {
      var open := TagEnd(t, i).value;
      var close := FirstOccurrence(t, t[i..open], open, |t|);
      return Verbatim(if close.Some? then close.value + (open - i) else |t|);
    }
    if ch == '-' && i + 1 < |t| && t[i + 1] == '-' {
      return Blank(LineStop(t, i + 1));
    }
    if ch == '/' && i + 1 < |t| && t[i + 1] == '*' {
      return Blank(CommentStop(t, i + 2));
    }
    return Verbatim(i + 1);
  }

  method StripSqlComments(t: string) returns (out: string)
    ensures out == Strip(t, 0)
  {
    hide PieceAt;
    var i := 0;
    out := "";
    while i < |t|
      invariant 0 <= i <= |t| && out + Strip(t, i) == Strip(t, 0)
      decreases |t| - i
    {
      var p := NextPiece(t, i);
      var kept := if p.Verbatim? then t[i..p.end] else Blanks(t, i, p.end);
      Regroup(out, kept, Strip(t, p.end));
      out := out + kept;
      i := p.end;
    }
  }

  lemma Regroup(a: string, b: string, c: string)
    ensures a + (b + c) == a + b + c
  {
  }

  method ReadLiteral(t: string, i: nat) returns (j: nat)
    requires i < |t|
    ensures j == LiteralEnd(t, i + 1)
  {
    j := i + 1;
    while j < |t|
      invariant i < j <= |t| && LiteralEnd(t, i + 1) == LiteralEnd(t, j)
      decreases |t| - j
    {
      if t[j] == '\'' {
        if j + 1 < |t| && t[j + 1] == '\'' {
          j := j + 2;
          continue;
        }
        return j + 1;
      }
      j := j + 1;
    }
  }

  // ----- lines -----

  function LineNumberFrom(t: string, index: nat): nat
    requires index <= |t|
  {
    if index == 0 then 1 else LineNumberFrom(t, index - 1) + (if t[index - 1] == '\n' then 1 else 0)
  }

  method LineNumberAt(t: string, index: nat) returns (line: nat)
    requires index <= |t|
    ensures line == LineNumberFrom(t, index)
  {
    line := 1;
    for i := 0 to index
      invariant line == LineNumberFrom(t, i)
    {
      if t[i] == '\n' {
        line := line + 1;
      }
    }
  }

  lemma {:induction false} StripKeepsLines(t: string, i: nat, k: nat)
    requires i <= k < |t|
    ensures Strip(t, i)[k - i] == '\n' <==> t[k] == '\n'
    ensures Strip(t, i)[k - i] == t[k] || Strip(t, i)[k - i] == ' '
    decreases |t| - i
  {
    var p := PieceAt(t, i);
    if k >= p.end {
      StripKeepsLines(t, p.end, k);
      assert Strip(t, i)[k - i] == Strip(t, p.end)[k - p.end];
    } else {
      assert Strip(t, i)[k - i] == Kept(t, i, p)[k - i];
    }
  }

  /** Stripped and original text agree on the line of every position. */
  lemma {:induction false} SameLine(t: string, index: nat)
    requires index <= |t|
    ensures LineNumberFrom(Strip(t, 0), index) == LineNumberFrom(t, index)
  {
    hide Strip;
    if index > 0 {
      SameLine(t, index - 1);
      StripKeepsLines(t, 0, index - 1);
      assert Strip(t, 0)[index - 1] == '\n' <==> t[index - 1] == '\n';
    }
  }

  // ----- a second pass changes nothing -----

  /** o is the stripped text of t, read from the start of a piece at i. */
  ghost predicate Stripping(t: string, o: string, i: nat) {
    i <= |t| == |o| && o[i..] == Strip(t, i)
  }

  lemma StrippingOn(t: string, o: string, i: nat)
    requires Stripping(t, o, i) && i < |t|
    ensures var p := PieceAt(t, i);
            && Stripping(t, o, p.end)
            && o[i..p.end] == Kept(t, i, p)
            && o[i] == (if p.Verbatim? then t[i] else ' ')
  {
    var p := PieceAt(t, i);
    assert o[i..] == Kept(t, i, p) + Strip(t, p.end);
    assert o[i..p.end] == o[i..][..p.end - i] && o[p.end..] == o[i..][p.end - i..];
    assert o[i] == o[i..p.end][0];
  }

  /** In both texts the same stretch is the part u. */
  lemma {:induction false} LiteralAgain(t: string, o: string, i: nat, j: nat)
    requires |t| == |o| && i <= j <= |t| && t[i..LiteralEnd(t, j)] == o[i..LiteralEnd(t, j)]
    requires var e := LiteralEnd(t, j); e < |t| && t[e] != '\'' ==> o[e] != '\''
    ensures LiteralEnd(o, j) == LiteralEnd(t, j)
    decreases |t| - j
  {
    if j < |t| {
      var e := LiteralEnd(t, j);
      assert t[j] == t[i..e][j - i] && o[j] == o[i..e][j - i];
      if t[j] != '\'' {
        LiteralAgain(t, o, i, j + 1);
      } else if j + 1 < |t| && t[j + 1] == '\'' {
        assert t[j + 1] == t[i..e][j + 1 - i] && o[j + 1] == o[i..e][j + 1 - i];
        LiteralAgain(t, o, i, j + 2);
      }
    }
  }

  lemma {:induction false} TagAgain(t: string, o: string, i: nat, j: nat, e: nat)
    requires |t| == |o| && i <= j <= e <= |t| && t[i..e] == o[i..e] && TagStop(t, j) < e
    ensures TagStop(o, j) == TagStop(t, j)
    decreases |t| - j
  {
    assert t[j] == t[i..e][j - i] && o[j] == o[i..e][j - i];
    if IsTagChar(t[j]) {
      TagAgain(t, o, i, j + 1, e);
    }
  }

  /** A run of tag characters is copied, and what stops it does not become a tag character or a '$'. */
  lemma {:induction false} RunCopied(t: string, o: string, j: nat)
    requires Stripping(t, o, j)
    ensures TagStop(o, j) == TagStop(t, j) && (j < TagStop(t, j) ==> o[j] == t[j])
    ensures TagStop(t, j) < |t| && t[TagStop(t, j)] != '$' ==> o[TagStop(t, j)] != '$'
    decreases |t| - j
  {
    if j < |t| {
      StrippingOn(t, o, j);
      if IsTagChar(t[j]) {
        assert PieceAt(t, j) == Verbatim(j + 1);
        RunCopied(t, o, j + 1);
      }
    }
  }

  lemma SlicesAgree(t: string, o: string, i: nat, e: nat, a: nat, b: nat)
    requires i <= a <= b <= e <= |t| == |o| && t[i..e] == o[i..e]
    ensures t[a..b] == o[a..b]
  {
    forall k | a <= k < b
      ensures t[k] == o[k]
    {
      assert t[k] == t[i..e][k - i] && o[k] == o[i..e][k - i];
    }
  }

  lemma TagEndAgain(t: string, o: string, i: nat, open: nat, e: nat)
    requires i < open <= e <= |t| == |o| && t[i..e] == o[i..e] && TagEnd(t, i) == Some(open)
    ensures TagEnd(o, i) == Some(open) && o[i..open] == t[i..open]
  {
    TagAgain(t, o, i, i + 1, e);
    SlicesAgree(t, o, i, e, i, open);
    assert o[i] == o[i..open][0] && t[i] == t[i..open][0];
    assert o[i + 1] == o[i..open][1] && t[i + 1] == t[i..open][1];
    assert o[open - 1] == o[i..open][open - 1 - i] && t[open - 1] == t[i..open][open - 1 - i];
  }

  lemma DollarAgain(t: string, o: string, i: nat)
    requires Stripping(t, o, i) && i < |t| && t[i] == '$' && TagEnd(t, i).Some?
    ensures o[i] == '$' && PieceAt(o, i) == PieceAt(t, i)
  {
    StrippingOn(t, o, i);
    DelimiterInPiece(t, i);
    var open, e := TagEnd(t, i).value, PieceAt(t, i).end;
    TagEndAgain(t, o, i, open, e);
    hide Stripping, FirstOccurrence, TagEnd;
    SameOccurrence(t, o, i, t[i..open], open, e);
  }

  lemma DelimiterInPiece(t: string, i: nat)
    requires i < |t| && t[i] == '$' && TagEnd(t, i).Some?
    ensures TagEnd(t, i).value <= PieceAt(t, i).end && TagStop(t, i + 1) == TagEnd(t, i).value - 1
  {
  }

  lemma SameAt(t: string, o: string, i: nat, d: string, e: nat, q: nat)
    requires i <= q && q + |d| <= e <= |t| == |o| && t[i..e] == o[i..e]
    ensures OccursAt(o, d, q) == OccursAt(t, d, q)
  {
    SlicesAgree(t, o, i, e, q, q + |d|);
  }

  lemma SameOccurrence(t: string, o: string, i: nat, d: string, open: nat, e: nat)
    requires i <= open <= e <= |t| == |o| && t[i..e] == o[i..e] && |d| > 0
    requires var close := FirstOccurrence(t, d, open, |t|); if close.Some? then close.value + |d| == e else e == |t|
    ensures FirstOccurrence(o, d, open, |o|) == FirstOccurrence(t, d, open, |t|)
  {
    hide OccursAt, FirstOccurrence;
    forall q | open <= q && q + |d| <= e
      ensures OccursAt(o, d, q) == OccursAt(t, d, q)
    {
      SameAt(t, o, i, d, e, q);
    }
    FirstOccurs(t, d, open, |t|);
    FirstOccurs(o, d, open, |o|);
    var close, again := FirstOccurrence(t, d, open, |t|), FirstOccurrence(o, d, open, |o|);
    if close.Some? {
      assert OccursAt(o, d, close.value);
      FirstIs(o, d, open, |o|, close.value);
    }
  }

  lemma BlankPiece(o: string, i: nat)
    requires i < |o| && (o[i] == ' ' || o[i] == '\n')
    ensures PieceAt(o, i) == Verbatim(i + 1)
  {
    hide FirstOccurrence, TagEnd, LineStop, CommentStop, LiteralEnd;
  }

  ghost predicate AreBlanks(o: string, i: nat, e: nat) {
    i <= e <= |o| && forall k :: i <= k < e ==> o[k] == ' ' || o[k] == '\n'
  }

  lemma BlanksFront(o: string, i: nat, e: nat)
    requires AreBlanks(o, i, e) && i < e
    ensures AreBlanks(o, i + 1, e) && (o[i] == ' ' || o[i] == '\n')
  {
  }

  /** Blanks and line breaks before unchanged text stay unchanged. */
  lemma {:induction false} BlanksCopied(o: string, i: nat, e: nat)
    requires i <= e <= |o| && AreBlanks(o, i, e) && Strip(o, e) == o[e..]
    ensures Strip(o, i) == o[i..]
    decreases e - i
  {
    hide AreBlanks, PieceAt, Strip;
    if i < e {
      BlanksFront(o, i, e);
      BlankPiece(o, i);
      StripOne(o, i);
      BlanksCopied(o, i + 1, e);
      FirstAndRest(o, i);
    }
  }

  lemma FirstAndRest(o: string, i: nat)
    requires i < |o|
    ensures o[i..] == [o[i]] + o[i + 1..]
  {
  }

  lemma {:induction false} StripAgain(t: string, o: string, i: nat)
    requires Stripping(t, o, i)
    ensures Strip(o, i) == o[i..]
    decreases |t| - i
  {
    if i < |t| {
      StrippingOn(t, o, i);
      var p := PieceAt(t, i);
      StripAgain(t, o, p.end);
      assert o[i..] == o[i..p.end] + o[p.end..];
      if p.Blank? {
        forall k | i <= k < p.end
          ensures o[k] == ' ' || o[k] == '\n'
        {
          assert o[k] == o[i..p.end][k - i];
        }
        BlanksCopied(o, i, p.end);
      } else {
        PieceAgain(t, o, i);
      }
    }
  }

  lemma LiteralPieceAgain(t: string, o: string, i: nat)
    requires Stripping(t, o, i) && i < |t| && t[i] == '\''
    ensures PieceAt(o, i) == PieceAt(t, i)
  {
    var e := LiteralEnd(t, i + 1);
    assert PieceAt(t, i) == Verbatim(e);
    hide PieceAt, LiteralEnd;
    StrippingOn(t, o, i);
    if e < |t| {
      StrippingOn(t, o, e);
    }
    LiteralAgain(t, o, i, i + 1);
    assert PieceAt(o, i) == Verbatim(LiteralEnd(o, i + 1)) by { LiteralPiece(o, i); }
  }

  lemma LiteralPiece(o: string, i: nat)
    requires i < |o| && o[i] == '\''
    ensures PieceAt(o, i) == Verbatim(LiteralEnd(o, i + 1))
  {
  }

  /** A '$' that opens nothing opens nothing afterwards. */
  lemma SignPieceAgain(t: string, o: string, i: nat)
    requires Stripping(t, o, i) && i < |t| && t[i] == '$' && TagEnd(t, i).None?
    ensures PieceAt(o, i) == PieceAt(t, i)
  {
    assert PieceAt(t, i) == Verbatim(i + 1);
    StrippingOn(t, o, i);
    RunCopied(t, o, i + 1);
    hide Stripping, FirstOccurrence, TagStop;
    assert TagEnd(o, i).None?;
  }

  lemma PlainPieceAgain(t: string, o: string, i: nat)
    requires Stripping(t, o, i) && i < |t| && PieceAt(t, i) == Verbatim(i + 1) && t[i] != '\'' && t[i] != '$'
    ensures PieceAt(o, i) == Verbatim(i + 1)
  {
    StrippingOn(t, o, i);
    if i + 1 < |t| {
      StrippingOn(t, o, i + 1);
    }
    hide Stripping, FirstOccurrence, LineStop, CommentStop, TagEnd, LiteralEnd;
  }

  lemma PieceAgain(t: string, o: string, i: nat)
    requires Stripping(t, o, i) && i < |t| && PieceAt(t, i).Verbatim?
    ensures PieceAt(o, i) == PieceAt(t, i)
  {
    if t[i] == '\'' {
      LiteralPieceAgain(t, o, i);
    } else if t[i] == '$' && TagEnd(t, i).Some? {
      DollarAgain(t, o, i);
    } else if t[i] == '$' {
      SignPieceAgain(t, o, i);
    } else {
      hide Stripping, FirstOccurrence, LineStop, CommentStop, TagEnd, LiteralEnd;
      PlainPieceAgain(t, o, i);
    }
  }

  /** Stripping is idempotent. */
  lemma StripIdempotent(t: string)
    ensures Strip(Strip(t, 0), 0) == Strip(t, 0)
  {
    var o := Strip(t, 0);
    assert o[0..] == o;
    StripAgain(t, o, 0);
  }

  /** Literals and dollar-quoted bodies stay as they are, even where they look like comments. */
  lemma VerbatimStays(t: string, o: string, i: nat)
    requires o == Strip(t, 0) && Stripping(t, o, i) && i < |t|
    requires t[i] == '\'' || (t[i] == '$' && TagEnd(t, i).Some?)
    ensures o[i..PieceAt(t, i).end] == t[i..PieceAt(t, i).end] && Stripping(t, o, PieceAt(t, i).end)
  {
    StrippingOn(t, o, i);
  }

  predicate MarkEnds(t: string, k: nat) { k + 1 < |t| && t[k] == '*' && t[k + 1] == '/' }

  lemma {:induction false} CommentStopFirst(t: string, j: nat)
    requires j <= |t|
    ensures var e := CommentStop(t, j);
            && (e < |t| ==> e >= j + 2 && MarkEnds(t, e - 2))
            && forall k: nat :: j <= k && k + 2 < e ==> !MarkEnds(t, k)
    decreases |t| - j
  {
    if j < |t| && !MarkEnds(t, j) {
      CommentStopFirst(t, j + 1);
    }
  }

  /** A comment becomes blanks, line breaks aside: to the end of its line, or through the first closing mark. */
  lemma CommentsBlanked(t: string, o: string, i: nat)
    requires Stripping(t, o, i) && i + 1 < |t|
    requires (t[i] == '-' && t[i + 1] == '-') || (t[i] == '/' && t[i + 1] == '*')
    ensures var e := PieceAt(t, i).end;
            && Stripping(t, o, e)
            && (forall k :: i <= k < e ==> o[k] == if t[k] == '\n' then '\n' else ' ')
            && (if t[i] == '-' then (e < |t| ==> t[e] == '\n') && forall k :: i <= k < e ==> t[k] != '\n'
                else (e < |t| ==> e >= i + 4 && MarkEnds(t, e - 2)) && forall k: nat :: i + 2 <= k && k + 2 < e ==> !MarkEnds(t, k))
  {
    hide LineStop, CommentStop, Strip;
    StrippingOn(t, o, i);
    var e := PieceAt(t, i).end;
    forall k | i <= k < e
      ensures o[k] == if t[k] == '\n' then '\n' else ' '
    {
      assert o[k] == o[i..e][k - i] == Blanks(t, i, e)[k - i];
      assert t[i + (k - i)] == t[k];
    }
    if t[i] == '-' {
      LineStopFirst(t, i + 1);
    } else {
      CommentStopFirst(t, i + 2);
    }
  }
}
