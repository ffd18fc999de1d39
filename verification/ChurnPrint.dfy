/** What the comment remover of the churn check does to SQL text put together from words, comments, literals
    and dollar quotes. */
module ChurnPrint {
  import opened Characters
  import opened ChurnStrip
  import opened JavaScriptText
  import opened QuoteText
  import opened SqlLexis
  import opened TextParts
  import opened Wrappers

  datatype Item =
    | Words(x: string)
    | Line(x: string)
    | Block(x: string)
    | Literal(signs: seq<Sign>)
    | Dollar(tag: string, body: string)

  function Written(item: Item): string {
    match item
    case Words(x) => x
    case Line(x) => "--" + x
    case Block(x) => "/*" + (x + "*/")
    case Literal(signs) => "'" + Closing(signs, '\'')
    case Dollar(tag, body) => Delimiter(tag) + (body + Delimiter(tag))
  }

  function WrittenAll(items: seq<Item>): string {
    if items == [] then "" else Written(items[0]) + WrittenAll(items[1..])
  }

  /** Comments become blanks, line breaks aside; all else stays. */
  function Blanked(item: Item): (r: string) {
    var w := Written(item);
    if item.Line? || item.Block?
    then seq(|w|, k requires 0 <= k < |w| => if w[k] == '\n' then '\n' else ' ')
    else w
  }

  function BlankedAll(items: seq<Item>): string {
    if items == [] then "" else Blanked(items[0]) + BlankedAll(items[1..])
  }

  // ----- which texts are meant -----

  /** A tag of letters, digits and underscores that starts with no digit. */
  predicate IsName(tag: string) {
    (tag != "" ==> tag[0] !in DIGITS) && forall k :: 0 <= k < |tag| ==> OfWord(tag[k])
  }

  /** Nothing begins in the words when r follows. */
  ghost predicate PlainWords(x: string, r: string) {
    forall k :: 0 <= k < |x| ==> x[k] != '\'' && !CommentAt(x + r, k) && !DelimiterAt(x + r, k)
  }

  ghost predicate DelimiterAt(t: string, k: nat) { exists tag :: IsName(tag) && StandsAt(t, k, Delimiter(tag)) }

  predicate StandsAt(t: string, k: nat, d: string) { k + |d| <= |t| && t[k..k + |d|] == d }

  predicate CommentAt(t: string, k: nat) {
    k + 1 < |t| && ((t[k] == '-' && t[k + 1] == '-') || (t[k] == '/' && t[k + 1] == '*'))
  }

  ghost predicate Stands(item: Item, r: string) {
    match item
    case Words(x) => PlainWords(x, r)
    case Line(x) => '\n' !in x && (r != "" ==> r[0] == '\n')
    case Block(x) => forall k :: 0 <= k < |x| ==> !MarkEnds(x + "*/", k)
    case Literal(signs) => Spelled(signs, false) && (r != "" ==> r[0] != '\'')
    case Dollar(tag, body) =>
      IsName(tag) && OnlyAtEnd(body, Delimiter(tag))
  }

  ghost predicate WellWritten(items: seq<Item>) {
    items != [] ==> Stands(items[0], WrittenAll(items[1..])) && WellWritten(items[1..])
  }

  // ----- the rest of a text is read as if it were alone -----

  lemma {:induction false} LiteralEndMoved(t: string, off: nat, u: string, j: nat)
    requires Part(t, off, u) && off + |u| == |t| && j <= |u|
    ensures LiteralEnd(t, off + j) == off + LiteralEnd(u, j)
    decreases |u| - j
  {
    if j < |u| {
      PartAt(t, off, u);
      assert t[off + j] == u[j] && (j + 1 < |u| ==> t[off + (j + 1)] == u[j + 1]);
      if u[j] != '\'' {
        LiteralEndMoved(t, off, u, j + 1);
      } else if j + 1 < |u| && u[j + 1] == '\'' {
        LiteralEndMoved(t, off, u, j + 2);
      }
    }
  }

  lemma {:induction false} CommentStopMoved(t: string, off: nat, u: string, j: nat)
    requires Part(t, off, u) && off + |u| == |t| && j <= |u|
    ensures CommentStop(t, off + j) == off + CommentStop(u, j)
    decreases |u| - j
  {
    if j < |u| {
      PartAt(t, off, u);
      assert t[off + j] == u[j] && (j + 1 < |u| ==> t[off + (j + 1)] == u[j + 1]);
      if !(u[j] == '*' && j + 1 < |u| && u[j + 1] == '/') {
        CommentStopMoved(t, off, u, j + 1);
      }
    }
  }

  lemma {:induction false} LineStopMoved(t: string, off: nat, u: string, j: nat)
    requires Part(t, off, u) && off + |u| == |t| && j <= |u|
    ensures LineStop(t, off + j) == off + LineStop(u, j)
    decreases |u| - j
  {
    if j < |u| {
      PartAt(t, off, u);
      if u[j] != '\n' {
        LineStopMoved(t, off, u, j + 1);
      }
    }
  }

  lemma TagEndMoved(t: string, off: nat, u: string, i: nat)
    requires Part(t, off, u) && off + |u| == |t| && i < |u|
    ensures TagEnd(t, off + i) == Moved(TagEnd(u, i), off)
  {
    PartAt(t, off, u);
    var r := TagStop(u, i + 1);
    forall k | off + i + 1 <= k < off + r
      ensures IsTagChar(t[k])
    {
      assert t[off + (k - off)] == u[k - off];
    }
    assert r < |u| ==> t[off + r] == u[r];
    assert i + 1 < |u| ==> t[off + (i + 1)] == u[i + 1];
    TagStopIs(t, off + i + 1, off + r);
  }

  lemma TagStopIs(t: string, j: nat, e: nat)
    requires j <= e <= |t| && (forall k :: j <= k < e ==> IsTagChar(t[k])) && (e < |t| ==> !IsTagChar(t[e]))
    ensures TagStop(t, j) == e
  {
  }

  function MovedPiece(p: Piece, off: nat): Piece {
    match p
    case Verbatim(end) => Verbatim(off + end)
    case Blank(end) => Blank(off + end)
  }

  lemma PieceMoved(t: string, off: nat, u: string, i: nat)
    requires Part(t, off, u) && off + |u| == |t| && i < |u|
    ensures PieceAt(t, off + i) == MovedPiece(PieceAt(u, i), off)
  {
    hide TagEnd, LineStop, CommentStop, LiteralEnd, FirstOccurrence, Part;
    PartAt(t, off, u);
    assert t[off + i] == u[i] && (i + 1 < |u| ==> t[off + (i + 1)] == u[i + 1]);
    TagEndMoved(t, off, u, i);
    if u[i] == '\'' {
      LiteralEndMoved(t, off, u, i + 1);
    } else if u[i] == '$' && TagEnd(u, i).Some? {
      var open := TagEnd(u, i).value;
      SliceMoved(t, off, u, i, open);
      OccurrenceMoved(t, off, u, u[i..open], open, |u|);
    } else if u[i] == '-' && i + 1 < |u| && u[i + 1] == '-' {
      LineStopMoved(t, off, u, i + 1);
    } else if u[i] == '/' && i + 1 < |u| && u[i + 1] == '*' {
      CommentStopMoved(t, off, u, i + 2);
    }
  }

  lemma {:induction false} StripMoved(t: string, off: nat, u: string, i: nat)
    requires Part(t, off, u) && off + |u| == |t| && i <= |u|
    ensures Strip(t, off + i) == Strip(u, i)
    decreases |u| - i
  {
    hide Strip, Kept, PieceAt, Part;
    assert Strip(t, |t|) == "" == Strip(u, |u|) by { StripEnd(t); StripEnd(u); }
    if i < |u| {
      var p := PieceAt(u, i);
      PieceMoved(t, off, u, i);
      StripMoved(t, off, u, p.end);
      KeptMoved(t, off, u, i, p);
      StripAt(t, off + i, MovedPiece(p, off));
      StripAt(u, i, p);
    }
  }

  lemma KeptMoved(t: string, off: nat, u: string, i: nat, p: Piece)
    requires Part(t, off, u) && i <= p.end <= |u|
    ensures Kept(t, off + i, MovedPiece(p, off)) == Kept(u, i, p)
  {
    PartAt(t, off, u);
    if p.Verbatim? {
      SliceMoved(t, off, u, i, p.end);
    } else {
      var a, b := Blanks(t, off + i, off + p.end), Blanks(u, i, p.end);
      forall k | 0 <= k < |b|
        ensures a[k] == b[k]
      {
        assert t[off + (i + k)] == u[i + k];
      }
      assert a == b;
    }
  }

  lemma StripEnd(t: string)
    ensures Strip(t, |t|) == ""
  {
  }

  /** Behind w the rest r is read as if it were alone. */
  lemma RestAlone(w: string, r: string)
    ensures Strip(w + r, |w|) == Strip(r, 0)
  {
    assert Part(w + r, |w|, r);
    hide Part, Strip;
    StripMoved(w + r, |w|, r, 0);
  }

  lemma BlanksSame(w: string, r: string, i: nat)
    requires i <= |w|
    ensures Blanks(w + r, i, |w|) == Blanks(w, i, |w|)
  {
  }

  /** One piece w, and what follows it. */
  lemma PieceThenRest(w: string, r: string, i: nat, p: Piece)
    requires i < |w| && p.end == |w| && PieceAt(w + r, i) == p
    ensures Strip(w + r, i) == (if p.Verbatim? then w[i..] else Blanks(w, i, |w|)) + Strip(r, 0)
  {
    hide PieceAt, Strip;
    RestAlone(w, r);
    BlanksSame(w, r, i);
    assert (w + r)[i..|w|] == w[i..];
    StripAt(w + r, i, p);
  }

  lemma StripAt(t: string, i: nat, p: Piece)
    requires i < |t| && p == PieceAt(t, i)
    ensures Strip(t, i) == Kept(t, i, p) + Strip(t, p.end)
  {
    hide PieceAt, Kept;
  }

  // ----- one item -----

  lemma {:induction false} WordsStay(x: string, r: string, i: nat)
    requires PlainWords(x, r) && i <= |x|
    ensures Strip(x + r, i) == x[i..] + Strip(r, 0)
    decreases |x| - i
  {
    hide PieceAt, Strip, PlainWords;
    if i == |x| {
      RestAlone(x, r);
      NothingLeft(x, Strip(r, 0));
    } else {
      WordPiece(x, r, i);
      WordsStay(x, r, i + 1);
      StripAt(x + r, i, Verbatim(i + 1));
      CharThenRest(x, r, i, Strip(r, 0));
    }
  }

  lemma WordPiece(x: string, r: string, i: nat)
    requires PlainWords(x, r) && i < |x|
    ensures PieceAt(x + r, i) == Verbatim(i + 1)
  {
    var t := x + r;
    assert t[i] == x[i] && !CommentAt(t, i) && !DelimiterAt(t, i);
    hide TagEnd, LineStop, CommentStop, LiteralEnd, FirstOccurrence, DelimiterAt;
    if TagEnd(t, i).Some? {
      TagStands(t, i);
    }
  }

  /** What the remover reads as a delimiter is one. */
  lemma TagStands(t: string, i: nat)
    requires i < |t| && TagEnd(t, i).Some?
    ensures DelimiterAt(t, i)
  {
    var e := TagEnd(t, i).value;
    var tag := t[i + 1..e - 1];
    assert t[i..e] == Delimiter(tag);
    forall k | 0 <= k < |tag|
      ensures OfWord(tag[k]) && (k == 0 ==> tag[k] !in DIGITS)
    {
      assert tag[k] == t[i + 1 + k] && IsTagChar(t[i + 1 + k]);
      AlphabetAt(tag[k]);
    }
    assert StandsAt(t, i, Delimiter(tag));
  }

  lemma LinePiece(x: string, r: string)
    requires '\n' !in x && (r != "" ==> r[0] == '\n')
    ensures PieceAt("--" + x + r, 0) == Blank(|x| + 2)
  {
    var t := "--" + x + r;
    forall k | 1 <= k < |x| + 2
      ensures t[k] != '\n'
    {
      assert k >= 2 ==> t[k] == x[k - 2];
    }
    assert |x| + 2 < |t| ==> t[|x| + 2] == r[0];
    LineStopFirst(t, 1);
    hide LineStop;
  }

  lemma {:induction false} CommentStopIs(t: string, j: nat, e: nat)
    requires j <= e && MarkEnds(t, e) && forall k :: j <= k < e ==> !MarkEnds(t, k)
    ensures CommentStop(t, j) == e + 2
    decreases e - j
  {
    if j < e {
      assert !MarkEnds(t, j);
      CommentStopIs(t, j + 1, e);
    }
  }

  lemma BlockPiece(x: string, r: string)
    requires forall k :: 0 <= k < |x| ==> !MarkEnds(x + "*/", k)
    ensures PieceAt("/*" + (x + "*/") + r, 0) == Blank(|x| + 4)
  {
    var u := x + "*/";
    var t := "/*" + u + r;
    assert forall k :: 0 <= k < |u| ==> t[k + 2] == u[k];
    forall k | 2 <= k < |x| + 2
      ensures !MarkEnds(t, k)
    {
      assert !MarkEnds(u, k - 2);
      assert t[k] == u[k - 2] && t[k + 1] == u[k - 1];
    }
    assert MarkEnds(t, |x| + 2) by { assert t[|x| + 2] == u[|x|] && t[|x| + 3] == u[|x| + 1]; }
    CommentStopIs(t, 2, |x| + 2);
    hide CommentStop;
  }

  lemma {:induction false} LiteralEndIs(t: string, j: nat, e: nat, signs: seq<Sign>)
    requires e == j + |Closing(signs, '\'')| <= |t| && t[j..e] == Closing(signs, '\'') && Spelled(signs, false)
    requires e < |t| ==> t[e] != '\''
    ensures LiteralEnd(t, j) == e
    decreases |signs|
  {
    if signs == [] {
      assert t[j] == t[j..e][0] == '\'';
    } else {
      var first, rest := SignText(signs[0], '\''), Closing(signs[1..], '\'');
      var n := j + |first|;
      SpelledRest(signs, false);
      ClosingAt(signs, '\'');
      assert t[j..e][..|first|] == first && t[j..e][|first|..] == rest;
      assert t[n..e] == rest;
      assert t[j] == first[0] && (|first| == 2 ==> t[j + 1] == t[j..e][1] == first[1]);
      LiteralEndIs(t, n, e, signs[1..]);
    }
  }

  lemma LiteralPieceIs(signs: seq<Sign>, r: string)
    requires Spelled(signs, false) && (r != "" ==> r[0] != '\'')
    ensures var w := "'" + Closing(signs, '\''); PieceAt(w + r, 0) == Verbatim(|w|)
  {
    var w := "'" + Closing(signs, '\'');
    var t := w + r;
    assert t[1..|w|] == Closing(signs, '\'');
    assert |w| < |t| ==> t[|w|] == r[0];
    LiteralEndIs(t, 1, |w|, signs);
    hide LiteralEnd, Closing;
  }

  lemma NameChars(tag: string)
    requires IsName(tag)
    ensures forall k :: 0 <= k < |tag| ==> IsTagChar(tag[k])
    ensures tag != "" ==> IsTagStart(tag[0])
  {
    forall k | 0 <= k < |tag|
      ensures IsTagChar(tag[k]) && (k == 0 ==> IsTagStart(tag[k]))
    {
      AlphabetAt(tag[k]);
    }
  }

  lemma TagEndIs(t: string, tag: string, d: string)
    requires IsName(tag) && d == Delimiter(tag) && |d| <= |t| && t[0..|d|] == d
    ensures |d| > 0 && t[0] == '$' && TagEnd(t, 0) == Some(|d|)
  {
    var e := |tag| + 1;
    NameChars(tag);
    hide IsName, IsTagChar, IsTagStart;
    forall k | 0 <= k <= e
      ensures t[k] == d[k]
    {
      assert t[k] == t[0..|d|][k];
    }
    assert t[0] == '$' && t[e] == '$';
    forall k | 1 <= k < e
      ensures IsTagChar(t[k]) && (k == 1 ==> IsTagStart(t[k]))
    {
      assert t[k] == d[k] == tag[k - 1];
    }
    assert !IsTagChar('$') by { SignIsNone(); }
    hide TagStop;
    TagStopIs(t, 1, e);
  }

  lemma SignIsNone()
    ensures !IsTagChar('$')
  {
  }

  lemma DollarPiece(tag: string, body: string, r: string)
    requires Stands(Dollar(tag, body), r)
    ensures var w := Written(Dollar(tag, body)); PieceAt(w + r, 0) == Verbatim(|w|)
  {
    var d := Delimiter(tag);
    var t, n := d + (body + d) + r, |d|;
    assert d != "" && IsName(tag) && OnlyAtEnd(body, d);
    hide *;
    DollarParts(t, d, body, r);
    TagEndIs(t, tag, d);
    BodyEnds(t, n, body, d);
    QuotePieceAt(t, n, Some(n + |body|));
  }

  lemma DollarParts(t: string, d: string, body: string, r: string)
    requires t == d + (body + d) + r && d != ""
    ensures t[0..|d|] == d && Part(t, |d|, body + d)
  {
    assert t == d + ((body + d) + r);
  }

  lemma QuotePieceAt(t: string, open: nat, close: Option<nat>)
    requires 0 < open <= |t| && t[0] == '$' && TagEnd(t, 0) == Some(open)
    requires FirstOccurrence(t, t[0..open], open, |t|) == close
    ensures PieceAt(t, 0) == Verbatim(if close.Some? then close.value + open else |t|)
  {
    hide TagEnd, FirstOccurrence;
  }

  /** Whatever follows, the remover blanks the item if it is a comment, and goes on with the rest. */
  lemma ItemBlanked(item: Item, r: string)
    requires Stands(item, r)
    ensures Strip(Written(item) + r, 0) == Blanked(item) + Strip(r, 0)
  {
    var w := Written(item);
    match item
    case Words(x) =>
      WordsStay(x, r, 0);
    case Line(x) =>
      LinePiece(x, r);
      PieceThenRest(w, r, 0, Blank(|w|));
      assert Blanks(w, 0, |w|) == Blanked(item);
    case Block(x) =>
      BlockPiece(x, r);
      PieceThenRest(w, r, 0, Blank(|w|));
      assert Blanks(w, 0, |w|) == Blanked(item);
    case Literal(signs) =>
      LiteralPieceIs(signs, r);
      PieceThenRest(w, r, 0, Verbatim(|w|));
    case Dollar(tag, body) =>
      DollarPiece(tag, body, r);
      PieceThenRest(w, r, 0, Verbatim(|w|));
  }

  /** In a text put together from words, comments, literals and dollar quotes the remover blanks the comments
      and nothing else. */
  lemma {:induction false} AllBlanked(items: seq<Item>)
    requires WellWritten(items)
    ensures Strip(WrittenAll(items), 0) == BlankedAll(items)
    decreases |items|
  {
    if items != [] {
      ItemBlanked(items[0], WrittenAll(items[1..]));
      AllBlanked(items[1..]);
    }
  }

  /** A literal or a dollar quote that is never closed runs on to the end. */
  lemma OpenStays(x: string, tag: string, r: string)
    ensures '\'' !in x ==> Strip("'" + x, 0) == "'" + x
    ensures IsName(tag) && (forall k: nat :: !OccursAt(r, Delimiter(tag), k)) ==>
              Strip(Delimiter(tag) + r, 0) == Delimiter(tag) + r
  {
    if '\'' !in x {
      OpenLiteral(x);
    }
    if IsName(tag) && forall k: nat :: !OccursAt(r, Delimiter(tag), k) {
      OpenDollar(tag, r);
    }
  }

  lemma OpenLiteral(x: string)
    requires '\'' !in x
    ensures Strip("'" + x, 0) == "'" + x
  {
    var t := "'" + x;
    assert forall k :: 1 <= k < |t| ==> t[k] == x[k - 1];
    NeverEnds(t, 1);
    assert PieceAt(t, 0) == Verbatim(|t|) by { hide LiteralEnd; }
    AllOnePiece(t);
  }

  lemma {:induction false} NeverEnds(t: string, j: nat)
    requires j <= |t| && forall k :: j <= k < |t| ==> t[k] != '\''
    ensures LiteralEnd(t, j) == |t|
    decreases |t| - j
  {
    if j < |t| {
      NeverEnds(t, j + 1);
    }
  }

  lemma OpenDollar(tag: string, r: string)
    requires IsName(tag) && forall k: nat :: !OccursAt(r, Delimiter(tag), k)
    ensures Strip(Delimiter(tag) + r, 0) == Delimiter(tag) + r
  {
    var d := Delimiter(tag);
    var t, n := d + r, |d|;
    assert t[0..n] == d && d != "" && Part(t, n, r);
    hide *;
    TagEndIs(t, tag, d);
    NeverAgain(t, n, r, d);
    QuotePieceAt(t, n, None);
    AllOnePiece(t);
  }

  lemma NeverAgain(t: string, n: nat, r: string, d: string)
    requires Part(t, n, r) && n + |r| == |t| && d != "" && forall k: nat :: !OccursAt(r, d, k)
    ensures FirstOccurrence(t, d, n, |t|) == None
  {
    hide OccursAt, Part;
    FirstOccurs(t, d, n, |t|);
    forall k | n <= k && k + |d| <= |t|
      ensures !OccursAt(t, d, k)
    {
      OccursMoved(t, n, r, d, k - n);
    }
  }

  lemma AllOnePiece(t: string)
    requires t != "" && PieceAt(t, 0) == Verbatim(|t|)
    ensures Strip(t, 0) == t
  {
    hide PieceAt, Strip;
    assert t + "" == t && t[0..] == t;
    PieceThenRest(t, "", 0, Verbatim(|t|));
    assert Strip("", 0) == "" by { StripEnd(""); }
  }
}
