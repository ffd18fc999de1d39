/** What the comment removers do to SQL text put together from words, comments, literals and dollar quotes. */
module StripLaws {
  import opened BlockComments
  import opened QuoteText
  import opened SqlLexis
  import opened StripAgreement
  import opened StripComments
  import opened StripSlices
  import opened TextParts
  import opened Wrappers

  // ----- what is written -----

  /** The inside of a block comment: words, and comments between words. */
  datatype Remark = Words(x: string) | Around(x: string, inner: Remark, rest: Remark)

  function RemarkText(r: Remark): string {
    match r
    case Words(x) => x
    case Around(x, inner, rest) => x + ("/*" + (RemarkText(inner) + ("*/" + RemarkText(rest))))
  }

  /** No opening and no closing mark. */
  predicate NoMark(s: string) {
    forall k :: 0 <= k && k + 1 < |s| ==> !(s[k] == '/' && s[k + 1] == '*') && !(s[k] == '*' && s[k + 1] == '/')
  }

  /** The words make no marks, not even with the mark behind them. */
  predicate IsRemark(r: Remark) {
    match r
    case Words(x) => NoMark(x + "*")
    case Around(x, inner, rest) => NoMark(x + "/") && IsRemark(inner) && IsRemark(rest)
  }

  datatype Item =
    | Text(x: string)
    | Line(x: string)
    | Comment(remark: Remark)
    | Literal(prefix: string, quote: char, signs: seq<Sign>)
    | Quote(tag: string, body: seq<Item>)

  function Written(item: Item): string
    decreases item, 0
  {
    match item
    case Text(x) => x
    case Line(x) => "--" + x
    case Comment(remark) => "/*" + (RemarkText(remark) + "*/")
    case Literal(prefix, q, signs) => prefix + ([q] + Closing(signs, q))
    case Quote(tag, body) => Delimiter(tag) + (WrittenAll(body) + Delimiter(tag))
  }

  function WrittenAll(items: seq<Item>): string
    decreases items, 1
  {
    if items == [] then "" else Written(items[0]) + WrittenAll(items[1..])
  }

  /** Without its comments. */
  function Cleaned(item: Item): string
    decreases item, 0
  {
    match item
    case Line(_) => " "
    case Comment(_) => " "
    case Quote(tag, body) => Delimiter(tag) + (CleanedAll(body) + Delimiter(tag))
    case _ => Written(item)
  }

  function CleanedAll(items: seq<Item>): string
    decreases items, 1
  {
    if items == [] then "" else Cleaned(items[0]) + CleanedAll(items[1..])
  }

  // ----- which texts are meant -----

  /** No quote, no dollar sign but inside a name, and no comment begins in x when r follows. */
  predicate PlainBefore(x: string, r: string) { (forall k :: 0 <= k < |x| ==> PlainAt(x, k)) && NoneBegins(x + r, |x|) }

  predicate PlainAt(x: string, k: nat)
    requires k < |x|
  {
    x[k] != '\'' && x[k] != '"' && (x[k] == '$' ==> k > 0 && IdentChar(x[k - 1]))
  }

  /** No comment begins before n. */
  predicate NoneBegins(t: string, n: nat) { forall k :: 0 <= k < n ==> !CommentBegins(t, k) }

  predicate CommentBegins(t: string, k: nat) {
    k + 1 < |t| && ((t[k] == '-' && t[k + 1] == '-') || (t[k] == '/' && t[k + 1] == '*'))
  }

  /** An identifier that w ends with neither goes on in r nor makes a string of r an escape string. */
  predicate Apart(w: string, r: string) {
    w != [] && r != [] && IdentChar(w[|w| - 1]) ==>
      !IdentChar(r[0]) && !(r[0] == '\'' && (w[|w| - 1] == 'E' || w[|w| - 1] == 'e'))
  }

  /** The text ends in a string prefix E. */
  predicate EndsInE(x: string) {
    var n := |x|;
    n > 0 && (x[n - 1] == 'E' || x[n - 1] == 'e') && (n > 1 ==> !IdentChar(x[n - 2]))
  }

  /** The item is what it is meant to be when r follows. */
  ghost predicate Stands(item: Item, r: string, bs: bool)
    decreases item, 0
  {
    Apart(Written(item), r) &&
    match item
    case Text(x) => PlainBefore(x, r)
    case Line(x) => '\n' !in x && (r != [] ==> r[0] == '\n')
    case Comment(remark) => IsRemark(remark)
    case Literal(prefix, q, signs) =>
      && IsQuote(q) && PlainBefore(prefix, [q]) && (r != [] ==> r[0] != q)
      && Spelled(signs, q == '\'' && (bs || EndsInE(prefix)))
    case Quote(tag, body) =>
      && IsTag(tag) && WellWritten(body, bs)
      && OnlyAtEnd(WrittenAll(body), Delimiter(tag))
  }

  ghost predicate WellWritten(items: seq<Item>, bs: bool)
    decreases items, 1
  {
    items != [] ==> Stands(items[0], WrittenAll(items[1..]), bs) && WellWritten(items[1..], bs)
  }

  // ----- the rest of a text is read as if it were alone -----

  lemma {:induction false} RangeStart(t: string, bs: bool, p: nat, i: nat)
    requires p <= i <= |t| && Apart(t[..p], t[p..])
    ensures Strip(t, CountedEnds(t), bs, 0, |t|, i) == Strip(t, CountedEnds(t), bs, p, |t|, i)
    decreases |t| - i
  {
    if i < |t| {
      SameAtStart(t, bs, p, i);
      var piece := PieceAt(t, CountedEnds(t), bs, 0, |t|, i);
      RangeStart(t, bs, p, piece.end);
      hide CountedEnds, PieceAt, Strip;
      PieceText(t, CountedEnds(t), bs, 0, |t|, i, piece);
      PieceText(t, CountedEnds(t), bs, p, |t|, i, piece);
      StripAt(t, bs, 0, i, piece);
      StripAt(t, bs, p, i, piece);
    }
  }

  lemma StripAt(t: string, bs: bool, lo: nat, i: nat, piece: Piece)
    requires lo <= i < |t| && piece == PieceAt(t, CountedEnds(t), bs, lo, |t|, i)
    ensures Strip(t, CountedEnds(t), bs, lo, |t|, i) == StripPiece(t, CountedEnds(t), bs, lo, |t|, i, piece)
  {
    hide CountedEnds, PieceAt, StripPiece;
  }

  lemma SameAtStart(t: string, bs: bool, p: nat, i: nat)
    requires p <= i < |t| && Apart(t[..p], t[p..])
    ensures PieceAt(t, CountedEnds(t), bs, 0, |t|, i) == PieceAt(t, CountedEnds(t), bs, p, |t|, i)
  {
    assert t[p..][0] == t[p] && (p > 0 ==> t[..p][p - 1] == t[p - 1]);
    assert t[i] == '\'' ==> EscapeString(t, i, 0, bs) == EscapeString(t, i, p, bs);
    hide CountedEnds, DelimiterFrom, FirstOccurrence, QuoteEndFrom, LineEnd;
  }

  /** Behind w, which r does not continue, r is read as if it were alone. */
  lemma RestAlone(w: string, r: string, bs: bool)
    requires Apart(w, r)
    ensures var t := w + r; Strip(t, CountedEnds(t), bs, 0, |t|, |w|) == Stripped(r, CountedEnds(r), bs)
  {
    var t, p := w + r, |w|;
    assert t[..p] == w && t[p..] == r && Part(t, p, r) && Ends(t, p, r);
    hide *;
    RangeStart(t, bs, p, p);
    StripMoved(t, p, r, bs, 0, |r|, 0);
    StrippedAt(r, bs);
  }

  // ----- one item -----

  /** Reading from i on, the next piece is `piece` and ends where w does; the rest is r. */
  lemma PieceThenRest(w: string, r: string, bs: bool, i: nat, piece: Piece)
    requires Apart(w, r) && i < |w| && piece.end == |w|
    requires PieceAt(w + r, CountedEnds(w + r), bs, 0, |w + r|, i) == piece
    ensures var t := w + r;
            && (piece.Keep? ==> Strip(t, CountedEnds(t), bs, 0, |t|, i) == w[i..] + Stripped(r, CountedEnds(r), bs))
            && (piece.Blank? ==> Strip(t, CountedEnds(t), bs, 0, |t|, i) == " " + Stripped(r, CountedEnds(r), bs))
  {
    var t := w + r;
    hide CountedEnds, PieceAt, Strip, StripPiece;
    StripAt(t, bs, 0, i, piece);
    PieceText(t, CountedEnds(t), bs, 0, |t|, i, piece);
    RestAlone(w, r, bs);
    assert t[i..piece.end] == w[i..];
  }

  lemma TextStays(x: string, r: string, bs: bool)
    requires PlainBefore(x, r) && Apart(x, r)
    ensures var t := x + r; Stripped(t, CountedEnds(t), bs) == x + Stripped(r, CountedEnds(r), bs)
  {
    TextCopied(x, r, bs, 0);
    RestAlone(x, r, bs);
  }

  lemma {:induction false} TextCopied(x: string, r: string, bs: bool, i: nat)
    requires PlainBefore(x, r) && i <= |x|
    ensures var t := x + r; Strip(t, CountedEnds(t), bs, 0, |t|, i) == x[i..] + Strip(t, CountedEnds(t), bs, 0, |t|, |x|)
    decreases |x| - i
  {
    hide *;
    var t := x + r;
    StrippedAt(t, bs);
    if i < |x| {
      PlainPiece(x, r, bs, i);
      TextCopied(x, r, bs, i + 1);
      StripAt(t, bs, 0, i, Keep(i + 1));
      PieceText(t, CountedEnds(t), bs, 0, |t|, i, Keep(i + 1));
      CharThenRest(x, r, i, Strip(t, CountedEnds(t), bs, 0, |t|, |x|));
    } else {
      NothingLeft(x, Strip(t, CountedEnds(t), bs, 0, |t|, |x|));
    }
  }

  lemma PlainPiece(x: string, r: string, bs: bool, i: nat)
    requires PlainBefore(x, r) && i < |x|
    ensures var t := x + r; PieceAt(t, CountedEnds(t), bs, 0, |t|, i) == Keep(i + 1)
  {
    hide CountedEnds;
    var t := x + r;
    assert t[i] == x[i] && (i > 0 ==> t[i - 1] == x[i - 1]);
    assert PlainAt(x, i) && !CommentBegins(t, i);
  }

  lemma LineGoes(x: string, r: string, bs: bool)
    requires '\n' !in x && (r != [] ==> r[0] == '\n')
    ensures var t := "--" + x + r; Stripped(t, CountedEnds(t), bs) == " " + Stripped(r, CountedEnds(r), bs)
  {
    var w := "--" + x;
    LinePiece(x, r, bs);
    PieceThenRest(w, r, bs, 0, Blank(|w|));
  }

  lemma LinePiece(x: string, r: string, bs: bool)
    requires '\n' !in x && (r != [] ==> r[0] == '\n')
    ensures var t := "--" + x + r;
            t[0] == '-' == t[1] && LineEnd(t, 0, |t|) == |x| + 2
            && PieceAt(t, CountedEnds(t), bs, 0, |t|, 0) == Blank(|x| + 2)
  {
    var w := "--" + x;
    var t := w + r;
    assert forall k :: 2 <= k < |w| ==> t[k] == x[k - 2];
    assert |w| < |t| ==> t[|w|] == r[0];
    hide CountedEnds;
    assert LineEnd(t, 1, |t|) == |w| == LineEnd(t, 0, |t|);
  }

  // ----- block comments -----

  lemma {:induction false} WordsSkipped(t: string, k: nat, x: string, c: char, n: nat, depth: nat)
    requires depth > 0 && Part(t, k, x + [c]) && n == k + |x| && NoMark(x + [c])
    ensures CloseFrom(t, k, depth) == CloseFrom(t, n, depth)
    decreases |x|
  {
    if x != [] {
      WordSkipped(t, k, x, c, depth);
      hide *;
      WordsSkipped(t, k + 1, x[1..], c, n, depth);
    }
  }

  lemma WordSkipped(t: string, k: nat, x: string, c: char, depth: nat)
    requires depth > 0 && x != "" && Part(t, k, x + [c]) && NoMark(x + [c])
    ensures Part(t, k + 1, x[1..] + [c]) && NoMark(x[1..] + [c]) && k < |t|
    ensures CloseFrom(t, k, depth) == CloseFrom(t, k + 1, depth)
  {
    var y, z := x + [c], x[1..] + [c];
    PartAt(t, k, y);
    assert t[k + 0] == y[0] && t[k + 1] == y[1];
    assert !OpensAt(t, k) && !ClosesAt(t, k);
    assert forall i :: 0 <= i < |z| ==> z[i] == y[i + 1];
    forall i | 0 <= i < |z|
      ensures t[k + 1 + i] == z[i]
    {
      assert t[k + (i + 1)] == y[i + 1];
    }
  }

  /** The parts of a remark and the two marks around the inner one. */
  lemma AroundParts(t: string, k: nat, x: string, a: string, b: string, i: nat, j: nat)
    requires Part(t, k, x + ("/*" + (a + ("*/" + b))) + "*/") && i == k + |x| && j == i + 2 + |a|
    ensures Part(t, k, x + "/") && Part(t, i, "/*") && Part(t, i + 2, a + "*/") && Part(t, j, "*/")
    ensures Part(t, j + 2, b + "*/")
  {
    assert x + ("/*" + (a + ("*/" + b))) + "*/" == (x + "/*") + ((a + "*/") + (b + "*/"));
    assert x + "/*" == (x + "/") + "*";
    hide Part;
    PartSplit(t, k, x + "/*", (a + "*/") + (b + "*/"), i + 2);
    PartSplit(t, i + 2, a + "*/", b + "*/", j + 2);
    PartSplit(t, i + 2, a, "*/", j);
    PartSplit(t, k, x, "/*", i);
    PartSplit(t, k, x + "/", "*", i + 1);
  }

  /** The inside of a comment leaves its depth as it was. */
  lemma {:induction false} RemarkSkipped(t: string, k: nat, r: Remark, n: nat, depth: nat)
    requires depth > 0 && IsRemark(r) && Part(t, k, RemarkText(r) + "*/") && n == k + |RemarkText(r)|
    ensures CloseFrom(t, k, depth) == CloseFrom(t, n, depth)
    decreases r
  {
    hide Part, CloseFrom, NoMark;
    match r
    case Words(x) =>
      assert x + "*/" == (x + "*") + "/";
      PartSplit(t, k, x + "*", "/", n + 1);
      WordsSkipped(t, k, x, '*', n, depth);
    case Around(x, inner, rest) =>
      var a, b := RemarkText(inner), RemarkText(rest);
      var i := k + |x|;
      var j := i + 2 + |a|;
      assert n == j + 2 + |b|;
      AroundParts(t, k, x, a, b, i, j);
      hide RemarkText;
      WordsSkipped(t, k, x, '/', i, depth);
      OpenStep(t, i, depth);
      RemarkSkipped(t, i + 2, inner, j, depth + 1);
      CloseStep(t, j, depth + 1);
      RemarkSkipped(t, j + 2, rest, n, depth);
  }

  lemma OpenStep(t: string, i: nat, depth: nat)
    requires depth > 0 && Part(t, i, "/*")
    ensures CloseFrom(t, i, depth) == CloseFrom(t, i + 2, depth + 1)
  {
    var m := "/*";
    assert t[i + 0] == m[0] && t[i + 1] == m[1];
  }

  lemma CloseStep(t: string, i: nat, depth: nat)
    requires depth > 0 && Part(t, i, "*/")
    ensures CloseFrom(t, i, depth) == CloseFrom(t, i + 2, depth - 1)
  {
    var m := "*/";
    assert t[i + 0] == m[0] && t[i + 1] == m[1];
  }

  /** A comment as it is written ends where it was written to. */
  lemma RemarkEnds(t: string, remark: Remark, r: string)
    requires IsRemark(remark) && t == "/*" + (RemarkText(remark) + "*/") + r
    ensures |t| > 1 && t[0] == '/' && t[1] == '*' && CommentEnd(t, 0) == Some(4 + |RemarkText(remark)|)
  {
    var x := RemarkText(remark);
    var n := 2 + |x|;
    assert t[0] == '/' && t[1] == '*';
    hide CloseFrom, RemarkText, Part;
    RemarkParts(t, x, r);
    PartSplit(t, 2, x, "*/", n);
    RemarkSkipped(t, 2, remark, n, 1);
    CloseStep(t, n, 1);
    assert CloseFrom(t, n + 2, 0) == Some(n + 2) by { ClosedAlready(t, n + 2); }
  }

  lemma RemarkParts(t: string, x: string, r: string)
    requires t == "/*" + (x + "*/") + r
    ensures Part(t, 2, x + "*/")
  {
    var u := x + "*/";
    assert forall k :: 0 <= k < |u| ==> t[2 + k] == u[k];
  }

  lemma ClosedAlready(t: string, k: nat)
    ensures CloseFrom(t, k, 0) == Some(k)
  {
  }

  lemma CommentGoes(remark: Remark, r: string, bs: bool)
    requires IsRemark(remark)
    ensures var t := Written(Comment(remark)) + r;
            Stripped(t, CountedEnds(t), bs) == " " + Stripped(r, CountedEnds(r), bs)
  {
    var w := Written(Comment(remark));
    var t := w + r;
    RemarkEnds(t, remark, r);
    CommentPiece(t, bs, |w|);
    assert w[|w| - 1] == '/';
    hide CountedEnds, PieceAt;
    PieceThenRest(w, r, bs, 0, Blank(|w|));
  }

  lemma CommentPiece(t: string, bs: bool, end: nat)
    requires |t| > 1 && t[0] == '/' && t[1] == '*' && CommentEnd(t, 0) == Some(end)
    ensures PieceAt(t, CountedEnds(t), bs, 0, |t|, 0) == Blank(end)
  {
    hide CommentEnd;
  }

  // ----- literals -----

  lemma LiteralStays(prefix: string, q: char, signs: seq<Sign>, r: string, bs: bool)
    requires Stands(Literal(prefix, q, signs), r, bs)
    ensures var w := Written(Literal(prefix, q, signs));
            var t := w + r;
            Stripped(t, CountedEnds(t), bs) == w + Stripped(r, CountedEnds(r), bs)
  {
    var w := Written(Literal(prefix, q, signs));
    var t := w + r;
    LiteralPiece(t, w, prefix, q, signs, r, bs);
    var tail := [q] + Closing(signs, q);
    WithoutPrefix(prefix, q, signs, r);
    hide *;
    TextCopied(prefix, tail + r, bs, 0);
    PieceThenRest(w, r, bs, |prefix|, Keep(|w|));
    StrippedAt(t, bs);
    PrefixBack(prefix, tail, Stripped(r, CountedEnds(r), bs));
  }

  lemma WithoutPrefix(prefix: string, q: char, signs: seq<Sign>, r: string)
    requires PlainBefore(prefix, [q])
    ensures var tail := [q] + Closing(signs, q);
            && Written(Literal(prefix, q, signs)) == prefix + tail && (prefix + tail)[|prefix|..] == tail
            && prefix + tail + r == prefix + (tail + r) && PlainBefore(prefix, tail + r)
  {
    PlainLonger(prefix, q, [q] + Closing(signs, q) + r);
  }

  /** Only the first character behind the text matters. */
  lemma PlainLonger(x: string, c: char, r: string)
    requires PlainBefore(x, [c]) && r != "" && r[0] == c
    ensures PlainBefore(x, r)
  {
    var y, z := x + [c], x + r;
    hide PlainAt;
    forall k | 0 <= k < |x|
      ensures !CommentBegins(z, k)
    {
      assert !CommentBegins(y, k);
      assert z[k] == x[k] == y[k];
      assert z[k + 1] == (if k + 1 < |x| then x[k + 1] else c) == y[k + 1];
    }
  }

  lemma PrefixBack(x: string, y: string, z: string)
    ensures x[0..] + (y + z) == x + y + z
  {
  }

  lemma StrippedAt(t: string, bs: bool)
    ensures ValidEnds(t, CountedEnds(t))
    ensures Stripped(t, CountedEnds(t), bs) == Strip(t, CountedEnds(t), bs, 0, |t|, 0)
  {
    hide CountedEnds, Strip;
  }

  /** The literal is one piece, behind its prefix. */
  lemma LiteralPiece(t: string, w: string, prefix: string, q: char, signs: seq<Sign>, r: string, bs: bool)
    requires Stands(Literal(prefix, q, signs), r, bs) && w == Written(Literal(prefix, q, signs)) && t == w + r
    ensures |prefix| < |w| && Apart(w, r) && t[|prefix|] == q && QuoteEnd(t, |prefix|, bs, 0, |t|) == Some(|w|)
    ensures PieceAt(t, CountedEnds(t), bs, 0, |t|, |prefix|) == Keep(|w|)
  {
    var i, esc := |prefix|, q == '\'' && (bs || EndsInE(prefix));
    assert w[i] == q && (i > 0 ==> w[i - 1] == prefix[i - 1]) && (i > 1 ==> w[i - 2] == prefix[i - 2]);
    assert t[i] == q && (i > 0 ==> t[i - 1] == prefix[i - 1]) && (i > 1 ==> t[i - 2] == prefix[i - 2]);
    assert w[i + 1..] == Closing(signs, q) && t[i + 1..|w|] == w[i + 1..];
    hide Closing;
    ReadsClosing(t, q, esc, i + 1, |w|, |t|, signs);
    assert EscapeString(t, i, 0, bs) == esc;
    hide CountedEnds, QuoteEndFrom;
  }

  // ----- dollar quotes -----

  lemma QuoteRead(tag: string, u: string, r: string, bs: bool)
    requires IsTag(tag) && Apart(Delimiter(tag), r)
    requires OnlyAtEnd(u, Delimiter(tag))
    ensures var d := Delimiter(tag);
            var t := d + (u + d) + r;
            Stripped(t, CountedEnds(t), bs)
            == d + (Stripped(u, CountedEnds(u), bs) + d) + Stripped(r, CountedEnds(r), bs)
  {
    hide *;
    var d := Delimiter(tag);
    DelimiterSigns(tag);
    ApartBehind(d, u, r);
    QuoteParts(d + (u + d) + r, d, u, r);
    QuotePiece(d + (u + d) + r, d, tag, u, bs);
    BodyStripped(d + (u + d) + r, d + (u + d), d, u, r, bs, |d|, |d| + |u|);
    StrippedAt(u, bs);
    StrippedAt(r, bs);
    Regrouped(d, Stripped(u, CountedEnds(u), bs), Stripped(r, CountedEnds(r), bs));
  }

  lemma BodyStripped(t: string, w: string, d: string, u: string, r: string, bs: bool, n: nat, close: nat)
    requires n == |d| > 0 && close == n + |u| && |w| == close + n && t == w + r && Apart(w, r)
    requires t[0..n] == d && t[close..close + n] == d && Part(t, n, u) && Ends(t, n, u)
    requires PieceAt(t, CountedEnds(t), bs, 0, |t|, 0) == Body(n, close, close + n)
    ensures Stripped(t, CountedEnds(t), bs)
         == d + Stripped(u, CountedEnds(u), bs) + d + Stripped(r, CountedEnds(r), bs)
  {
    hide *;
    StrippedAt(u, bs);
    StrippedAt(t, bs);
    StripMoved(t, n, u, bs, 0, |u|, 0);
    StripAt(t, bs, 0, 0, Body(n, close, close + n));
    PieceText(t, CountedEnds(t), bs, 0, |t|, 0, Body(n, close, close + n));
    RestAlone(w, r, bs);
  }

  lemma Regrouped(d: string, u: string, r: string)
    ensures d + u + d + r == d + (u + d) + r
  {
  }

  lemma ApartBehind(d: string, u: string, r: string)
    requires Apart(d, r) && d != ""
    ensures Apart(d + (u + d), r)
  {
    var w := d + (u + d);
    assert w[|w| - 1] == d[|d| - 1];
  }

  lemma DelimiterSigns(tag: string)
    ensures var d := Delimiter(tag); |d| == |tag| + 2 && d[0] == '$'
  {
  }

  lemma QuoteParts(t: string, d: string, u: string, r: string)
    requires t == d + (u + d) + r
    ensures t[0..|d|] == d && t[|d| + |u|..|d| + |u| + |d|] == d
    ensures Part(t, |d|, u + d) && Part(t, |d|, u)
  {
    assert t == d + (u + (d + r));
    assert t[|d|..|d| + |u| + |d|] == u + d;
  }

  lemma QuotePiece(t: string, d: string, tag: string, u: string, bs: bool)
    requires IsTag(tag) && d == Delimiter(tag) && |d| == |tag| + 2 && d[0] == '$'
    requires |d| + |u| + |d| <= |t| && t[0..|d|] == d && t[|d| + |u|..|d| + |u| + |d|] == d
    requires Part(t, |d|, u + d) && Part(t, |d|, u)
    requires OnlyAtEnd(u, d)
    ensures PieceAt(t, CountedEnds(t), bs, 0, |t|, 0) == Body(|d|, |d| + |u|, |d| + |u| + |d|)
    ensures Ends(t, |d|, u) && t[0] == '$' && DelimiterAt(t, 0, 0, |t|) == Some(d)
    ensures FirstOccurrence(t, d, |d|, |t|) == Some(|d| + |u|)
  {
    hide *;
    QuoteOpens(t, d, tag, |d|, u);
    BodyEnds(t, |d|, u, d);
    BodyPiece(t, bs, d, |d| + |u|);
  }

  lemma QuoteOpens(t: string, d: string, tag: string, n: nat, u: string)
    requires IsTag(tag) && d == Delimiter(tag) && n == |d| == |tag| + 2 && d[0] == '$'
    requires n + |u| + n <= |t| && t[0..n] == d && t[n + |u|..n + |u| + n] == d && Part(t, n, u)
    ensures DelimiterFrom(t, 0) == Some(d) && Ends(t, n, u) && t[0] == '$' && DelimiterAt(t, 0, 0, |t|) == Some(d)
  {
    hide *;
    FirstOf(t, 0, n, d);
    FirstOf(t, n + |u|, n + |u| + n, d);
    DelimiterRead(t, 0, tag);
    QuoteContext(t, n, u, d);
  }

  lemma FirstOf(t: string, a: nat, b: nat, d: string)
    requires a < b <= |t| && t[a..b] == d
    ensures |d| == b - a && t[a] == d[0]
  {
  }

  lemma QuoteContext(t: string, n: nat, u: string, d: string)
    requires Part(t, n, u) && n == |d| >= 2 && n + |u| < |t| && t[n + |u|] == '$' && t[0] == '$'
    requires DelimiterFrom(t, 0) == Some(d)
    ensures Ends(t, n, u) && DelimiterAt(t, 0, 0, |t|) == Some(d)
  {
    hide DelimiterFrom;
  }

  /** The body ends where its delimiter first occurs. */
  lemma BodyPiece(t: string, bs: bool, d: string, close: nat)
    requires t != "" && t[0] == '$' && DelimiterFrom(t, 0) == Some(d) && |d| <= |t|
    requires FirstOccurrence(t, d, |d|, |t|) == Some(close)
    ensures PieceAt(t, CountedEnds(t), bs, 0, |t|, 0) == Body(|d|, close, close + |d|)
  {
    hide DelimiterFrom, FirstOccurrence, CountedEnds, QuoteEnd, LineEnd;
  }

  // ----- what is never closed -----

  /** A literal without a closing quote runs on to the end. */
  lemma OpenLiteralStays(q: char, x: string, bs: bool)
    requires IsQuote(q) && q !in x
    ensures var t := [q] + x; Stripped(t, CountedEnds(t), bs) == t
  {
    var t := [q] + x;
    assert forall k :: 1 <= k < |t| ==> t[k] == x[k - 1];
    NeverCloses(t, q, EscapeString(t, 0, 0, bs), 1, |t|);
    assert PieceAt(t, CountedEnds(t), bs, 0, |t|, 0) == Keep(|t|) by { hide CountedEnds, QuoteEndFrom; }
    assert [] + t == t + [] == t;
    PieceThenRest(t, "", bs, 0, Keep(|t|));
    assert t[0..] == t && Stripped("", CountedEnds(""), bs) == "";
  }

  /** A comment without a closing mark is none. */
  lemma OpenCommentStays(x: string, bs: bool)
    requires forall k :: 0 <= k < |x| - 1 ==> !(x[k] == '*' && x[k + 1] == '/')
    ensures var t, r := "/*" + x, "*" + x;
            Stripped(t, CountedEnds(t), bs) == "/" + Stripped(r, CountedEnds(r), bs)
  {
    var t, r := "/*" + x, "*" + x;
    assert t == "/" + r;
    assert forall k :: 2 <= k < |t| ==> t[k] == x[k - 2];
    NoMarkNoEnd(t, 2, 1);
    assert CommentEnd(t, 0).None?;
    assert PieceAt(t, CountedEnds(t), bs, 0, |t|, 0) == Keep(1);
    assert Apart("/", r);
    PieceThenRest("/", r, bs, 0, Keep(1));
  }

  lemma {:induction false} NoMarkNoEnd(t: string, k: nat, depth: nat)
    requires depth > 0 && forall i :: k <= i < |t| - 1 ==> !(t[i] == '*' && t[i + 1] == '/')
    ensures CloseFrom(t, k, depth).None?
    decreases |t| - k
  {
    if k < |t| {
      if OpensAt(t, k) {
        NoMarkNoEnd(t, k + 2, depth + 1);
      } else {
        NoMarkNoEnd(t, k + 1, depth);
      }
    }
  }

  /** A delimiter that does not come again opens nothing. */
  lemma OpenQuoteStays(tag: string, r: string, bs: bool)
    requires IsTag(tag) && Apart(Delimiter(tag), r)
    requires forall k: nat :: !OccursAt(r, Delimiter(tag), k)
    ensures var t := Delimiter(tag) + r;
            Stripped(t, CountedEnds(t), bs) == Delimiter(tag) + Stripped(r, CountedEnds(r), bs)
  {
    var d := Delimiter(tag);
    var t, n := d + r, |d|;
    assert t[0..n] == d && t[0] == d[0] == '$' && Part(t, n, r) && d[0..] == d;
    hide *;
    DelimiterExact(t, 0, d);
    NeverAgain(t, n, r, d);
    OpenPiece(t, bs, d);
    StrippedAt(t, bs);
    PieceThenRest(d, r, bs, 0, Keep(n));
  }

  lemma NeverAgain(t: string, n: nat, r: string, d: string)
    requires Part(t, n, r) && n == |d| > 0 && |t| == n + |r| && forall k: nat :: !OccursAt(r, d, k)
    ensures FirstOccurrence(t, d, n, |t|).None?
  {
    hide OccursAt, FirstOccurrence, Part;
    FirstOccurs(t, d, n, |t|);
    forall k | n <= k && k + n <= |t|
      ensures !OccursAt(t, d, k)
    {
      OccursMoved(t, n, r, d, k - n);
    }
  }

  lemma OpenPiece(t: string, bs: bool, d: string)
    requires t != "" && t[0] == '$' && DelimiterFrom(t, 0) == Some(d) && |d| <= |t|
    requires FirstOccurrence(t, d, |d|, |t|).None?
    ensures PieceAt(t, CountedEnds(t), bs, 0, |t|, 0) == Keep(|d|)
  {
    hide DelimiterFrom, FirstOccurrence, CountedEnds, QuoteEnd, LineEnd;
  }

  // ----- whole texts -----

  /** Whatever follows, the remover cleans the item and goes on with the rest. */
  lemma {:induction false} ItemCleaned(item: Item, r: string, bs: bool)
    requires Stands(item, r, bs)
    ensures var t := Written(item) + r;
            Stripped(t, CountedEnds(t), bs) == Cleaned(item) + Stripped(r, CountedEnds(r), bs)
    decreases item, 0
  {
    match item
    case Text(x) => TextStays(x, r, bs);
    case Line(x) => LineGoes(x, r, bs);
    case Comment(remark) => CommentGoes(remark, r, bs);
    case Literal(prefix, q, signs) => LiteralStays(prefix, q, signs, r, bs);
    case Quote(tag, body) =>
      AllCleaned(body, bs);
      QuoteRead(tag, WrittenAll(body), r, bs);
  }

  /** From a text put together from words, literals, comments and dollar quotes the remover takes its
      comments, and nothing else. */
  lemma {:induction false} AllCleaned(items: seq<Item>, bs: bool)
    requires WellWritten(items, bs)
    ensures var t := WrittenAll(items); Stripped(t, CountedEnds(t), bs) == CleanedAll(items)
    decreases items, 1
  {
    if items != [] {
      ItemCleaned(items[0], WrittenAll(items[1..]), bs);
      AllCleaned(items[1..], bs);
    }
  }

  /** The one-pass form does so exactly when it meets no comment that an earlier one hides from it. */
  lemma OnePassCleans(items: seq<Item>, bs: bool)
    requires WellWritten(items, bs)
    ensures var t := WrittenAll(items);
            Stripped(t, ReadEnds(t), bs) == CleanedAll(items) <==> !MeetsSkipped(t, bs, 0, |t|, 0)
  {
    AllCleaned(items, bs);
    OnePassExact(WrittenAll(items), bs);
  }
}
