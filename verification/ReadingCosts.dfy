/** What the readings cost on texts as they are written: every character that is looked at, once. */
module ReadingCosts {
  import opened AlterAgreement
  import opened AlterStatements
  import opened BlockComments
  import opened LowerBoundAlter
  import opened LowerBoundStrip
  import opened Placement
  import opened QuoteText
  import opened SqlLexis
  import opened StripComments
  import opened StripLaws
  import opened StripSlices
  import opened TextParts
  import opened Wrappers

  // ----- quotes -----

  /** The search for the closing quote stops at it. */
  lemma {:induction false} StopAtClosing(t: string, q: char, esc: bool, j: nat)
    requires QuoteEndFrom(t, q, esc, j, |t|).Some?
    ensures QuoteStop(t, q, esc, j) + 1 == QuoteEndFrom(t, q, esc, j, |t|).value
  {
  }

  /** A literal costs the distance from its opening to its closing quote. */
  lemma QuoteCharged(t: string, i: nat)
    requires i < |t| && QuoteEnd(t, i, false, 0, |t|).Some?
    ensures QuoteCost(t, i) + i + 1 == QuoteEnd(t, i, false, 0, |t|).value
  {
  }

  // ----- the recursive comment remover -----

  lemma {:induction false} StopMoved(t: string, off: nat, u: string, q: char, esc: bool, j: nat)
    requires Part(t, off, u) && off + |u| == |t|
    ensures QuoteStop(t, q, esc, off + j) == off + QuoteStop(u, q, esc, j)
    decreases |u| - j
  {
    if j < |u| {
      PartAt(t, off, u);
      assert t[off + j] == u[j] && (j + 1 < |u| ==> t[off + (j + 1)] == u[j + 1]);
      hide Part;
      if esc && u[j] == '\\' {
        StopMoved(t, off, u, q, esc, j + 2);
      } else if u[j] != q {
        StopMoved(t, off, u, q, esc, j + 1);
      } else if j + 1 < |u| && u[j + 1] == q {
        StopMoved(t, off, u, q, esc, j + 2);
      }
    }
  }

  lemma CommentEndMoved(t: string, off: nat, u: string, i: nat)
    requires Part(t, off, u) && off + |u| == |t| && i + 1 < |u|
    ensures CommentEnd(t, off + i) == Moved(CommentEnd(u, i), off)
  {
    CloseMoved(t, off, u, i + 2, 1);
    if CommentEnd(t, off + i).Some? && CommentEnd(u, i).None? {
      assert CommentEnd(t, off + i).value <= |t|;
    }
  }

  /** One look costs the same in the text and in its end. */
  lemma LookMoved(t: string, off: nat, u: string, i: nat)
    requires Part(t, off, u) && off + |u| == |t| && i < |u| && Apart(t[..off], t[off..])
    ensures PieceCost(t, off + i) == PieceCost(u, i)
  {
    hide QuoteStop, EscapeString, DelimiterFrom, FirstOccurrence, LineEnd, CommentEnd, IdentChar;
    PartAt(t, off, u);
    assert i + 1 < |u| ==> t[off + (i + 1)] == u[i + 1];
    if IsQuote(u[i]) {
      EscapeAlone(t, off, u, i);
      StopMoved(t, off, u, u[i], EscapeString(u, i, 0, false), i + 1);
    } else if u[i] == '$' {
      DollarAlone(t, off, u, i);
    } else if u[i] == '-' {
      LineEndMoved(t, off, u, i, |u|);
    } else if OpensAt(u, i) {
      CommentEndMoved(t, off, u, i);
    }
  }

  lemma EscapeAlone(t: string, off: nat, u: string, i: nat)
    requires Part(t, off, u) && i < |u| && off + |u| == |t| && Apart(t[..off], t[off..])
    ensures EscapeString(t, off + i, 0, false) == EscapeString(u, i, 0, false)
  {
    EscapeMoved(t, off, u, i, 0, false);
    PartAt(t, off, u);
    assert t[off..][0] == t[off] && (off > 0 ==> t[..off][off - 1] == t[off - 1]);
  }

  lemma DollarAlone(t: string, off: nat, u: string, i: nat)
    requires Part(t, off, u) && i < |u| && off + |u| == |t| && Apart(t[..off], t[off..]) && u[i] == '$'
    ensures LowerBoundStrip.DollarCost(t, off + i) == LowerBoundStrip.DollarCost(u, i)
  {
    hide DelimiterAt, FirstOccurrence, Part, Apart;
    DelimiterAlone(t, off, u, i);
    var d := DelimiterAt(u, i, 0, |u|);
    if d.Some? {
      OccurrenceMoved(t, off, u, d.value, i + |d.value|, |u|);
      assert off + (i + |d.value|) == off + i + |d.value|;
    }
  }

  lemma DelimiterAlone(t: string, off: nat, u: string, i: nat)
    requires Part(t, off, u) && i < |u| && off + |u| == |t| && Apart(t[..off], t[off..]) && u[i] == '$'
    ensures DelimiterAt(t, off + i, 0, |t|) == DelimiterAt(u, i, 0, |u|)
  {
    hide DelimiterFrom;
    PartAt(t, off, u);
    assert t[off..][0] == t[off] && (off > 0 ==> t[..off][off - 1] == t[off - 1]);
    DelimiterMoved(t, off, u, i, 0, |u|);
  }

  lemma {:induction false} CostAlone(t: string, off: nat, u: string, i: nat)
    requires Part(t, off, u) && off + |u| == |t| && i <= |u| && Apart(t[..off], t[off..])
    ensures StripCost(t, off + i) == StripCost(u, i)
    decreases |u| - i
  {
    hide *;
    if i == |u| {
      StripCostEnd(t);
      StripCostEnd(u);
    } else {
      CountedFit(t);
      CountedFit(u);
      var p := PieceAt(u, CountedEnds(u), false, 0, |u|, i);
      PieceAlone(t, off, u, i, p);
      LookMoved(t, off, u, i);
      CostAlone(t, off, u, p.end);
      StripCostAt(u, i, p);
      StripCostAt(t, off + i, MovedPiece(p, off));
      PartsMoved(t, off, u, p);
    }
  }

  lemma CountedFit(t: string)
    ensures ValidEnds(t, CountedEnds(t))
  {
    hide CountedEnds;
  }

  lemma PieceAlone(t: string, off: nat, u: string, i: nat, p: Piece)
    requires Part(t, off, u) && off + |u| == |t| && i < |u| && Apart(t[..off], t[off..])
    requires p == PieceAt(u, CountedEnds(u), false, 0, |u|, i)
    ensures PieceAt(t, CountedEnds(t), false, 0, |t|, off + i) == MovedPiece(p, off) && i < p.end <= |u|
  {
    hide PieceAt, CountedEnds, Part, Apart;
    EndsWithText(t, off, u);
    SameAtStart(t, false, off, off + i);
    PieceMoved(t, off, u, false, 0, |u|, i);
  }

  lemma EndsWithText(t: string, off: nat, u: string)
    requires Part(t, off, u) && off + |u| == |t|
    ensures Ends(t, off, u)
  {
  }

  lemma PartsMoved(t: string, off: nat, u: string, p: Piece)
    requires Part(t, off, u) && p.end <= |u| && (p.Body? ==> p.start <= p.close <= p.end)
    ensures MovedPiece(p, off).end == off + p.end && (MovedPiece(p, off).Body? <==> p.Body?)
    ensures p.Body? ==> var q := MovedPiece(p, off); t[q.start..q.close] == u[p.start..p.close]
  {
    if p.Body? {
      SliceMoved(t, off, u, p.start, p.close);
    }
  }

  /** What a written item costs. */
  function Cost(item: Item): nat
    decreases item, 0
  {
    match item
    case Text(x) => |x|
    case Line(x) => |x| + 3
    case Comment(remark) => |RemarkText(remark)| + 5
    case Literal(prefix, q, signs) => |prefix| + |Inside(signs, q)| + 2
    case Quote(tag, body) => 1 + |Delimiter(tag)| + |WrittenAll(body)| + CostAll(body)
  }

  function CostAll(items: seq<Item>): nat
    decreases items, 1
  {
    if items == [] then 0 else Cost(items[0]) + CostAll(items[1..])
  }

  /** The rest of the text costs what it costs alone. */
  lemma RestCost(w: string, r: string)
    requires Apart(w, r)
    ensures StripCost(w + r, |w|) == StripCost(r, 0)
  {
    var t, p := w + r, |w|;
    assert t[..p] == w && t[p..] == r && Part(t, p, r);
    CostAlone(t, p, r, 0);
  }

  lemma {:induction false} TextCost(x: string, r: string, i: nat)
    requires PlainBefore(x, r) && i <= |x|
    ensures StripCost(x + r, i) == |x| - i + StripCost(x + r, |x|)
    decreases |x| - i
  {
    if i < |x| {
      PlainPiece(x, r, false, i);
      PlainLook(x, r, i);
      TextCost(x, r, i + 1);
      hide PieceAt, PieceCost, StripCost, CountedEnds;
      StripCostAt(x + r, i, Keep(i + 1));
    }
  }

  lemma PlainLook(x: string, r: string, i: nat)
    requires PlainBefore(x, r) && i < |x|
    ensures PieceCost(x + r, i) == 0
  {
    var t := x + r;
    assert t[i] == x[i] && (i > 0 ==> t[i - 1] == x[i - 1]);
    assert PlainAt(x, i) && !CommentBegins(t, i);
    hide NoneBegins, QuoteCost, DollarCost, LineEnd, CommentEnd, IdentChar;
    if t[i] == '$' {
      BehindName(t, i);
    }
  }

  lemma BehindName(t: string, i: nat)
    requires 0 < i < |t| && IdentChar(t[i - 1])
    ensures LowerBoundStrip.DollarCost(t, i) == 0
  {
    hide IdentChar, DelimiterFrom, FirstOccurrence;
  }

  /** The step and the look at the start of w, which is one piece, and the rest. */
  lemma OneLook(w: string, r: string, i: nat, piece: Piece, look: nat)
    requires Apart(w, r) && i < |w| && piece.end == |w| && !piece.Body?
    requires PieceAt(w + r, CountedEnds(w + r), false, 0, |w + r|, i) == piece && PieceCost(w + r, i) == look
    ensures StripCost(w + r, i) == 1 + look + StripCost(r, 0)
  {
    hide PieceAt, PieceCost, StripCost, CountedEnds;
    StripCostAt(w + r, i, piece);
    RestCost(w, r);
  }

  lemma {:induction false} ItemCharged(item: Item, r: string)
    requires Stands(item, r, false)
    ensures StripCost(Written(item) + r, 0) == Cost(item) + StripCost(r, 0)
    decreases item, 0
  {
    match item
    case Text(x) =>
      TextCost(x, r, 0);
      RestCost(x, r);
    case Line(x) =>
      LinePiece(x, r, false);
      assert PieceCost("--" + x + r, 0) == |x| + 2 by { hide LineEnd; }
      OneLook("--" + x, r, 0, Blank(|x| + 2), |x| + 2);
    case Comment(remark) =>
      CommentCharged(remark, r);
    case Literal(prefix, q, signs) =>
      LiteralCharged(prefix, q, signs, r);
    case Quote(tag, body) =>
      AllCharged(body);
      QuoteBodyCharged(tag, body, r);
  }

  lemma CommentCharged(remark: Remark, r: string)
    requires IsRemark(remark)
    ensures StripCost(Written(Comment(remark)) + r, 0) == |RemarkText(remark)| + 5 + StripCost(r, 0)
  {
    var w := Written(Comment(remark));
    var t := w + r;
    RemarkEnds(t, remark, r);
    CommentPiece(t, false, |w|);
    assert w[|w| - 1] == '/' && Apart(w, r);
    hide CommentEnd, PieceAt, CountedEnds;
    OneLook(w, r, 0, Blank(|w|), |w|);
  }

  lemma LiteralCharged(prefix: string, q: char, signs: seq<Sign>, r: string)
    requires Stands(Literal(prefix, q, signs), r, false)
    ensures StripCost(Written(Literal(prefix, q, signs)) + r, 0)
         == |prefix| + |Inside(signs, q)| + 2 + StripCost(r, 0)
  {
    var w, tail := Written(Literal(prefix, q, signs)), [q] + Closing(signs, q);
    var t, n := w + r, |prefix|;
    LiteralPiece(t, w, prefix, q, signs, r, false);
    WithoutPrefix(prefix, q, signs, r);
    LiteralLook(t, w, prefix, q, signs, r);
    hide *;
    OneLook(w, r, n, Keep(|w|), |w| - n - 1);
    TextCost(prefix, tail + r, 0);
    LiteralSize(prefix, q, signs);
  }

  lemma LiteralSize(prefix: string, q: char, signs: seq<Sign>)
    ensures |Written(Literal(prefix, q, signs))| == |prefix| + |Inside(signs, q)| + 2
  {
  }

  lemma LiteralLook(t: string, w: string, prefix: string, q: char, signs: seq<Sign>, r: string)
    requires Stands(Literal(prefix, q, signs), r, false) && w == Written(Literal(prefix, q, signs)) && t == w + r
    ensures |prefix| < |w| && PieceCost(t, |prefix|) == |w| - |prefix| - 1
  {
    LiteralPiece(t, w, prefix, q, signs, r, false);
    hide QuoteEnd, Written, QuoteCost;
    QuoteCharged(t, |prefix|);
  }

  lemma QuoteBodyCharged(tag: string, body: seq<Item>, r: string)
    requires Stands(Quote(tag, body), r, false) && StripCost(WrittenAll(body), 0) == CostAll(body)
    ensures StripCost(Written(Quote(tag, body)) + r, 0) == Cost(Quote(tag, body)) + StripCost(r, 0)
  {
    var d, u := Delimiter(tag), WrittenAll(body);
    var w := d + (u + d);
    var t := w + r;
    hide *;
    DelimiterSigns(tag);
    QuoteParts(t, d, u, r);
    BodySlice(d, u, r);
    QuoteStands(tag, body, r);
    QuotePiece(t, d, tag, u, false);
    ApartBehind(d, u, r);
    DollarLookCost(t, d, |d| + |u|);
    StripCostAt(t, 0, Body(|d|, |d| + |u|, |w|));
    RestCost(w, r);
  }

  lemma BodySlice(d: string, u: string, r: string)
    ensures (d + (u + d) + r)[|d|..|d| + |u|] == u
  {
  }

  lemma QuoteStands(tag: string, body: seq<Item>, r: string)
    requires Stands(Quote(tag, body), r, false)
    ensures var d, u := Delimiter(tag), WrittenAll(body);
            && Written(Quote(tag, body)) == d + (u + d) && IsTag(tag) && Apart(d, r)
            && OnlyAtEnd(u, d)
            && Cost(Quote(tag, body)) == 1 + |d| + |u| + CostAll(body)
  {
    var d, u := Delimiter(tag), WrittenAll(body);
    assert (d + (u + d))[|d + (u + d)| - 1] == d[|d| - 1];
  }

  lemma DollarLookCost(t: string, d: string, close: nat)
    requires t != "" && t[0] == '$' && DelimiterAt(t, 0, 0, |t|) == Some(d)
    requires FirstOccurrence(t, d, |d|, |t|) == Some(close)
    ensures PieceCost(t, 0) == close
  {
    hide DelimiterAt, FirstOccurrence;
  }

  /** On a text put together from words, comments, literals and dollar quotes the recursive form spends what
      its parts cost. */
  lemma {:induction false} AllCharged(items: seq<Item>)
    requires WellWritten(items, false)
    ensures StripCost(WrittenAll(items), 0) == CostAll(items)
    decreases items, 1
  {
    if items != [] {
      ItemCharged(items[0], WrittenAll(items[1..]));
      AllCharged(items[1..]);
    }
  }

  // ----- the lower bound reader of ALTER TABLE -----

  lemma {:induction false} ActionCharged(t: string, p: nat, a: string, e: nat, k: nat, i: nat, depth: nat)
    requires Placed(t, p, a, e) && k <= |a| && i == p + k && PlainAction(a, k, depth, false, false)
    ensures e <= |t| && ActionsCost(t, i, depth) == |a| - k + ActionsCost(t, e, 0)
    decreases |a| - k
  {
    hide QuoteEnd, Placed, QuoteCost;
    PlacedEnd(t, p, a, e);
    if k < |a| {
      PlacedAt(t, p, a, e, k);
      if IsQuote(a[k]) {
        QuotePlaced(t, p, a, e, k, false);
        var end := QuoteEnd(a, k, false, 0, |a|).value;
        QuoteCharged(t, i);
        ActionCharged(t, p, a, e, end, p + end, depth);
      } else {
        ActionCharged(t, p, a, e, k + 1, i + 1, if a[k] == '(' then depth + 1 else if a[k] == ')' then depth - 1 else depth);
      }
    }
  }

  /** Reading the actions of a statement costs a step for every character of them, literals included, and one
      for the semicolon. */
  lemma {:induction false} ActionsCharged(t: string, p: nat, actions: seq<string>, tail: string)
    requires actions != [] && EndsStatement(tail) && Separate(t, p) && t[p..] == Joined(actions) + tail
    requires forall a | a in actions :: PlainAction(a, 0, 0, false, false)
    ensures ActionsCost(t, p, 0) == |Joined(actions)| + if tail == "" then 0 else 1
    decreases |actions|
  {
    hide PlainAction, Placed;
    var a := actions[0];
    var e := p + |a|;
    FirstPlaced(t, p, actions, tail, e);
    ActionCharged(t, p, a, e, 0, p, 0);
    if |actions| > 1 {
      ActionsCharged(t, e + 1, actions[1..], tail);
    }
  }
}
