/** Reading a slice on its own is reading its range in the whole text. */
module StripSlices {
  import opened Wrappers
  import opened SqlLexis
  import opened BlockComments
  import opened StripComments
  import opened TextParts

  /** The part ends with the text or before a '$'. */
  ghost predicate Ends(t: string, off: nat, u: string)
    requires Part(t, off, u)
  {
    off + |u| < |t| ==> t[off + |u|] == '$'
  }

  lemma {:induction false} LineEndMoved(t: string, off: nat, u: string, i: nat, hi: nat)
    requires Part(t, off, u) && i <= hi <= |u|
    ensures LineEnd(t, off + i, off + hi) == off + LineEnd(u, i, hi)
    decreases hi - i
  {
    PartAt(t, off, u);
    if i < hi && u[i] != '\n' {
      LineEndMoved(t, off, u, i + 1, hi);
    }
  }

  /** A comment that ends inside the part ends there in the whole text too, and conversely. */
  lemma {:induction false} CloseMoved(t: string, off: nat, u: string, k: nat, depth: nat)
    requires Part(t, off, u) && Ends(t, off, u) && k <= |u|
    ensures CloseFrom(u, k, depth).Some? ==> CloseFrom(t, off + k, depth) == Moved(CloseFrom(u, k, depth), off)
    ensures CloseFrom(u, k, depth).None? && CloseFrom(t, off + k, depth).Some? ==>
              CloseFrom(t, off + k, depth).value > off + |u|
    decreases |u| - k
  {
    PartAt(t, off, u);
    if depth > 0 && k < |u| {
      assert OpensAt(t, off + k) == OpensAt(u, k) && ClosesAt(t, off + k) == ClosesAt(u, k);
      if OpensAt(u, k) {
        CloseMoved(t, off, u, k + 2, depth + 1);
      } else if ClosesAt(u, k) {
        CloseMoved(t, off, u, k + 2, depth - 1);
      } else {
        CloseMoved(t, off, u, k + 1, depth);
      }
    }
  }

  lemma CommentMoved(t: string, off: nat, u: string, hi: nat, i: nat)
    requires Part(t, off, u) && Ends(t, off, u) && i < hi <= |u| && OpensAt(u, i)
    ensures var counted, within := CountedEnds(t), CountedEnds(u);
            && (off + i in counted && counted[off + i] <= off + hi <==> i in within && within[i] <= hi)
            && (i in within && within[i] <= hi ==> counted[off + i] == off + within[i])
  {
    PartAt(t, off, u);
    CloseMoved(t, off, u, i + 2, 1);
  }

  function MovedPiece(p: Piece, off: nat): Piece {
    match p
    case Keep(end) => Keep(off + end)
    case Blank(end) => Blank(off + end)
    case Body(start, close, end) => Body(off + start, off + close, off + end)
  }

  lemma PieceMoved(t: string, off: nat, u: string, bs: bool, lo: nat, hi: nat, i: nat)
    requires Part(t, off, u) && Ends(t, off, u) && lo <= i < hi <= |u|
    ensures PieceAt(t, CountedEnds(t), bs, off + lo, off + hi, off + i)
         == MovedPiece(PieceAt(u, CountedEnds(u), bs, lo, hi, i), off)
  {
    hide CountedEnds, DelimiterAt, FirstOccurrence, QuoteEndFrom;
    PartAt(t, off, u);
    var c := u[i];
    if IsQuote(c) {
      EscapeMoved(t, off, u, i, lo, bs);
      QuoteEndMoved(t, off, u, c, EscapeString(u, i, lo, bs), i + 1, hi);
    } else if c == '$' {
      BodyMoved(t, off, u, bs, lo, hi, i);
    } else if c == '-' {
      LineEndMoved(t, off, u, i + 1, hi);
    } else if c == '/' && i + 1 < hi && u[i + 1] == '*' {
      CommentMoved(t, off, u, hi, i);
    }
  }

  lemma BodyMoved(t: string, off: nat, u: string, bs: bool, lo: nat, hi: nat, i: nat)
    requires Part(t, off, u) && Ends(t, off, u) && lo <= i < hi <= |u| && u[i] == '$'
    ensures PieceAt(t, CountedEnds(t), bs, off + lo, off + hi, off + i)
         == MovedPiece(PieceAt(u, CountedEnds(u), bs, lo, hi, i), off)
  {
    hide CountedEnds, DelimiterAt, FirstOccurrence;
    PartAt(t, off, u);
    DelimiterMoved(t, off, u, i, lo, hi);
    var d := DelimiterAt(u, i, lo, hi);
    if d.Some? {
      OccurrenceMoved(t, off, u, d.value, i + |d.value|, hi);
    }
  }

  lemma {:induction false} StripMoved(t: string, off: nat, u: string, bs: bool, lo: nat, hi: nat, i: nat)
    requires Part(t, off, u) && Ends(t, off, u) && lo <= i <= hi <= |u|
    ensures Strip(t, CountedEnds(t), bs, off + lo, off + hi, off + i) == Strip(u, CountedEnds(u), bs, lo, hi, i)
    decreases hi - i, 1
  {
    if i < hi {
      PieceMoved(t, off, u, bs, lo, hi, i);
      StripPieceMoved(t, off, u, bs, lo, hi, i, PieceAt(u, CountedEnds(u), bs, lo, hi, i));
    }
  }

  /** One piece and what follows it. */
  lemma PieceText(t: string, ends: CommentEnds, bs: bool, lo: nat, hi: nat, i: nat, p: Piece)
    requires lo <= i < p.end <= hi <= |t| && ValidEnds(t, ends)
    requires p.Body? ==> i < p.start <= p.close <= p.end
    ensures var rest, text := Strip(t, ends, bs, lo, hi, p.end), StripPiece(t, ends, bs, lo, hi, i, p);
            && (p.Keep? ==> text == t[i..p.end] + rest)
            && (p.Blank? ==> text == " " + rest)
            && (p.Body? ==>
                  text == t[i..p.start] + Strip(t, ends, bs, p.start, p.close, p.start) + t[p.close..p.end] + rest)
  {
    hide Strip, ValidEnds;
  }

  lemma {:induction false} StripPieceMoved(t: string, off: nat, u: string, bs: bool, lo: nat, hi: nat, i: nat, p: Piece)
    requires Part(t, off, u) && Ends(t, off, u) && lo <= i < p.end <= hi <= |u|
    requires p.Body? ==> i < p.start <= p.close <= p.end
    ensures StripPiece(t, CountedEnds(t), bs, off + lo, off + hi, off + i, MovedPiece(p, off))
         == StripPiece(u, CountedEnds(u), bs, lo, hi, i, p)
    decreases hi - i, 0
  {
    hide CountedEnds, Part, Strip, StripPiece, Ends;
    StripMoved(t, off, u, bs, lo, hi, p.end);
    PieceText(u, CountedEnds(u), bs, lo, hi, i, p);
    PieceText(t, CountedEnds(t), bs, off + lo, off + hi, off + i, MovedPiece(p, off));
    match p
    case Keep(end) => SliceMoved(t, off, u, i, end);
    case Blank(_) =>
    case Body(start, close, end) =>
      StripMoved(t, off, u, bs, start, close, start);
      SliceMoved(t, off, u, i, start);
      SliceMoved(t, off, u, close, end);
  }
}
