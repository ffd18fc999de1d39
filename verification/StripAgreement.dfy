/** When the one-pass form and the form that counts from every opener agree. */
module StripAgreement {
  import opened Wrappers
  import opened SqlLexis
  import opened BlockComments
  import opened StripComments

  /** Reading lo..hi from i on gets to an opener that the comment map misses although the comment
      ends inside the range. */
  ghost predicate MeetsSkipped(t: string, bs: bool, lo: nat, hi: nat, i: nat)
    requires lo <= i <= hi <= |t|
    decreases hi - i
  {
    i < hi &&
    (HiddenComment(t, hi, i) ||
     match PieceAt(t, ReadEnds(t), bs, lo, hi, i)
     case Body(start, close, end) => MeetsSkipped(t, bs, start, close, start) || MeetsSkipped(t, bs, lo, hi, end)
     case p => MeetsSkipped(t, bs, lo, hi, p.end))
  }

  ghost predicate HiddenComment(t: string, hi: nat, i: nat) {
    i + 1 < hi && Skipped(t, i) && CommentEnd(t, i).Some? && CommentEnd(t, i).value <= hi
  }

  /** The two texts differ at a place that both have. */
  ghost predicate Diverge(a: string, b: string) {
    exists k :: 0 <= k < |a| && k < |b| && a[..k] == b[..k] && a[k] != b[k]
  }

  lemma DivergeInside(p: string, a: string, b: string, x: string, y: string)
    requires Diverge(a, b)
    ensures Diverge(p + a + x, p + b + y) && p + a + x != p + b + y
  {
    var k :| 0 <= k < |a| && k < |b| && a[..k] == b[..k] && a[k] != b[k];
    var m, u, v := |p| + k, p + a + x, p + b + y;
    assert u[..m] == p + a[..k] && v[..m] == p + b[..k] && u[m] == a[k] && v[m] == b[k];
  }

  lemma SamePiece(t: string, bs: bool, lo: nat, hi: nat, i: nat)
    requires lo <= i < hi <= |t|
    ensures var one, counted := PieceAt(t, ReadEnds(t), bs, lo, hi, i), PieceAt(t, CountedEnds(t), bs, lo, hi, i);
            if HiddenComment(t, hi, i) then one == Keep(i + 1) && counted.Blank? && t[i] == '/'
            else one == counted
  {
    hide QuoteEnd, DelimiterAt, FirstOccurrence, LineEnd;
  }

  lemma {:induction false} SameOrDiverge(t: string, bs: bool, lo: nat, hi: nat, i: nat)
    requires lo <= i <= hi <= |t|
    ensures var one, counted := Strip(t, ReadEnds(t), bs, lo, hi, i), Strip(t, CountedEnds(t), bs, lo, hi, i);
            if MeetsSkipped(t, bs, lo, hi, i) then Diverge(one, counted) else one == counted
    decreases hi - i
  {
    if i < hi {
      SamePiece(t, bs, lo, hi, i);
      SameOrDivergeFrom(t, bs, lo, hi, i, PieceAt(t, ReadEnds(t), bs, lo, hi, i));
    }
  }

  lemma {:induction false} SameOrDivergeFrom(t: string, bs: bool, lo: nat, hi: nat, i: nat, p: Piece)
    requires lo <= i < hi <= |t| && p == PieceAt(t, ReadEnds(t), bs, lo, hi, i)
    requires var counted := PieceAt(t, CountedEnds(t), bs, lo, hi, i);
             if HiddenComment(t, hi, i) then p == Keep(i + 1) && counted.Blank? && t[i] == '/' else p == counted
    ensures var one, counted := Strip(t, ReadEnds(t), bs, lo, hi, i), Strip(t, CountedEnds(t), bs, lo, hi, i);
            if MeetsSkipped(t, bs, lo, hi, i) then Diverge(one, counted) else one == counted
    decreases hi - i, 0
  {
    hide PieceAt, ReadEnds, CountedEnds, Diverge;
    var a, b := ReadEnds(t), CountedEnds(t);
    var one, counted := Strip(t, a, bs, lo, hi, p.end), Strip(t, b, bs, lo, hi, p.end);
    assert Strip(t, a, bs, lo, hi, i) == StripPiece(t, a, bs, lo, hi, i, p);
    if HiddenComment(t, hi, i) {
      var q := PieceAt(t, b, bs, lo, hi, i);
      assert Strip(t, b, bs, lo, hi, i) == StripPiece(t, b, bs, lo, hi, i, q);
      FirstDiffers(t[i..i + 1] + one, " " + Strip(t, b, bs, lo, hi, q.end));
    } else {
      assert Strip(t, b, bs, lo, hi, i) == StripPiece(t, b, bs, lo, hi, i, p);
      SameOrDiverge(t, bs, lo, hi, p.end);
      match p
      case Keep(end) =>
        Tail(t[i..end], one, counted);
      case Blank(end) =>
        Tail(" ", one, counted);
      case Body(start, close, end) =>
        SameOrDiverge(t, bs, start, close, start);
        var inOne, inCounted := Strip(t, a, bs, start, close, start), Strip(t, b, bs, start, close, start);
        Middle(t[i..start], inOne, inCounted, t[close..end], one, counted);
    }
  }

  lemma FirstDiffers(a: string, b: string)
    requires a != [] && b != [] && a[0] != b[0]
    ensures Diverge(a, b)
  {
    assert a[..0] == b[..0];
  }

  lemma Tail(p: string, a: string, b: string)
    ensures Diverge(a, b) ==> Diverge(p + a, p + b)
  {
    if Diverge(a, b) {
      DivergeInside(p, a, b, "", "");
      assert p + a + "" == p + a && p + b + "" == p + b;
    }
  }

  lemma Middle(p: string, a: string, b: string, q: string, x: string, y: string)
    ensures Diverge(a, b) ==> Diverge(p + a + q + x, p + b + q + y)
    ensures a == b && Diverge(x, y) ==> Diverge(p + a + q + x, p + b + q + y)
  {
    if Diverge(a, b) {
      DivergeInside(p, a, b, q + x, q + y);
      assert p + a + (q + x) == p + a + q + x && p + b + (q + y) == p + b + q + y;
    }
    if a == b && Diverge(x, y) {
      Tail(p + a + q, x, y);
    }
  }

  /** The one-pass form gives the text of the counting form exactly when it meets no hidden comment. */
  lemma OnePassExact(t: string, bs: bool)
    ensures Stripped(t, ReadEnds(t), bs) == Stripped(t, CountedEnds(t), bs) <==> !MeetsSkipped(t, bs, 0, |t|, 0)
  {
    SameOrDiverge(t, bs, 0, |t|, 0);
    var one, counted := Stripped(t, ReadEnds(t), bs), Stripped(t, CountedEnds(t), bs);
    if Diverge(one, counted) {
      var k :| 0 <= k < |one| && k < |counted| && one[..k] == counted[..k] && one[k] != counted[k];
    }
  }

  /** It does so for every text in which no closing mark is followed by a star. */
  lemma OnePassWithoutSharedSlash(t: string, bs: bool)
    requires forall k: nat :: !OccursAt(t, "*/*", k)
    ensures Stripped(t, ReadEnds(t), bs) == Stripped(t, CountedEnds(t), bs)
  {
    forall i: nat | OpensAt(t, i)
      ensures !Skipped(t, i)
    {
      SkippedSharesSlash(t, i);
      if Skipped(t, i) {
        assert OccursAt(t, "*/*", i - 1);
      }
    }
    NeverMeets(t, bs, 0, |t|, 0);
    OnePassExact(t, bs);
  }

  lemma {:induction false} NeverMeets(t: string, bs: bool, lo: nat, hi: nat, i: nat)
    requires lo <= i <= hi <= |t| && forall k: nat :: OpensAt(t, k) ==> !Skipped(t, k)
    ensures !MeetsSkipped(t, bs, lo, hi, i)
    decreases hi - i
  {
    if i < hi {
      var p := PieceAt(t, ReadEnds(t), bs, lo, hi, i);
      NeverMeets(t, bs, lo, hi, p.end);
      if p.Body? {
        NeverMeets(t, bs, p.start, p.close, p.start);
      }
    }
  }

  /** The forms do differ: an opener inside quotes takes the closing mark whose slash opens a comment. */
  lemma QuotedOpenerHidesComment()
    ensures var t := "'/*'*/**/"; Stripped(t, ReadEnds(t), false) != Stripped(t, CountedEnds(t), false)
  {
    var t := "'/*'*/**/";
    assert DepthAt(t, 3, 1, 4) == Some(1);
    assert DepthAt(t, 1, 0, 4) == Some(1);
    assert DepthAt(t, 0, 0, 4) == Some(1);
    SkippedSharesSlash(t, 5);
    assert CloseFrom(t, 7, 1) == Some(9);
    assert QuoteEndFrom(t, '\'', false, 3, 9) == Some(4);
    assert QuoteEndFrom(t, '\'', false, 1, 9) == Some(4);
    assert MeetsSkipped(t, false, 0, 9, 5);
    assert PieceAt(t, ReadEnds(t), false, 0, 9, 4) == Keep(5);
    assert PieceAt(t, ReadEnds(t), false, 0, 9, 0) == Keep(4);
    assert MeetsSkipped(t, false, 0, 9, 4);
    OnePassExact(t, false);
  }
}
