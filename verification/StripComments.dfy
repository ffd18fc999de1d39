/** Removing SQL comments: what the text means, the one-pass form with explicit
    frames, and the recursive form that works on slices. */
module StripComments {
  import opened Wrappers
  import opened SqlLexis
  import opened BlockComments

  /** How reading goes on at one position of a range. */
  datatype Piece =
    | Keep(end: nat)                            // copied up to end
    | Blank(end: nat)                           // a comment up to end, replaced by a blank
    | Body(start: nat, close: nat, end: nat)    // a dollar-quoted body between two delimiters

  /** The first line break of the range, or its end. */
  function LineEnd(t: string, i: nat, hi: nat): (r: nat)
    requires i <= hi <= |t|
    ensures i <= r <= hi && (r < hi ==> t[r] == '\n')
    ensures forall k :: i <= k < r ==> t[k] != '\n'
    decreases hi - i
  {
    if i < hi && t[i] != '\n' then LineEnd(t, i + 1, hi) else i
  }

  predicate ValidEnds(t: string, ends: CommentEnds) {
    forall i | i in ends :: i + 4 <= ends[i] <= |t|
  }

  function PieceAt(t: string, ends: CommentEnds, bs: bool, lo: nat, hi: nat, i: nat): (r: Piece)
    requires lo <= i < hi <= |t| && ValidEnds(t, ends)
    ensures i < r.end <= hi
    ensures r.Body? ==> i < r.start <= r.close && r.end == r.close + (r.start - i) && t[i] == '$'
  {
    var c := t[i];
    if IsQuote(c) then
      var end := QuoteEnd(t, i, bs, lo, hi);
      Keep(if end.Some? then end.value else hi)
    else if c == '$' then
      var d := DelimiterAt(t, i, lo, hi);
      if d.None? then Keep(i + 1)
      else
        var start := i + |d.value|;
        var close := FirstOccurrence(t, d.value, start, hi);
        if close.None? then Keep(start) else Body(start, close.value, close.value + |d.value|)
    else if c == '-' && i + 1 < hi && t[i + 1] == '-' then Blank(LineEnd(t, i + 1, hi))
    else if c == '/' && i + 1 < hi && t[i + 1] == '*' && i in ends && ends[i] <= hi then Blank(ends[i])
    else Keep(i + 1)
  }

  /** The delimiter that opens a body closes it. */
  lemma BodyDelimiters(t: string, ends: CommentEnds, bs: bool, lo: nat, hi: nat, i: nat)
    requires lo <= i < hi <= |t| && ValidEnds(t, ends) && PieceAt(t, ends, bs, lo, hi, i).Body?
    ensures var p := PieceAt(t, ends, bs, lo, hi, i); OccursAt(t, t[i..p.start], p.close) && t[p.close] == t[i] == '$'
  {
    var d := DelimiterAt(t, i, lo, hi).value;
    var start := i + |d|;
    assert t[i..start] == d && d[0] == t[i];
    hide DelimiterAt;
    FirstOccurs(t, d, start, hi);
    var close := FirstOccurrence(t, d, start, hi).value;
    assert t[close + 0] == d[0];
  }

  /** The text of lo..hi from i on without its comments; dollar-quoted bodies are read on their own. */
  function Strip(t: string, ends: CommentEnds, bs: bool, lo: nat, hi: nat, i: nat): string
    requires lo <= i <= hi <= |t| && ValidEnds(t, ends)
    decreases hi - i, 1
  {
    if i == hi then "" else StripPiece(t, ends, bs, lo, hi, i, PieceAt(t, ends, bs, lo, hi, i))
  }

  function StripPiece(t: string, ends: CommentEnds, bs: bool, lo: nat, hi: nat, i: nat, p: Piece): string
    requires lo <= i < p.end <= hi <= |t| && ValidEnds(t, ends)
    requires p.Body? ==> i < p.start <= p.close <= p.end
    decreases hi - i, 0
  {
    match p
    case Keep(end) => t[i..end] + Strip(t, ends, bs, lo, hi, end)
    case Blank(end) => " " + Strip(t, ends, bs, lo, hi, end)
    case Body(start, close, end) =>
      t[i..start] + Strip(t, ends, bs, start, close, start) + t[close..end] + Strip(t, ends, bs, lo, hi, end)
  }

  function Stripped(t: string, ends: CommentEnds, bs: bool): string
    requires ValidEnds(t, ends)
  {
    Strip(t, ends, bs, 0, |t|, 0)
  }

  // ----- one pass over ranges -----

  datatype Frame = Frame(delim: string, lo: nat, hi: nat)

  /** What follows once the innermost range ends at hi. */
  ghost function Unwound(t: string, ends: CommentEnds, bs: bool, frames: seq<Frame>, hi: nat): string
    requires ValidEnds(t, ends) && Nested(t, frames, hi)
  {
    if frames == [] then ""
    else
      var f := frames[|frames| - 1];
      f.delim + Strip(t, ends, bs, f.lo, f.hi, hi + |f.delim|)
      + Unwound(t, ends, bs, frames[..|frames| - 1], f.hi)
  }

  /** The ranges lie inside each other and each but the last ends where a delimiter stands. */
  ghost predicate Nested(t: string, frames: seq<Frame>, hi: nat) {
    if frames == [] then hi == |t|
    else
      var f := frames[|frames| - 1];
      && f.lo <= hi && |f.delim| > 0 && f.delim[0] == '$' && hi + |f.delim| <= f.hi <= |t|
      && OccursAt(t, f.delim, hi)
      && Nested(t, frames[..|frames| - 1], f.hi)
  }

  lemma NestedEnd(t: string, frames: seq<Frame>, hi: nat)
    requires Nested(t, frames, hi)
    ensures hi <= |t| && (hi < |t| ==> t[hi] == '$')
  {
    if frames != [] {
      var f := frames[|frames| - 1];
      assert t[hi + 0] == f.delim[0];
    }
  }

  /** What has been written, what is still to be copied and what is still to be read make up the result. */
  ghost predicate Reading(t: string, ends: CommentEnds, bs: bool,
                          out: string, frames: seq<Frame>, lo: nat, hi: nat, i: nat, run: nat)
    ensures Reading(t, ends, bs, out, frames, lo, hi, i, run) ==>
              && ValidEnds(t, ends) && lo <= run <= i <= hi <= |t| && (hi < |t| ==> t[hi] == '$')
              && (frames != [] ==> var f := frames[|frames| - 1]; f.lo <= hi < hi + |f.delim| <= f.hi)
  {
    && ValidEnds(t, ends) && Nested(t, frames, hi)
    && lo <= run <= i <= hi <= |t| && (hi < |t| ==> t[hi] == '$')
    && out + t[run..i] + Strip(t, ends, bs, lo, hi, i) + Unwound(t, ends, bs, frames, hi) == Stripped(t, ends, bs)
  }

  lemma Regroup(a: string, b: string, c: string, d: string)
    ensures a + b + (c + d) == a + (b + c) + d
  {
  }

  lemma Kept(t: string, ends: CommentEnds, bs: bool,
             out: string, frames: seq<Frame>, lo: nat, hi: nat, i: nat, run: nat, end: nat)
    requires Reading(t, ends, bs, out, frames, lo, hi, i, run) && i < hi
    requires PieceAt(t, ends, bs, lo, hi, i) == Keep(end)
    ensures Reading(t, ends, bs, out, frames, lo, hi, end, run)
  {
    hide Nested, Unwound, PieceAt, Stripped;
    assert t[run..end] == t[run..i] + t[i..end];
    assert Strip(t, ends, bs, lo, hi, i) == StripPiece(t, ends, bs, lo, hi, i, Keep(end));
    Regroup(out, t[run..i], t[i..end], Strip(t, ends, bs, lo, hi, end));
  }

  lemma Blanked(t: string, ends: CommentEnds, bs: bool,
                out: string, frames: seq<Frame>, lo: nat, hi: nat, i: nat, run: nat, end: nat)
    requires Reading(t, ends, bs, out, frames, lo, hi, i, run) && i < hi
    requires PieceAt(t, ends, bs, lo, hi, i) == Blank(end)
    ensures Reading(t, ends, bs, out + t[run..i] + " ", frames, lo, hi, end, end)
  {
    assert t[end..end] == "";
    assert Strip(t, ends, bs, lo, hi, i) == StripPiece(t, ends, bs, lo, hi, i, Blank(end));
    assert out + t[run..i] + (" " + Strip(t, ends, bs, lo, hi, end))
        == out + t[run..i] + " " + t[end..end] + Strip(t, ends, bs, lo, hi, end);
  }

  lemma NestedInside(t: string, ends: CommentEnds, bs: bool, frames: seq<Frame>, f: Frame, close: nat)
    requires ValidEnds(t, ends) && Nested(t, frames, f.hi)
    requires f.lo <= close && close + |f.delim| <= f.hi && OccursAt(t, f.delim, close)
    requires |f.delim| > 0 && f.delim[0] == '$'
    ensures Nested(t, frames + [f], close) && t[close] == '$'
    ensures Unwound(t, ends, bs, frames + [f], close)
         == f.delim + Strip(t, ends, bs, f.lo, f.hi, close + |f.delim|) + Unwound(t, ends, bs, frames, f.hi)
  {
    hide Strip;
    var inner := frames + [f];
    NestedEnd(t, frames, f.hi);
    assert inner[..|inner| - 1] == frames && inner[|inner| - 1] == f;
    assert t[close + 0] == f.delim[0];
  }

  lemma Opened(t: string, ends: CommentEnds, bs: bool, out: string, frames: seq<Frame>,
               lo: nat, hi: nat, i: nat, run: nat, start: nat, close: nat, delim: string)
    requires Reading(t, ends, bs, out, frames, lo, hi, i, run) && i < hi
    requires PieceAt(t, ends, bs, lo, hi, i) == Body(start, close, close + |delim|)
    requires |delim| > 0 && delim[0] == '$' && OccursAt(t, delim, close)
    ensures Reading(t, ends, bs, out + t[run..start], frames + [Frame(delim, lo, hi)], start, close, start, start)
  {
    hide PieceAt, Stripped, Nested, Unwound, OccursAt;
    OccursText(t, delim, close);
    NestedInside(t, ends, bs, frames, Frame(delim, lo, hi), close);
    var body, rest := Strip(t, ends, bs, start, close, start), Strip(t, ends, bs, lo, hi, close + |delim|);
    assert t[run..start] == t[run..i] + t[i..start];
    assert t[start..start] == "";
    assert Strip(t, ends, bs, lo, hi, i) == StripPiece(t, ends, bs, lo, hi, i, Body(start, close, close + |delim|));
    RegroupBody(out, t[run..i], t[i..start], body, delim, rest, Unwound(t, ends, bs, frames, hi));
  }

  lemma RegroupBody(a: string, b: string, c: string, body: string, delim: string, rest: string, outer: string)
    ensures a + b + (c + body + delim + rest) + outer == a + (b + c) + "" + body + (delim + rest + outer)
    ensures a + b + "" + (delim + rest + outer) == a + b + delim + rest + outer
  {
  }

  lemma Closed(t: string, ends: CommentEnds, bs: bool, out: string, frames: seq<Frame>, lo: nat, hi: nat, run: nat)
    requires Reading(t, ends, bs, out, frames, lo, hi, hi, run) && frames != []
    ensures var f := frames[|frames| - 1];
            Reading(t, ends, bs, out + t[run..hi], frames[..|frames| - 1], f.lo, f.hi, hi + |f.delim|, hi)
  {
    var f, fewer := frames[|frames| - 1], frames[..|frames| - 1];
    assert Nested(t, fewer, f.hi) && OccursAt(t, f.delim, hi);
    NestedEnd(t, fewer, f.hi);
    var rest := Strip(t, ends, bs, f.lo, f.hi, hi + |f.delim|);
    var outer := Unwound(t, ends, bs, fewer, f.hi);
    assert Unwound(t, ends, bs, frames, hi) == f.delim + rest + outer;
    assert Strip(t, ends, bs, lo, hi, hi) == "";
    hide Stripped, Nested, Unwound, OccursAt, Strip;
    assert t[hi..hi + |f.delim|] == f.delim by { OccursText(t, f.delim, hi); }
    RegroupBody(out, t[run..hi], "", "", f.delim, rest, outer);
  }

  lemma StartReading(t: string, ends: CommentEnds, bs: bool)
    requires ValidEnds(t, ends)
    ensures Reading(t, ends, bs, "", [], 0, |t|, 0, 0)
  {
    assert "" + t[0..0] + Stripped(t, ends, bs) + "" == Stripped(t, ends, bs);
  }

  lemma EndReading(t: string, ends: CommentEnds, bs: bool, out: string, lo: nat, hi: nat, i: nat, run: nat)
    requires Reading(t, ends, bs, out, [], lo, hi, i, run) && i == hi
    ensures hi == |t| && out + t[run..hi] == Stripped(t, ends, bs)
  {
    assert out + t[run..i] + "" + "" == out + t[run..i];
  }

  /** Whatever the next piece is, the reading goes on behind it. */
  lemma Onward(t: string, ends: CommentEnds, bs: bool,
               out: string, frames: seq<Frame>, lo: nat, hi: nat, i: nat, run: nat)
    requires Reading(t, ends, bs, out, frames, lo, hi, i, run) && i < hi
    ensures var p := PieceAt(t, ends, bs, lo, hi, i);
            && (p.Keep? ==> Reading(t, ends, bs, out, frames, lo, hi, p.end, run))
            && (p.Blank? ==> Reading(t, ends, bs, out + t[run..i] + " ", frames, lo, hi, p.end, p.end))
            && (p.Body? ==> Reading(t, ends, bs, out + t[run..p.start], frames + [Frame(t[i..p.start], lo, hi)],
                                    p.start, p.close, p.start, p.start))
  {
    hide Reading, PieceAt, OccursAt;
    match PieceAt(t, ends, bs, lo, hi, i)
    case Keep(end) => Kept(t, ends, bs, out, frames, lo, hi, i, run, end);
    case Blank(end) => Blanked(t, ends, bs, out, frames, lo, hi, i, run, end);
    case Body(start, close, end) =>
      BodyDelimiters(t, ends, bs, lo, hi, i);
      assert t[i..start][0] == t[i];
      Opened(t, ends, bs, out, frames, lo, hi, i, run, start, close, t[i..start]);
  }

  /** One look at position i, with the delimiter index and the comment map at hand. */
  method NextPiece(text: string, index: DollarIndex, known: Option<CommentEnds>, bs: bool, lo: nat, hi: nat, i: nat)
    returns (piece: Piece, comments: Option<CommentEnds>)
    requires lo <= i < hi <= |text| && (hi < |text| ==> text[hi] == '$')
    requires Indexes(index, text, |text|)
    requires known.Some? ==> known.value == ReadEnds(text)
    ensures comments.Some? ==> comments.value == ReadEnds(text)
    ensures piece == PieceAt(text, ReadEnds(text), bs, lo, hi, i)
  {
    hide ReadEnds, QuoteEnd, FirstOccurrence, DelimiterFrom, Indexes;
    comments := known;
    var c := text[i];
    if IsQuote(c) {
      var end := FindQuoteEnd(text, i, bs, lo, hi);
      piece := Keep(if end.None? then hi else end.value);
    } else if c == '$' {
      var d := DelimiterAt(text, i, lo, hi);
      if d.None? {
        piece := Keep(i + 1);
      } else {
        DelimiterIsOne(text, i);
        var start := i + |d.value|;
        var close := NextDollar(index, text, d.value, start, hi);
        piece := if close.None? then Keep(start) else Body(start, close.value, close.value + |d.value|);
      }
    } else if c == '-' && i + 1 < |text| && text[i + 1] == '-' {
      piece := Blank(LineEnd(text, i, hi));
    } else if c == '/' && i + 1 < |text| && text[i + 1] == '*' {
      if comments.None? {
        var m := BuildCommentMap(text);
        comments := Some(m);
      }
      piece := if i !in comments.value || comments.value[i] > hi then Keep(i + 1) else Blank(comments.value[i]);
    } else {
      piece := Keep(i + 1);
    }
  }

  method StripOnePass(text: string, bs: bool) returns (r: string)
    ensures r == Stripped(text, ReadEnds(text), bs)
  {
    hide Reading, ReadEnds, Stripped, PieceAt, Indexes;
    var index := BuildDollarIndex(text);
    var comments: Option<CommentEnds> := None;
    ghost var ends := ReadEnds(text);
    var out := "";
    var frames: seq<Frame> := [];
    var lo: nat, hi: nat, i: nat, run: nat := 0, |text|, 0, 0;
    StartReading(text, ends, bs);
    while true
      invariant Reading(text, ends, bs, out, frames, lo, hi, i, run)
      invariant comments.Some? ==> comments.value == ends
      decreases |text| - i, |frames|
    {
      if i >= hi {
        if frames == [] {
          break;
        }
        Closed(text, ends, bs, out, frames, lo, hi, run);
        out := out + text[run..hi];
        var f := frames[|frames| - 1];
        frames := frames[..|frames| - 1];
        run := hi;
        i := hi + |f.delim|;
        lo, hi := f.lo, f.hi;
        continue;
      }
      Onward(text, ends, bs, out, frames, lo, hi, i, run);
      var piece;
      piece, comments := NextPiece(text, index, comments, bs, lo, hi, i);
      match piece {
        case Keep(end) =>
          i := end;
        case Blank(end) =>
          out := out + text[run..i] + " ";
          i, run := end, end;
        case Body(start, close, end) =>
          out := out + text[run..start];
          frames := frames + [Frame(text[i..start], lo, hi)];
          lo, hi, i, run := start, close, start, start;
      }
    }
    EndReading(text, ends, bs, out, lo, hi, i, run);
    r := out + text[run..hi];
  }
}
