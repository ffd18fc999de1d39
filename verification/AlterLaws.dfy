/** What the range reader decides is the same behind any number of dollar quotes. */
module AlterLaws {
  import opened Wrappers
  import opened QuoteText
  import opened SqlLexis
  import opened TextParts
  import opened Placement
  import opened AlterTable

  // ----- a part of a text is read as if it were alone -----

  /** The heads of a text, found at `off` in another one. */
  predicate SameStarts(heads: Heads, moved: Heads, off: nat) {
    |moved| == |heads| && forall k :: 0 <= k < |heads| ==> moved[k].0 == off + heads[k].0
  }

  /** One that ends with the text of length n may go on behind it. */
  ghost predicate Shifted(heads: Heads, moved: Heads, off: nat, n: nat) {
    && SameStarts(heads, moved, off)
    && forall k :: 0 <= k < |heads| ==>
         moved[k].1 == off + heads[k].1 || (heads[k].1 == n && moved[k].1 >= off + n)
  }

  function MovedSpan(r: Span, off: nat): Span {
    Span(off + r.lo, off + r.hi, r.level)
  }

  function MovedSpans(rs: seq<Span>, off: nat): (r: seq<Span>)
    ensures |r| == |rs| && forall k :: 0 <= k < |rs| ==> r[k] == MovedSpan(rs[k], off)
  {
    seq(|rs|, k requires 0 <= k < |rs| => MovedSpan(rs[k], off))
  }

  function MovedCurrent(cur: Current, off: nat): Current {
    if cur.Altering? then cur.(from := off + cur.from, to := off + cur.to) else cur
  }

  function MovedTurn(o: Turn, off: nat): Turn {
    Turn(o.hit, off + o.next, MovedCurrent(o.cur, off), MovedSpans(o.inner, off))
  }

  lemma HeadsMoved(t: string, off: nat, u: string, heads: Heads, moved: Heads)
    requires Part(t, off, u) && AreHeads(u, heads)
    requires Shifted(heads, moved, off, |u|) && forall k :: 0 <= k < |moved| ==> moved[k].1 <= |t|
    ensures AreHeads(t, moved)
  {
    PartAt(t, off, u);
    forall k | 0 <= k < |moved|
      ensures moved[k].0 < moved[k].1 <= |t| && (t[moved[k].0] == 'A' || t[moved[k].0] == 'a')
    {
      assert t[off + heads[k].0] == u[heads[k].0];
    }
    forall j, k | 0 <= j < k < |moved|
      ensures moved[j].1 <= moved[k].0
    {
      assert heads[j].1 <= heads[k].0 < |u|;
    }
  }

  lemma FirstFromMoved(heads: Heads, moved: Heads, off: nat, p: nat)
    requires SameStarts(heads, moved, off)
    ensures FirstFrom(moved, off + p) == FirstFrom(heads, p)
  {
    var m := FirstFrom(moved, off + p);
    assert forall k :: 0 <= k < m ==> heads[k].0 == moved[k].0 - off < p;
    assert m < |heads| ==> heads[m].0 == moved[m].0 - off;
  }

  function MovedMove(m: Move, off: nat): Move {
    match m
    case Past(next) => Past(off + next)
    case Deeper(next, inner) => Deeper(off + next, MovedSpans(inner, off))
    case Mark(c) => m
  }

  lemma MoveMoved(t: string, off: nat, u: string, heads: Heads, moved: Heads, bs: bool, r: Span, i: nat)
    requires SameStarts(heads, moved, off)
    requires Part(t, off, u) && r.lo <= i < r.hi <= |u|
    ensures MoveAt(t, moved, bs, MovedSpan(r, off), off + i) == MovedMove(MoveAt(u, heads, bs, r, i), off)
  {
    assert t[off + i] == u[i] by { PartAt(t, off, u); }
    hide Part, FirstFrom;
    if bs && r.level > 0 && u[i] == '\\' {
    } else if IsQuote(u[i]) {
      QuoteMoved(t, off, u, heads, moved, bs, r, i);
    } else if u[i] == '$' {
      DollarMoved(t, off, u, heads, moved, bs, r, i);
    }
  }

  lemma QuoteMoved(t: string, off: nat, u: string, heads: Heads, moved: Heads, bs: bool, r: Span, i: nat)
    requires SameStarts(heads, moved, off)
    requires Part(t, off, u) && r.lo <= i < r.hi <= |u| && IsQuote(u[i]) && t[off + i] == u[i]
    ensures MoveAt(t, moved, bs, MovedSpan(r, off), off + i) == MovedMove(MoveAt(u, heads, bs, r, i), off)
  {
    hide Part, HeadIn, QuoteEnd, MovedSpans;
    var end := QuoteEnd(u, i, bs, r.lo, r.hi);
    var there := MoveAt(t, moved, bs, MovedSpan(r, off), off + i);
    QuoteEndShifted(t, off, u, bs, r.lo, r.hi, i);
    if end.Some? {
      HeadInMoved(heads, moved, off, i, end.value);
      MovedNone(off);
      MovedOne(Span(i + 1, end.value - 1, r.level + 1), off);
      assert there == MovedMove(MoveAt(u, heads, bs, r, i), off);
    } else {
      assert there == Past(off + i + 1);
    }
  }

  lemma QuoteEndShifted(t: string, off: nat, u: string, bs: bool, lo: nat, hi: nat, i: nat)
    requires Part(t, off, u) && lo <= i < hi <= |u| && t[off + i] == u[i]
    ensures QuoteEnd(t, off + i, bs, off + lo, off + hi) == TextParts.Moved(QuoteEnd(u, i, bs, lo, hi), off)
  {
    hide QuoteEndFrom, EscapeString;
    EscapeMoved(t, off, u, i, lo, bs);
    QuoteEndMoved(t, off, u, u[i], EscapeString(u, i, lo, bs), i + 1, hi);
  }

  lemma HeadInMoved(heads: Heads, moved: Heads, off: nat, i: nat, hi: nat)
    requires SameStarts(heads, moved, off)
    ensures HeadIn(moved, off + i, off + hi) == HeadIn(heads, i, hi)
  {
    hide FirstFrom;
    FirstFromMoved(heads, moved, off, i);
  }

  lemma MovedNone(off: nat)
    ensures MovedSpans([], off) == []
  {
  }

  lemma MovedOne(r: Span, off: nat)
    ensures MovedSpans([r], off) == [MovedSpan(r, off)]
  {
  }

  lemma DollarMoved(t: string, off: nat, u: string, heads: Heads, moved: Heads, bs: bool, r: Span, i: nat)
    requires SameStarts(heads, moved, off)
    requires Part(t, off, u) && r.lo <= i < r.hi <= |u| && u[i] == '$' && t[off + i] == u[i]
    ensures MoveAt(t, moved, bs, MovedSpan(r, off), off + i) == MovedMove(MoveAt(u, heads, bs, r, i), off)
  {
    hide Part, HeadIn, DelimiterAt, FirstOccurrence, MovedSpans;
    DelimiterMoved(t, off, u, i, r.lo, r.hi);
    var d := DelimiterAt(u, i, r.lo, r.hi);
    var there := MoveAt(t, moved, bs, MovedSpan(r, off), off + i);
    if d.None? {
      assert there == Mark('$');
    } else {
      OccurrenceMoved(t, off, u, d.value, i + |d.value|, r.hi);
      var close := FirstOccurrence(u, d.value, i + |d.value|, r.hi);
      if close.Some? {
        HeadInMoved(heads, moved, off, i, close.value);
        MovedNone(off);
        MovedOne(Span(i + |d.value|, close.value, r.level), off);
        assert there == MovedMove(MoveAt(u, heads, bs, r, i), off);
      } else {
        assert there == Mark('$');
      }
    }
  }

  lemma FinishMoved(t: string, off: nat, u: string, cur: Current)
    requires Part(t, off, u) && (cur.Altering? ==> cur.from <= cur.to <= |u|)
    ensures Finish(t, MovedCurrent(cur, off)) == Finish(u, cur)
  {
    if cur.Altering? {
      SliceMoved(t, off, u, cur.from, cur.to);
    }
  }

  lemma TurnMoved(t: string, off: nat, u: string, heads: Heads, moved: Heads, bs: bool, r: Span, i: nat, cur: Current)
    requires Shifted(heads, moved, off, |u|)
    requires Part(t, off, u) && Reads(u, heads, r, i, cur) && i < r.hi && AreHeads(t, moved)
    ensures TurnAt(t, moved, bs, MovedSpan(r, off), off + i, MovedCurrent(cur, off))
         == MovedTurn(TurnAt(u, heads, bs, r, i, cur), off)
  {
    hide MoveAt, MoveTurn, HeadTurn, Part, FirstFrom;
    FirstFromMoved(heads, moved, off, i);
    if AtHead(heads, i, cur) {
      var m := FirstFrom(heads, i);
      HeadTurnMoved(t, off, u, r, i, cur, heads[m].1, moved[m].1);
    } else {
      MoveMoved(t, off, u, heads, moved, bs, r, i);
      MoveTurnMoved(t, off, u, r, i, cur, MoveAt(u, heads, bs, r, i));
    }
  }

  lemma HeadTurnMoved(t: string, off: nat, u: string, r: Span, i: nat, cur: Current,
                      end: nat, there: nat)
    requires Part(t, off, u) && Standing(u, r, i, cur) && i < r.hi && i < end
    requires there == off + end || (end == |u| && there >= off + |u|)
    ensures HeadTurn(t, MovedSpan(r, off), off + i, MovedCurrent(cur, off), there)
         == MovedTurn(HeadTurn(u, r, i, cur, end), off)
  {
    hide Part, Finish;
    FinishMoved(t, off, u, cur);
    MovedNone(off);
  }

  lemma MoveTurnMoved(t: string, off: nat, u: string, r: Span, i: nat, cur: Current, m: Move)
    requires Part(t, off, u) && Standing(u, r, i, cur) && i < r.hi && Leads(m, i, r.hi)
    requires Leads(MovedMove(m, off), off + i, off + r.hi)
    ensures MoveTurn(t, MovedSpan(r, off), off + i, MovedCurrent(cur, off), MovedMove(m, off))
         == MovedTurn(MoveTurn(u, r, i, cur, m), off)
  {
    hide Part, Finish, After;
    FinishMoved(t, off, u, cur);
    MovedNone(off);
    hide MovedSpans;
    var there := MoveTurn(t, MovedSpan(r, off), off + i, MovedCurrent(cur, off), MovedMove(m, off));
    match m
    case Past(next) => assert there == Turn(false, off + next, MovedCurrent(Widened(cur, next), off), []);
    case Deeper(next, inner) =>
      assert there == Turn(false, off + next, MovedCurrent(Widened(cur, next), off), MovedSpans(inner, off));
    case Mark(c) =>
      if cur.Altering? {
        AfterMoved(t, off, u, cur, c, i);
      }
  }

  lemma AfterMoved(t: string, off: nat, u: string, cur: Current, c: char, i: nat)
    requires Part(t, off, u) && i < |u| && cur.Altering? && cur.from <= cur.to <= i
    ensures After(t, MovedCurrent(cur, off), c, off + i)
         == if After(u, cur, c, i).Some? then Some(MovedCurrent(After(u, cur, c, i).value, off)) else None
  {
    hide DropsColumn;
    SliceMoved(t, off, u, cur.from, i);
  }

  lemma MovedAppend(p: seq<Span>, q: seq<Span>, off: nat)
    ensures MovedSpans(p + q, off) == MovedSpans(p, off) + MovedSpans(q, off)
  {
  }

  lemma OverMoved(heads: Heads, moved: Heads, off: nat, r: Span, i: nat, cur: Current)
    requires SameStarts(heads, moved, off)
    ensures Over(moved, MovedSpan(r, off), off + i, MovedCurrent(cur, off)) == Over(heads, r, i, cur)
  {
    FirstFromMoved(heads, moved, off, i);
    hide FirstFrom;
  }

  lemma {:induction false} ScanMoved(t: string, off: nat, u: string, heads: Heads, moved: Heads, bs: bool,
                                     r: Span, i: nat, cur: Current)
    requires Shifted(heads, moved, off, |u|)
    requires Part(t, off, u) && Reads(u, heads, r, i, cur) && AreHeads(t, moved)
    ensures var s := Scan(u, heads, bs, r, i, cur);
            Scan(t, moved, bs, MovedSpan(r, off), off + i, MovedCurrent(cur, off))
            == Seen(s.hit, MovedSpans(s.inner, off))
    decreases r.hi - i
  {
    hide Scan, TurnAt, Finish, AreHeads, Part, Over, MovedSpans;
    var s := Scan(u, heads, bs, r, i, cur);
    var there := Scan(t, moved, bs, MovedSpan(r, off), off + i, MovedCurrent(cur, off));
    OverMoved(heads, moved, off, r, i, cur);
    ScanAt(u, heads, bs, r, i, cur);
    ScanAt(t, moved, bs, MovedSpan(r, off), off + i, MovedCurrent(cur, off));
    if Over(heads, r, i, cur) {
      FinishMoved(t, off, u, cur);
      assert there == Seen(s.hit, MovedSpans([], off)) by { MovedNone(off); }
    } else {
      NotOver(heads, r, i, cur);
      TurnMoved(t, off, u, heads, moved, bs, r, i, cur);
      var o := TurnAt(u, heads, bs, r, i, cur);
      var rest := Scan(u, heads, bs, r, o.next, o.cur);
      ScanMoved(t, off, u, heads, moved, bs, r, o.next, o.cur);
      assert there.hit == s.hit;
      assert there.inner == MovedSpans(o.inner, off) + MovedSpans(rest.inner, off);
      MovedAppend(o.inner, rest.inner, off);
    }
  }

  lemma NotOver(heads: Heads, r: Span, i: nat, cur: Current)
    requires !Over(heads, r, i, cur)
    ensures i < r.hi
  {
  }

  lemma {:induction false} DropsMoved(t: string, off: nat, u: string, heads: Heads, moved: Heads, bs: bool, r: Span)
    requires Shifted(heads, moved, off, |u|)
    requires Part(t, off, u) && AreHeads(u, heads) && r.lo <= r.hi <= |u| && AreHeads(t, moved)
    ensures Drops(t, moved, bs, MovedSpan(r, off)) == Drops(u, heads, bs, r)
    decreases r.hi - r.lo
  {
    hide Scan, AreHeads, Part, HeadIn;
    ScanMoved(t, off, u, heads, moved, bs, r, r.lo, Outside);
    InnerApart(u, heads, bs, r, r.lo, Outside);
    InnerApart(t, moved, bs, MovedSpan(r, off), off + r.lo, Outside);
    var s := Scan(u, heads, bs, r, r.lo, Outside);
    var m := MovedSpans(s.inner, off);
    forall k | 0 <= k < |s.inner|
      ensures Drops(t, moved, bs, m[k]) == Drops(u, heads, bs, s.inner[k])
    {
      DropsMoved(t, off, u, heads, moved, bs, s.inner[k]);
    }
  }

  // ----- dollar quotes around the text -----

  ghost predicate Fresh(d: string, u: string) {
    IsDelimiter(d) && FirstOccurrence(u + d, d, 0, |u| + |d|) == Some(|u|)
  }

  /** Wrapping the whole text in a dollar quote with a fresh tag changes nothing. The heads stay where they
      are; one at the end of the text may take in some of the closing delimiter. */
  lemma DropsInDollarQuote(u: string, heads: Heads, bs: bool, d: string, moved: Heads)
    requires AreHeads(u, heads) && Fresh(d, u)
    requires Shifted(heads, moved, |d|, |u|) && forall k :: 0 <= k < |moved| ==> moved[k].1 <= |d + u + d|
    ensures var t := d + u + d;
            AreHeads(t, moved) && Drops(t, moved, bs, Span(0, |t|, 0)) == Drops(u, heads, bs, Span(0, |u|, 0))
  {
    var t := d + u + d;
    assert Part(t, |d|, u);
    HeadsMoved(t, |d|, u, heads, moved);
    WrappedMove(u, d);
    hide *;
    DropsInBody(t, u, heads, moved, bs, d, |d| + |u|);
  }

  lemma DropsInBody(t: string, u: string, heads: Heads, moved: Heads, bs: bool, d: string, n: nat)
    requires AreHeads(u, heads) && Part(t, |d|, u) && AreHeads(t, moved) && Shifted(heads, moved, |d|, |u|)
    requires n == |d| + |u| && |t| == n + |d| && |d| >= 2 && t[0] == '$'
    requires DelimiterAt(t, 0, 0, |t|) == Some(d) && FirstOccurrence(t, d, |d|, |t|) == Some(n)
    ensures Drops(t, moved, bs, Span(0, |t|, 0)) == Drops(u, heads, bs, Span(0, |u|, 0))
  {
    hide Drops, Scan, DelimiterAt, FirstOccurrence, Part;
    if heads == [] {
      NoHeads(t, moved, bs, Span(0, |t|, 0));
      NoHeads(u, heads, bs, Span(0, |u|, 0));
    } else {
      assert |d| <= moved[0].0 < n;
      hide AreHeads;
      DropsMoved(t, |d|, u, heads, moved, bs, Span(0, |u|, 0));
      WrappedScan(t, moved, bs, d, n);
      DropsStep(t, moved, bs, Span(0, |t|, 0));
      AnyOne(t, moved, bs, Span(|d|, n, 0));
    }
  }

  /** A text that is one dollar quote: only its body is read, if a head starts in it. */
  lemma WrappedScan(t: string, heads: Heads, bs: bool, d: string, n: nat)
    requires AreHeads(t, heads) && heads != [] && |d| <= heads[0].0 < n && n + |d| == |t|
    requires |d| >= 2 && t[0] == '$' && DelimiterAt(t, 0, 0, |t|) == Some(d)
    requires FirstOccurrence(t, d, |d|, |t|) == Some(n)
    ensures Scan(t, heads, bs, Span(0, |t|, 0), 0, Outside) == Seen(false, [Span(|d|, n, 0)])
  {
    hide DelimiterAt, FirstOccurrence;
    var r, inner := Span(0, |t|, 0), [Span(|d|, n, 0)];
    assert FirstFrom(heads, 0) == 0;
    assert MoveAt(t, heads, bs, r, 0) == Deeper(|t|, inner);
    assert TurnAt(t, heads, bs, r, 0, Outside) == Turn(false, |t|, Outside, inner);
    hide TurnAt;
    assert Scan(t, heads, bs, r, |t|, Outside) == Seen(false, []);
    assert inner + [] == inner;
  }

  lemma NoHeads(t: string, heads: Heads, bs: bool, r: Span)
    requires AreHeads(t, heads) && heads == [] && r.lo <= r.hi <= |t|
    ensures !Drops(t, heads, bs, r)
  {
  }

  lemma WrappedMove(u: string, d: string)
    requires Fresh(d, u)
    ensures var t := d + u + d;
            && |d| >= 2 && t[0] == '$' && DelimiterAt(t, 0, 0, |t|) == Some(d)
            && FirstOccurrence(t, d, |d|, |t|) == Some(|d| + |u|)
  {
    var t := d + u + d;
    assert t[0] == d[0];
    assert OccursAt(t, d, 0) by { assert t[0..|d|] == d; }
    DelimiterOccurs(t, d, 0);
    assert Part(t, |d|, u + d) by { assert t == d + (u + d); }
    hide Part, FirstOccurrence;
    OccurrenceMoved(t, |d|, u + d, d, 0, |u| + |d|);
  }

  /** The text behind several dollar quotes, innermost first. */
  function Wrapped(u: string, ds: seq<string>): string {
    if ds == [] then u else ds[|ds| - 1] + Wrapped(u, ds[..|ds| - 1]) + ds[|ds| - 1]
  }

  /** Where the text starts behind them. */
  function Depth(u: string, ds: seq<string>): (off: nat)
    ensures off + |u| <= |Wrapped(u, ds)|
  {
    if ds == [] then 0 else |ds[|ds| - 1]| + Depth(u, ds[..|ds| - 1])
  }

  ghost predicate AllFresh(u: string, ds: seq<string>) {
    ds != [] ==> Fresh(ds[|ds| - 1], Wrapped(u, ds[..|ds| - 1])) && AllFresh(u, ds[..|ds| - 1])
  }

  /** The heads as they are without the outermost quote. */
  function Unwrapped(moved: Heads, d: nat, n: nat): (r: Heads)
    requires forall k :: 0 <= k < |moved| ==> d <= moved[k].0 < moved[k].1
    ensures |r| == |moved|
    ensures forall k :: 0 <= k < |r| ==>
              r[k] == (moved[k].0 - d, if moved[k].1 - d < n then moved[k].1 - d else n)
  {
    seq(|moved|, k requires 0 <= k < |moved| =>
          (moved[k].0 - d, if moved[k].1 - d < n then moved[k].1 - d else n))
  }

  lemma UnwrappedShifts(heads: Heads, moved: Heads, d: nat, off: nat, n: nat, w: nat)
    requires Shifted(heads, moved, d + off, n) && off + n <= w
    requires forall k :: 0 <= k < |heads| ==> heads[k].0 < heads[k].1 <= n
    ensures forall k :: 0 <= k < |moved| ==> d <= moved[k].0 < moved[k].1
    ensures var inner := Unwrapped(moved, d, w);
            && Shifted(heads, inner, off, n) && Shifted(inner, moved, d, w)
            && forall k :: 0 <= k < |inner| ==> inner[k].1 <= w
  {
    forall k | 0 <= k < |moved|
      ensures d <= moved[k].0 < moved[k].1
    {
      assert moved[k].0 == d + off + heads[k].0;
    }
  }

  lemma HeadsInside(u: string, heads: Heads)
    requires AreHeads(u, heads)
    ensures forall k :: 0 <= k < |heads| ==> heads[k].0 < heads[k].1 <= |u|
  {
  }

  lemma WrappedAt(u: string, ds: seq<string>)
    requires ds != []
    ensures var rest, d := ds[..|ds| - 1], ds[|ds| - 1];
            && Wrapped(u, ds) == d + Wrapped(u, rest) + d && Depth(u, ds) == |d| + Depth(u, rest)
            && Depth(u, rest) + |u| <= |Wrapped(u, rest)|
            && (AllFresh(u, ds) ==> Fresh(d, Wrapped(u, rest)) && AllFresh(u, rest))
  {
  }

  /** Nor does any depth of such dollar quotes. */
  lemma {:induction false} DropsInDollarQuotes(u: string, heads: Heads, bs: bool, ds: seq<string>, moved: Heads)
    requires AreHeads(u, heads) && AllFresh(u, ds) && Shifted(heads, moved, Depth(u, ds), |u|)
    requires forall k :: 0 <= k < |moved| ==> moved[k].1 <= |Wrapped(u, ds)|
    ensures var t := Wrapped(u, ds);
            AreHeads(t, moved) && Drops(t, moved, bs, Span(0, |t|, 0)) == Drops(u, heads, bs, Span(0, |u|, 0))
    decreases |ds|
  {
    if ds == [] {
      assert moved == heads;
    } else {
      var rest, d := ds[..|ds| - 1], ds[|ds| - 1];
      var w := Wrapped(u, rest);
      hide *;
      WrappedAt(u, ds);
      assert forall k :: 0 <= k < |heads| ==> heads[k].0 < heads[k].1 <= |u| by { HeadsInside(u, heads); }
      UnwrappedShifts(heads, moved, |d|, Depth(u, rest), |u|, |w|);
      var inner := Unwrapped(moved, |d|, |w|);
      DropsInDollarQuotes(u, heads, bs, rest, inner);
      DropsInDollarQuote(w, inner, bs, d, moved);
    }
  }

  // ----- quotes around the text -----

  /** A range that is one quoted literal is judged by what stands inside it, up to three quotes deep. */
  lemma DropsInLiteral(t: string, heads: Heads, bs: bool, r: Span)
    requires AreHeads(t, heads) && r.lo + 1 < r.hi <= |t| && IsQuote(t[r.lo])
    requires QuoteEnd(t, r.lo, bs, r.lo, r.hi) == Some(r.hi)
    ensures Drops(t, heads, bs, r) <==> r.level < 3 && Drops(t, heads, bs, Span(r.lo + 1, r.hi - 1, r.level + 1))
  {
    var inside := Span(r.lo + 1, r.hi - 1, r.level + 1);
    if HeadIn(heads, r.lo, r.hi) {
      LiteralScan(t, heads, bs, r, inside);
      hide *;
      DropsStep(t, heads, bs, r);
      AnyOne(t, heads, bs, inside);
      NoneDrops(t, heads, bs);
    } else {
      assert !HeadIn(heads, r.lo + 1, r.hi - 1);
      hide HeadIn;
      NoHeadNoDrop(t, heads, bs, r);
      NoHeadNoDrop(t, heads, bs, inside);
    }
  }

  lemma LiteralScan(t: string, heads: Heads, bs: bool, r: Span, inside: Span)
    requires AreHeads(t, heads) && r.lo + 1 < r.hi <= |t| && IsQuote(t[r.lo]) && HeadIn(heads, r.lo, r.hi)
    requires QuoteEnd(t, r.lo, bs, r.lo, r.hi) == Some(r.hi) && inside == Span(r.lo + 1, r.hi - 1, r.level + 1)
    ensures Scan(t, heads, bs, r, r.lo, Outside) == Seen(false, if r.level < 3 then [inside] else [])
  {
    var inner := if r.level < 3 then [inside] else [];
    assert !AtHead(heads, r.lo, Outside);
    assert MoveAt(t, heads, bs, r, r.lo) == Deeper(r.hi, inner) by { hide QuoteEnd, HeadIn; }
    hide QuoteEnd, FirstFrom;
    assert TurnAt(t, heads, bs, r, r.lo, Outside) == Turn(false, r.hi, Outside, inner);
    hide TurnAt, AtHead, HeadIn;
    assert Scan(t, heads, bs, r, r.hi, Outside) == Seen(false, []);
    assert inner + [] == inner;
    ScanAt(t, heads, bs, r, r.lo, Outside);
  }

  lemma NoHeadNoDrop(t: string, heads: Heads, bs: bool, r: Span)
    requires AreHeads(t, heads) && r.lo <= r.hi <= |t| && !HeadIn(heads, r.lo, r.hi)
    ensures !Drops(t, heads, bs, r)
  {
    hide HeadIn;
  }

  /** A head inside the parentheses of a statement begins no other one. */
  lemma HeadInParentheses(t: string, heads: Heads, bs: bool, r: Span, i: nat, depth: nat, from: nat, dropped: bool)
    requires AreHeads(t, heads) && r.lo <= from <= i < r.hi <= |t| && depth > 0 && (t[i] == 'A' || t[i] == 'a')
    ensures Scan(t, heads, bs, r, i, Altering(depth, from, i, dropped))
         == Scan(t, heads, bs, r, i + 1, Altering(depth, from, i + 1, dropped))
  {
    var cur, next := Altering(depth, from, i, dropped), Altering(depth, from, i + 1, dropped);
    hide *;
    StandsThere(t, heads, r, i, depth, from, dropped);
    LetterTurn(t, heads, bs, r, i, depth, from, dropped);
    Stepped(t, heads, bs, r, i, cur, i + 1, next);
  }

  lemma StandsThere(t: string, heads: Heads, r: Span, i: nat, depth: nat, from: nat, dropped: bool)
    requires AreHeads(t, heads) && r.lo <= from <= i < r.hi <= |t|
    ensures Reads(t, heads, r, i, Altering(depth, from, i, dropped))
    ensures !Over(heads, r, i, Altering(depth, from, i, dropped))
  {
    hide AreHeads;
  }

  lemma LetterTurn(t: string, heads: Heads, bs: bool, r: Span, i: nat, depth: nat, from: nat, dropped: bool)
    requires i < r.hi && from <= i && depth > 0 && Reads(t, heads, r, i, Altering(depth, from, i, dropped))
    requires t[i] == 'A' || t[i] == 'a'
    ensures TurnAt(t, heads, bs, r, i, Altering(depth, from, i, dropped))
         == Turn(false, i + 1, Altering(depth, from, i + 1, dropped), [])
  {
    hide QuoteEnd, FirstFrom, AreHeads, HeadIn, DelimiterFrom, FirstOccurrence;
    assert MoveAt(t, heads, bs, r, i) == Mark(t[i]);
    hide MoveAt;
  }

  /** A step that finds nothing. */
  lemma Stepped(t: string, heads: Heads, bs: bool, r: Span, i: nat, cur: Current, n: nat, next: Current)
    requires Reads(t, heads, r, i, cur) && !Over(heads, r, i, cur) && i < r.hi
    requires TurnAt(t, heads, bs, r, i, cur) == Turn(false, n, next, [])
    ensures Reads(t, heads, r, n, next) && Scan(t, heads, bs, r, i, cur) == Scan(t, heads, bs, r, n, next)
  {
    hide *;
    ScanAt(t, heads, bs, r, i, cur);
    var s := Scan(t, heads, bs, r, n, next);
    assert [] + s.inner == s.inner;
  }

  /** Where backslashes escape, one inside a literal hides the character behind it. */
  lemma BackslashHides(t: string, heads: Heads, r: Span, i: nat, depth: nat, from: nat, dropped: bool)
    requires AreHeads(t, heads) && r.lo <= from <= i < r.hi <= |t| && r.level > 0 && t[i] == '\\'
    ensures var n := if i + 2 <= r.hi then i + 2 else r.hi;
            Scan(t, heads, true, r, i, Altering(depth, from, i, dropped))
            == Scan(t, heads, true, r, n, Altering(depth, from, n, dropped))
  {
    var n := if i + 2 <= r.hi then i + 2 else r.hi;
    var cur, next := Altering(depth, from, i, dropped), Altering(depth, from, n, dropped);
    assert MoveAt(t, heads, true, r, i) == Past(n);
    hide *;
    StandsThere(t, heads, r, i, depth, from, dropped);
    CharIsNoHead(t, heads, i, cur);
    SkipTurn(t, heads, true, r, i, depth, from, dropped, n);
    Stepped(t, heads, true, r, i, cur, n, next);
  }

  lemma OpenQuoteMove(t: string, heads: Heads, bs: bool, r: Span, i: nat)
    requires r.lo <= i < r.hi <= |t| && (t[i] == '\'' || t[i] == '"') && forall k :: i < k < r.hi ==> t[k] != t[i]
    ensures MoveAt(t, heads, bs, r, i) == Past(i + 1)
  {
    hide QuoteEndFrom, EscapeString, HeadIn, DelimiterFrom, FirstOccurrence;
    NeverCloses(t, t[i], EscapeString(t, i, r.lo, bs), i + 1, r.hi);
  }

  /** A quote that does not come again in its range is a character like any other. */
  lemma OpenQuoteSkipped(t: string, heads: Heads, bs: bool, r: Span, i: nat, depth: nat, from: nat, dropped: bool)
    requires AreHeads(t, heads) && r.lo <= from <= i < r.hi <= |t| && (t[i] == '\'' || t[i] == '"')
    requires forall k :: i < k < r.hi ==> t[k] != t[i]
    ensures Scan(t, heads, bs, r, i, Altering(depth, from, i, dropped))
         == Scan(t, heads, bs, r, i + 1, Altering(depth, from, i + 1, dropped))
  {
    var cur, next := Altering(depth, from, i, dropped), Altering(depth, from, i + 1, dropped);
    hide *;
    OpenQuoteMove(t, heads, bs, r, i);
    CharIsNoHead(t, heads, i, cur);
    StandsThere(t, heads, r, i, depth, from, dropped);
    SkipTurn(t, heads, bs, r, i, depth, from, dropped, i + 1);
    Stepped(t, heads, bs, r, i, cur, i + 1, next);
  }

  lemma CharIsNoHead(t: string, heads: Heads, i: nat, cur: Current)
    requires AreHeads(t, heads) && i < |t| && t[i] != 'A' && t[i] != 'a'
    ensures !AtHead(heads, i, cur)
  {
    hide FirstFrom;
  }

  lemma SkipTurn(t: string, heads: Heads, bs: bool, r: Span, i: nat, depth: nat, from: nat, dropped: bool, n: nat)
    requires i < r.hi && from <= i && Reads(t, heads, r, i, Altering(depth, from, i, dropped))
    requires !AtHead(heads, i, Altering(depth, from, i, dropped)) && MoveAt(t, heads, bs, r, i) == Past(n)
    ensures TurnAt(t, heads, bs, r, i, Altering(depth, from, i, dropped))
         == Turn(false, n, Altering(depth, from, n, dropped), [])
  {
    hide AtHead, MoveAt, AreHeads, FirstFrom;
  }
}
