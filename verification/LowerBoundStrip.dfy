/** The form of the comment remover that the lower bound detector keeps: slices,
    linear searches, a depth counter per comment, and a budget of steps. */
module LowerBoundStrip {
  import opened Wrappers
  import opened SqlLexis
  import opened BlockComments
  import opened StripComments
  import opened StripSlices
  import opened TextParts

  /** Steps used so far; going over the limit is an error that the caller turns into a detection. */
  class Budget {
    var used: nat
    const limit: nat

    constructor (length: nat)
      ensures used == 0 && limit == 100 * length + 60000000
    {
      used := 0;
      limit := 100 * length + 60000000;
    }

    method Tick(n: nat) returns (within: bool)
      modifies this
      ensures used == old(used) + n && within == (used <= limit)
    {
      used := used + n;
      within := used <= limit;
    }
  }

  /** Where the search for the closing quote stops: at the quote, or behind the text. */
  function QuoteStop(t: string, q: char, esc: bool, j: nat): (stop: nat)
    ensures j <= stop && stop <= (if j <= |t| then |t| + 1 else j)
    ensures QuoteEndFrom(t, q, esc, j, |t|).Some? ==> QuoteEndFrom(t, q, esc, j, |t|).value == stop + 1
    decreases |t| - j
  {
    if j >= |t| then j
    else if esc && t[j] == '\\' then QuoteStop(t, q, esc, j + 2)
    else if t[j] != q then QuoteStop(t, q, esc, j + 1)
    else if j + 1 < |t| && t[j + 1] == q then QuoteStop(t, q, esc, j + 2)
    else j
  }

  /** What the search costs that starts at the quote at i. */
  function QuoteCost(t: string, i: nat): (n: nat)
    requires i < |t|
    ensures n <= |t| + 1 - i
  {
    QuoteStop(t, t[i], EscapeString(t, i, 0, false), i + 1) - i
  }

  /** The cost was paid from what had been used before, or giving up was due: they go over the limit. */
  ghost predicate Paid(before: nat, cost: nat, w: Budget, gaveUp: bool)
    reads w
  {
    if gaveUp then before + cost > w.limit && w.used > w.limit
    else before + cost <= w.limit && w.used == before + cost
  }

  /** None when the budget ran out. */
  method FindQuoteEndTicking(t: string, i: nat, w: Budget) returns (r: Option<Option<nat>>)
    requires i < |t| && w.used <= w.limit
    modifies w
    ensures Paid(old(w.used), QuoteCost(t, i), w, r.None?)
    ensures r.Some? ==> r.value == QuoteEnd(t, i, false, 0, |t|)
  {
    var q := t[i];
    var esc := EscapeString(t, i, 0, false);
    var j := i + 1;
    while j < |t|
      invariant i < j
      invariant QuoteEnd(t, i, false, 0, |t|) == QuoteEndFrom(t, q, esc, j, |t|)
      invariant QuoteCost(t, i) == QuoteStop(t, q, esc, j) - i
    {
      var c := t[j];
      if esc && c == '\\' {
        j := j + 2;
        continue;
      }
      if c == q {
        if j + 1 < |t| && t[j + 1] == q {
          j := j + 2;
          continue;
        }
        var within := w.Tick(j - i);
        return if within then Some(Some(j + 1)) else None;
      }
      j := j + 1;
    }
    var within := w.Tick(j - i);
    return if within then Some(None) else None;
  }

  /** Where the comment that opens at i ends, counting the depth. */
  method CountComment(t: string, i: nat) returns (k: nat, depth: nat)
    requires OpensAt(t, i)
    ensures i + 2 <= k <= |t|
    ensures CommentEnd(t, i) == if depth > 0 then None else Some(k)
    ensures depth > 0 ==> k == |t|
  {
    depth, k := 1, i + 2;
    while k < |t| && depth > 0
      invariant i + 2 <= k <= |t|
      invariant CommentEnd(t, i) == CloseFrom(t, k, depth)
    {
      if OpensAt(t, k) {
        depth, k := depth + 1, k + 2;
      } else if ClosesAt(t, k) {
        depth, k := depth - 1, k + 2;
      } else {
        k := k + 1;
      }
    }
  }

  /** What one look at position i costs, besides the step for the position itself. */
  function PieceCost(t: string, i: nat): nat
    requires i < |t|
  {
    if IsQuote(t[i]) then QuoteCost(t, i)
    else if t[i] == '$' then DollarCost(t, i)
    else if t[i] == '-' && i + 1 < |t| && t[i + 1] == '-' then LineEnd(t, i, |t|) - i
    else if OpensAt(t, i) then (if CommentEnd(t, i).Some? then CommentEnd(t, i).value else |t|) - i
    else 0
  }

  /** What the search for the closing delimiter costs, if one opens at i. */
  function DollarCost(t: string, i: nat): (n: nat)
    requires i < |t|
    ensures n <= |t| - i
  {
    var d := DelimiterAt(t, i, 0, |t|);
    if d.None? then 0
    else
      var close := FirstOccurrence(t, d.value, i + |d.value|, |t|);
      (if close.None? then |t| else close.value) - i
  }

  /** The next piece of the text, read with the counted ends. */
  method NextPieceTicking(t: string, i: nat, w: Budget) returns (r: Option<Piece>)
    requires i < |t| && w.used <= w.limit
    modifies w
    ensures Paid(old(w.used), PieceCost(t, i), w, r.None?)
    ensures r.Some? ==> r.value == PieceAt(t, CountedEnds(t), false, 0, |t|, i)
  {
    hide QuoteEnd, QuoteCost, FirstOccurrence, DelimiterFrom, CommentEnd;
    var c := t[i];
    if IsQuote(c) {
      var end := FindQuoteEndTicking(t, i, w);
      if end.None? {
        return None;
      }
      return Some(Keep(if end.value.None? then |t| else end.value.value));
    }
    if c == '$' {
      var d := DelimiterAt(t, i, 0, |t|);
      if d.None? {
        return Some(Keep(i + 1));
      }
      var start := i + |d.value|;
      var close := FirstOccurrence(t, d.value, start, |t|);
      var within := w.Tick((if close.None? then |t| else close.value) - i);
      if !within {
        return None;
      }
      return Some(if close.None? then Keep(start) else Body(start, close.value, close.value + |d.value|));
    }
    if c == '-' && i + 1 < |t| && t[i + 1] == '-' {
      var j := LineEnd(t, i, |t|);
      var within := w.Tick(j - i);
      return if within then Some(Blank(j)) else None;
    }
    if OpensAt(t, i) {
      var k, depth := CountComment(t, i);
      var within := w.Tick(k - i);
      if !within {
        return None;
      }
      return Some(if depth > 0 then Keep(i + 1) else Blank(k));
    }
    return Some(Keep(i + 1));
  }

  /** What the recursive form costs from i on: a step for every piece, its look, and its body. */
  function StripCost(t: string, i: nat): nat
    requires i <= |t|
    decreases |t|, |t| - i
  {
    if i == |t| then 0
    else
      var p := PieceAt(t, CountedEnds(t), false, 0, |t|, i);
      1 + PieceCost(t, i) + (if p.Body? then StripCost(t[p.start..p.close], 0) else 0) + StripCost(t, p.end)
  }

  lemma StripCostAt(t: string, i: nat, p: Piece)
    requires i < |t| && p == PieceAt(t, CountedEnds(t), false, 0, |t|, i)
    ensures StripCost(t, i)
         == 1 + PieceCost(t, i) + (if p.Body? then StripCost(t[p.start..p.close], 0) else 0) + StripCost(t, p.end)
  {
    hide PieceCost, PieceAt;
  }

  /** The recursive form: within its budget it computes the text without the counted comments. */
  method StripRecursively(t: string, w: Budget) returns (r: Option<string>)
    requires w.used <= w.limit
    modifies w
    ensures Paid(old(w.used), StripCost(t, 0), w, r.None?)
    ensures r.Some? ==> r.value == Stripped(t, CountedEnds(t), false)
    decreases |t|
  {
    hide PieceAt, CountedEnds, Strip, StripPiece, StripCost, PieceCost;
    var out, i := "", 0;
    ghost var start := w.used;
    StripEnds(t);
    while i < |t|
      invariant 0 <= i <= |t| && w.used <= w.limit
      invariant start + StripCost(t, 0) == w.used + StripCost(t, i)
      invariant out + Strip(t, CountedEnds(t), false, 0, |t|, i) == Stripped(t, CountedEnds(t), false)
    {
      StripCostAt(t, i, PieceAt(t, CountedEnds(t), false, 0, |t|, i));
      var within := w.Tick(1);
      if !within {
        return None;
      }
      var piece := NextPieceTicking(t, i, w);
      if piece.None? {
        return None;
      }
      ghost var rest := Strip(t, CountedEnds(t), false, 0, |t|, piece.value.end);
      StripStep(t, i, piece.value);
      match piece.value {
        case Keep(end) =>
          Regroup(out, t[i..end], rest);
          out := out + t[i..end];
        case Blank(end) =>
          Regroup(out, " ", rest);
          out := out + " ";
        case Body(start, close, end) =>
          var delim := t[i..start];
          var inner := StripRecursively(t[start..close], w);
          if inner.None? {
            return None;
          }
          BodyDelimiters(t, CountedEnds(t), false, 0, |t|, i);
          assert t[close..end] == delim;
          BodyAlone(t, start, close);
          Regroup(out, delim + inner.value + delim, rest);
          out := out + (delim + inner.value + delim);
      }
      i := piece.value.end;
    }
    StripCostEnd(t);
    assert out + "" == out;
    return Some(out);
  }

  lemma StripCostEnd(t: string)
    ensures StripCost(t, |t|) == 0
  {
  }

  lemma StripEnds(t: string)
    ensures Stripped(t, CountedEnds(t), false) == Strip(t, CountedEnds(t), false, 0, |t|, 0)
    ensures Strip(t, CountedEnds(t), false, 0, |t|, |t|) == ""
  {
  }

  lemma StripStep(t: string, i: nat, p: Piece)
    requires i < |t| && p == PieceAt(t, CountedEnds(t), false, 0, |t|, i)
    ensures var ends := CountedEnds(t);
            var whole, rest := Strip(t, ends, false, 0, |t|, i), Strip(t, ends, false, 0, |t|, p.end);
            && (p.Keep? ==> whole == t[i..p.end] + rest)
            && (p.Blank? ==> whole == " " + rest)
            && (p.Body? ==> whole == t[i..p.start] + Strip(t, ends, false, p.start, p.close, p.start) + t[p.close..p.end] + rest)
  {
  }

  lemma Regroup(a: string, b: string, c: string)
    ensures a + (b + c) == a + b + c
  {
  }

  lemma BodyAlone(t: string, start: nat, close: nat)
    requires start <= close < |t| && t[close] == '$'
    ensures Strip(t, CountedEnds(t), false, start, close, start)
         == Stripped(t[start..close], CountedEnds(t[start..close]), false)
  {
    hide CountedEnds, Strip;
    var u := t[start..close];
    assert Part(t, start, u) && Ends(t, start, u);
    StripMoved(t, start, u, false, 0, |u|, 0);
  }
}
