/** A piece of a statement between commas, parentheses and semicolons: its
    literals are those of the piece alone. */
module Placement {
  import opened SqlLexis
  import opened TextParts
  import opened Wrappers

  /** No identifier runs on at p: if one ends there, what follows is a character that no name contains. */
  predicate Separate(t: string, p: nat) {
    && 0 < p <= |t|
    && (IdentChar(t[p - 1]) && p < |t| ==> t[p] == ';' || t[p] == ',' || t[p] == '(' || t[p] == ')' || t[p] == '"')
  }

  /** What ends in a does not go on in c. */
  predicate Delimits(a: string, c: char) {
    c == ',' || c == ';' || c == ')' || (!IsQuote(c) && a != [] && !IdentChar(a[|a| - 1]))
  }

  /** The text a stands at p, between characters that do not belong to it. */
  ghost predicate Placed(t: string, p: nat, a: string, e: nat)
    ensures Placed(t, p, a, e) ==> p + |a| == e <= |t|
  {
    && Part(t, p, a) && e == p + |a| && Separate(t, p)
    && (e < |t| ==> Delimits(a, t[e]))
  }

  lemma {:induction false} QuoteEndInside(t: string, p: nat, a: string, q: char, esc: bool, j: nat)
    requires Part(t, p, a) && QuoteEndFrom(a, q, esc, j, |a|).Some?
    requires p + |a| < |t| ==> t[p + |a|] != q
    ensures QuoteEndFrom(t, q, esc, p + j, |t|) == Some(p + QuoteEndFrom(a, q, esc, j, |a|).value)
    decreases |a| - j
  {
    PartAt(t, p, a);
    assert t[p + j] == a[j];
    if esc && a[j] == '\\' {
      QuoteEndInside(t, p, a, q, esc, j + 2);
    } else if a[j] != q {
      QuoteEndInside(t, p, a, q, esc, j + 1);
    } else if j + 1 < |a| && a[j + 1] == q {
      QuoteEndInside(t, p, a, q, esc, j + 2);
    }
  }

  lemma QuotePlaced(t: string, p: nat, a: string, e: nat, k: nat, bs: bool)
    requires Placed(t, p, a, e) && k < |a| && IsQuote(a[k]) && QuoteEnd(a, k, bs, 0, |a|).Some?
    ensures t[p + k] == a[k] && QuoteEnd(t, p + k, bs, 0, |t|) == Some(p + QuoteEnd(a, k, bs, 0, |a|).value)
  {
    PartAt(t, p, a);
    assert EscapeString(t, p + k, 0, bs) == EscapeString(a, k, 0, bs);
    QuoteEndInside(t, p, a, a[k], EscapeString(a, k, 0, bs), k + 1);
  }

  lemma DelimiterPlaced(t: string, p: nat, a: string, e: nat, k: nat)
    requires Placed(t, p, a, e) && k < |a| && a[k] == '$'
    ensures t[p + k] == '$' && DelimiterAt(t, p + k, 0, |t|) == DelimiterAt(a, k, 0, |a|)
  {
    assert t[p + k] == a[k] && (k > 0 ==> t[p + k - 1] == a[k - 1]) by { PartAt(t, p, a); }
    TagRunMoved(t, p, a, k + 1);
    var r := TagRun(a, k + 1);
    if r < |a| {
      assert t[p + r] == a[r] && t[p + k + 1] == a[k + 1] by { PartAt(t, p, a); }
      SliceMoved(t, p, a, k, r + 1);
    } else {
      assert k + 1 < |a| ==> TagChar(a[|a| - 1]);
      TagStops(t, p + k + 1, e);
    }
  }

  lemma {:induction false} TagStops(t: string, j: nat, e: nat)
    requires j <= e <= |t| && (e < |t| ==> !TagChar(t[e])) && TagRun(t, j) >= e
    ensures TagRun(t, j) == e
    decreases e - j
  {
    if j < e && TagChar(t[j]) {
      TagStops(t, j + 1, e);
    }
  }

  lemma DollarPlaced(t: string, p: nat, a: string, e: nat, from: nat, d: string)
    requires Placed(t, p, a, e) && |d| > 0 && FirstOccurrence(a, d, from, |a|).Some?
    ensures FirstOccurrence(t, d, p + from, |t|) == Some(p + FirstOccurrence(a, d, from, |a|).value)
  {
    hide Part, FirstOccurrence;
    OccurrenceMoved(t, p, a, d, from, |a|);
    LaterLimit(t, d, p + from, e, |t|);
  }

  lemma PlacedAt(t: string, p: nat, a: string, e: nat, k: nat)
    requires Placed(t, p, a, e) && k < |a|
    ensures p + k < |t| && t[p + k] == a[k]
  {
    PartAt(t, p, a);
  }

  lemma PlacedEnd(t: string, p: nat, a: string, e: nat)
    requires Placed(t, p, a, e)
    ensures e == p + |a| <= |t|
  {
  }

  /** A literal that does not close in the piece does not end in it. */
  lemma {:induction false} QuoteRunsOver(t: string, p: nat, a: string, q: char, esc: bool, j: nat)
    requires Part(t, p, a) && QuoteEndFrom(a, q, esc, j, |a|).None?
    ensures var r := QuoteEndFrom(t, q, esc, p + j, |t|); r.Some? ==> r.value > p + |a|
    decreases |a| - j
  {
    if j < |a| {
      PartAt(t, p, a);
      assert t[p + j] == a[j];
      if esc && a[j] == '\\' {
        QuoteRunsOver(t, p, a, q, esc, j + 2);
      } else if a[j] != q {
        QuoteRunsOver(t, p, a, q, esc, j + 1);
      } else if j + 1 < |a| {
        assert t[p + (j + 1)] == a[j + 1];
        QuoteRunsOver(t, p, a, q, esc, j + 2);
      }
    }
  }

  lemma QuoteOpenPlaced(t: string, p: nat, a: string, e: nat, k: nat, bs: bool)
    requires Placed(t, p, a, e) && k < |a| && IsQuote(a[k]) && QuoteEnd(a, k, bs, 0, |a|).None?
    ensures t[p + k] == a[k]
    ensures var r := QuoteEnd(t, p + k, bs, 0, |t|); r.Some? ==> r.value > e
  {
    PartAt(t, p, a);
    assert EscapeString(t, p + k, 0, bs) == EscapeString(a, k, 0, bs);
    QuoteRunsOver(t, p, a, a[k], EscapeString(a, k, 0, bs), k + 1);
  }
}
