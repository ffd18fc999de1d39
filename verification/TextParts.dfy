/** Quotes and delimiters inside a part of a text are those of the part alone. */
module TextParts {
  import opened Wrappers
  import opened SqlLexis

  /** u is the part of t from off on. */
  ghost predicate Part(t: string, off: nat, u: string)
    ensures Part(t, off, u) ==> off + |u| <= |t|
  {
    off + |u| <= |t| && forall k :: 0 <= k < |u| ==> t[off + k] == u[k]
  }

  /** A text in two pieces: the second begins at m. */
  lemma PartSplit(t: string, p: nat, x: string, y: string, m: nat)
    requires Part(t, p, x + y) && m == p + |x|
    ensures Part(t, p, x) && Part(t, m, y)
  {
    var whole := x + y;
    forall k | 0 <= k < |x|
      ensures t[p + k] == x[k]
    {
      assert t[p + k] == whole[k];
    }
    forall k | 0 <= k < |y|
      ensures t[m + k] == y[k]
    {
      assert t[p + (|x| + k)] == whole[|x| + k];
    }
  }

  function Moved(r: Option<nat>, off: nat): Option<nat> {
    if r.Some? then Some(off + r.value) else None
  }

  lemma PartAt(t: string, off: nat, u: string)
    requires Part(t, off, u)
    ensures forall k :: 0 <= k < |u| ==> t[off + k] == u[k]
  {
    forall k | 0 <= k < |u|
      ensures t[off + k] == u[k]
    {
      assert t[off..off + |u|][k] == t[off + k];
    }
  }

  lemma SliceMoved(t: string, off: nat, u: string, a: nat, b: nat)
    requires Part(t, off, u) && a <= b <= |u|
    ensures t[off + a..off + b] == u[a..b]
  {
    PartAt(t, off, u);
  }

  lemma {:induction false} QuoteEndMoved(t: string, off: nat, u: string, q: char, esc: bool, j: nat, hi: nat)
    requires Part(t, off, u) && hi <= |u|
    ensures QuoteEndFrom(t, q, esc, off + j, off + hi) == Moved(QuoteEndFrom(u, q, esc, j, hi), off)
    decreases hi - j
  {
    PartAt(t, off, u);
    if j < hi {
      QuoteEndMoved(t, off, u, q, esc, j + 1, hi);
      QuoteEndMoved(t, off, u, q, esc, j + 2, hi);
    }
  }

  lemma {:induction false} TagRunMoved(t: string, off: nat, u: string, j: nat)
    requires Part(t, off, u) && j <= |u|
    ensures var e := TagRun(u, j);
            if e < |u| then TagRun(t, off + j) == off + e else TagRun(t, off + j) >= off + |u|
    decreases |u| - j
  {
    PartAt(t, off, u);
    if j < |u| && TagChar(u[j]) {
      TagRunMoved(t, off, u, j + 1);
    }
  }

  lemma EscapeMoved(t: string, off: nat, u: string, i: nat, lo: nat, bs: bool)
    requires Part(t, off, u) && lo <= i < |u|
    ensures EscapeString(t, off + i, off + lo, bs) == EscapeString(u, i, lo, bs)
  {
    PartAt(t, off, u);
  }

  lemma DelimiterMoved(t: string, off: nat, u: string, i: nat, lo: nat, hi: nat)
    requires Part(t, off, u) && lo <= i < hi <= |u|
    ensures DelimiterAt(t, off + i, off + lo, off + hi) == DelimiterAt(u, i, lo, hi)
  {
    PartAt(t, off, u);
    TagRunMoved(t, off, u, i + 1);
    var e := TagRun(u, i + 1);
    if e < |u| {
      SliceMoved(t, off, u, i, e + 1);
    }
  }

  lemma OccursMoved(t: string, off: nat, u: string, d: string, q: nat)
    requires Part(t, off, u) && q + |d| <= |u|
    ensures OccursAt(t, d, off + q) <==> OccursAt(u, d, q)
  {
    SliceMoved(t, off, u, q, q + |d|);
  }

  lemma {:induction false} OccurrenceMoved(t: string, off: nat, u: string, d: string, from: nat, limit: nat)
    requires Part(t, off, u) && limit <= |u| && d != []
    ensures FirstOccurrence(t, d, off + from, off + limit) == Moved(FirstOccurrence(u, d, from, limit), off)
    decreases limit - from
  {
    if from + |d| <= limit {
      OccursMoved(t, off, u, d, from);
      OccurrenceMoved(t, off, u, d, from + 1, limit);
    }
  }

  /** The first occurrence inside a limit is the first one. */
  lemma LaterLimit(t: string, d: string, from: nat, limit: nat, later: nat)
    requires limit <= later <= |t| && d != [] && FirstOccurrence(t, d, from, limit).Some?
    ensures FirstOccurrence(t, d, from, later) == FirstOccurrence(t, d, from, limit)
  {
    FirstOccurs(t, d, from, limit);
    FirstOccurs(t, d, from, later);
    hide OccursAt;
    var near, far := FirstOccurrence(t, d, from, limit).value, FirstOccurrence(t, d, from, later);
    if far.Some? {
      assert !(near < far.value) && !(far.value < near);
    }
  }

  /** Behind the body u the delimiter d comes for the first time. */
  ghost predicate OnlyAtEnd(u: string, d: string) {
    forall k: nat :: k < |u| ==> !OccursAt(u + d, d, k)
  }

  lemma BodyEnds(t: string, n: nat, u: string, d: string)
    requires Part(t, n, u + d) && d != "" && OnlyAtEnd(u, d)
    ensures FirstOccurrence(t, d, n, |t|) == Some(n + |u|)
  {
    assert OccursAt(u + d, d, |u|);
    hide OccursAt, FirstOccurrence, Part;
    forall k | n <= k < n + |u|
      ensures !OccursAt(t, d, k)
    {
      OccursMoved(t, n, u + d, d, k - n);
    }
    OccursMoved(t, n, u + d, d, |u|);
    FirstIs(t, d, n, |t|, n + |u|);
  }

  lemma CharThenRest(x: string, r: string, i: nat, rest: string)
    requires i < |x|
    ensures (x + r)[i..i + 1] + (x[i + 1..] + rest) == x[i..] + rest
  {
  }

  lemma NothingLeft(x: string, rest: string)
    ensures x[|x|..] + rest == rest
  {
  }
}
