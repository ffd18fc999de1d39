/** Nested block comments (section 4.1.5): counting the depth from one opener,
    and one reading of the text that closes all of them. */
module BlockComments {
  import opened Wrappers
  import opened SqlLexis

  predicate OpensAt(t: string, i: int) { 0 <= i && i + 1 < |t| && t[i] == '/' && t[i + 1] == '*' }

  predicate ClosesAt(t: string, i: int) { 0 <= i && i + 1 < |t| && t[i] == '*' && t[i + 1] == '/' }

  /** Where the text from k on closes `depth` open comments. */
  function CloseFrom(t: string, k: nat, depth: nat): (r: Option<nat>)
    ensures r.Some? ==> k + 2 * depth <= r.value && (k <= |t| ==> r.value <= |t|)
    decreases |t| - k
  {
    if depth == 0 then Some(k)
    else if k >= |t| then None
    else if OpensAt(t, k) then CloseFrom(t, k + 2, depth + 1)
    else if ClosesAt(t, k) then CloseFrom(t, k + 2, depth - 1)
    else CloseFrom(t, k + 1, depth)
  }

  /** Where the comment that opens at i ends, by counting from there. */
  function CommentEnd(t: string, i: nat): (r: Option<nat>)
    ensures r.Some? ==> i + 4 <= r.value && (i + 2 <= |t| ==> r.value <= |t|)
  {
    CloseFrom(t, i + 2, 1)
  }

  type CommentEnds = map<nat, nat>

  /** The ends found by counting from every opener on its own. */
  function CountedEnds(t: string): (m: CommentEnds)
    ensures forall i | i in m :: i + 4 <= m[i] <= |t|
  {
    map i: nat | i < |t| && OpensAt(t, i) && CommentEnd(t, i).Some? :: CommentEnd(t, i).value
  }

  // ----- one reading -----

  /** How many comments are open when a single reading that stands at p with `depth` open ones gets to q;
      None when a two-character mark carries it over q. */
  ghost function DepthAt(t: string, p: nat, depth: nat, q: nat): Option<nat>
    decreases |t| - p
  {
    if p == q then Some(depth)
    else if p > q || p >= |t| then None
    else if OpensAt(t, p) then DepthAt(t, p + 2, depth + 1, q)
    else if ClosesAt(t, p) && depth > 0 then DepthAt(t, p + 2, depth - 1, q)
    else DepthAt(t, p + 1, depth, q)
  }

  /** The reading from the start of the text never stops at the opener i. */
  ghost predicate Skipped(t: string, i: nat) {
    OpensAt(t, i) && DepthAt(t, 0, 0, i).None?
  }

  /** What one reading can know. */
  ghost function ReadEnds(t: string): (m: CommentEnds)
    ensures forall i | i in m :: i + 4 <= m[i] <= |t|
  {
    map i: nat | i < |t| && OpensAt(t, i) && !Skipped(t, i) && CommentEnd(t, i).Some? :: CommentEnd(t, i).value
  }

  lemma {:induction false} DepthAtVia(t: string, p: nat, depth: nat, q: nat, r: nat)
    requires DepthAt(t, p, depth, q).Some? && q <= r
    ensures DepthAt(t, p, depth, r) == DepthAt(t, q, DepthAt(t, p, depth, q).value, r)
    decreases |t| - p
  {
    if p == q {
    } else if OpensAt(t, p) {
      DepthAtVia(t, p + 2, depth + 1, q, r);
    } else if ClosesAt(t, p) && depth > 0 {
      DepthAtVia(t, p + 2, depth - 1, q, r);
    } else {
      DepthAtVia(t, p + 1, depth, q, r);
    }
  }

  /** Nothing but a closing mark that closed something can hide an opener: the two share the '/'. */
  lemma {:induction false} SkippedSharesSlash(t: string, i: nat)
    requires OpensAt(t, i)
    ensures Skipped(t, i) <==>
            i > 0 && ClosesAt(t, i - 1) && DepthAt(t, 0, 0, i - 1).Some? && DepthAt(t, 0, 0, i - 1).value > 0
  {
    if Skipped(t, i) {
      JumpedOver(t, 0, 0, i);
    }
    if i > 0 && DepthAt(t, 0, 0, i - 1).Some? {
      DepthAtVia(t, 0, 0, i - 1, i);
    }
  }

  lemma {:induction false} JumpedOver(t: string, p: nat, depth: nat, i: nat)
    requires p <= i && OpensAt(t, i) && DepthAt(t, p, depth, i).None?
    ensures i > p && ClosesAt(t, i - 1) && DepthAt(t, p, depth, i - 1).Some? && DepthAt(t, p, depth, i - 1).value > 0
    decreases |t| - p
  {
    if OpensAt(t, p) {
      JumpedOver(t, p + 2, depth + 1, i);
    } else if ClosesAt(t, p) && depth > 0 {
      if p + 1 < i {
        JumpedOver(t, p + 2, depth - 1, i);
      }
    } else {
      JumpedOver(t, p + 1, depth, i);
    }
  }

  // ----- the reading as the code does it -----

  ghost predicate Unmarked(t: string, p: nat, q: nat) {
    forall k :: p <= k < q ==> !OpensAt(t, k) && !ClosesAt(t, k)
  }

  /** What the loop knows at p, between two marks. */
  ghost predicate ReadUpTo(t: string, p: nat, ends: CommentEnds, stack: seq<nat>) {
    && p <= |t|
    && DepthAt(t, 0, 0, p) == Some(|stack|)
    && (forall k :: 0 <= k < |stack| ==>
          stack[k] < p && OpensAt(t, stack[k]) && !Skipped(t, stack[k])
          && CommentEnd(t, stack[k]) == CloseFrom(t, p, |stack| - k))
    && (forall i :: i in ends ==> i < p && OpensAt(t, i) && !Skipped(t, i) && CommentEnd(t, i) == Some(ends[i]))
    && (forall i: nat :: i < p && OpensAt(t, i) && !Skipped(t, i) ==> i in ends || i in stack)
  }

  lemma {:induction false} UnmarkedStretch(t: string, p: nat, q: nat, depth: nat)
    requires p <= q <= |t| && Unmarked(t, p, q)
    ensures depth > 0 ==> CloseFrom(t, p, depth) == CloseFrom(t, q, depth)
    ensures DepthAt(t, p, depth, q) == Some(depth)
    decreases q - p
  {
    if p < q {
      UnmarkedStretch(t, p + 1, q, depth);
    }
  }

  /** Moving on over characters that belong to no mark. */
  lemma SkipUnmarked(t: string, p: nat, q: nat, ends: CommentEnds, stack: seq<nat>)
    requires ReadUpTo(t, p, ends, stack) && p <= q <= |t| && Unmarked(t, p, q)
    ensures ReadUpTo(t, q, ends, stack)
  {
    UnmarkedStretch(t, p, q, |stack|);
    DepthAtVia(t, 0, 0, p, q);
    forall k | 0 <= k < |stack|
      ensures CommentEnd(t, stack[k]) == CloseFrom(t, q, |stack| - k)
    {
      UnmarkedStretch(t, p, q, |stack| - k);
    }
  }

  lemma DepthStep(t: string, p: nat, depth: nat, q: nat, after: nat)
    requires DepthAt(t, 0, 0, p) == Some(depth) && p < q && DepthAt(t, p, depth, q) == Some(after)
    ensures DepthAt(t, 0, 0, q) == Some(after)
  {
    DepthAtVia(t, 0, 0, p, q);
  }

  lemma ReadOpener(t: string, o: nat, ends: CommentEnds, stack: seq<nat>)
    requires ReadUpTo(t, o, ends, stack) && OpensAt(t, o)
    ensures ReadUpTo(t, o + 2, ends, stack + [o])
  {
    DepthStep(t, o, |stack|, o + 2, |stack| + 1);
    var wider := stack + [o];
    assert !OpensAt(t, o + 1) && wider[|stack|] == o;
    forall k | 0 <= k < |stack|
      ensures CommentEnd(t, wider[k]) == CloseFrom(t, o + 2, |wider| - k)
    {
      assert wider[k] == stack[k];
    }
    hide CloseFrom, CommentEnd, DepthAt, Skipped;
    forall i: nat | i < o + 2 && OpensAt(t, i) && !Skipped(t, i)
      ensures i in ends || i in wider
    {
      StackMember(stack, o, i);
    }
  }

  lemma StackMember(stack: seq<nat>, o: nat, i: nat)
    ensures i in stack + [o] <==> i in stack || i == o
  {
  }

  lemma ReadCloser(t: string, c: nat, ends: CommentEnds, stack: seq<nat>)
    requires ReadUpTo(t, c, ends, stack) && ClosesAt(t, c) && stack != []
    ensures ReadUpTo(t, c + 2, ends[stack[|stack| - 1] := c + 2], stack[..|stack| - 1])
  {
    DepthStep(t, c, |stack|, c + 2, |stack| - 1);
    assert CloseFrom(t, c, 1) == Some(c + 2);
    if OpensAt(t, c + 1) {
      SkippedSharesSlash(t, c + 1);
    }
  }

  /** A closing mark with nothing open: one character further. */
  lemma ReadStrayCloser(t: string, c: nat, ends: CommentEnds)
    requires ReadUpTo(t, c, ends, []) && ClosesAt(t, c)
    ensures ReadUpTo(t, c + 1, ends, [])
  {
    DepthStep(t, c, 0, c + 1, 0);
  }

  lemma ReadNothing(t: string)
    ensures ReadUpTo(t, 0, map[], [])
  {
  }

  lemma ReadAll(t: string, p: nat, ends: CommentEnds, stack: seq<nat>)
    requires ReadUpTo(t, p, ends, stack) && Unmarked(t, p, |t|)
    ensures ends == ReadEnds(t)
    ensures forall i :: i in stack ==> CommentEnd(t, i).None?
  {
    SkipUnmarked(t, p, |t|, ends, stack);
    forall k | 0 <= k < |stack|
      ensures CommentEnd(t, stack[k]).None?
    {
      assert CloseFrom(t, |t|, |stack| - k).None?;
    }
    forall i: nat
      ensures i in ends <==> i in ReadEnds(t)
    {
    }
  }

  /** A remembered mark is behind p or the next one from p on. */
  ghost predicate Remembers(t: string, d: string, p: nat, o: Option<nat>) {
    (o.Some? && o.value < p) || o == FirstOccurrence(t, d, p, |t|)
  }

  lemma RemembersLater(t: string, d: string, p: nat, q: nat, o: Option<nat>)
    requires d != [] && p <= q && o == FirstOccurrence(t, d, p, |t|)
    ensures Remembers(t, d, q, o)
  {
    FirstOccurs(t, d, p, |t|);
    FirstOccurs(t, d, q, |t|);
    hide OccursAt, FirstOccurrence;
    var later := FirstOccurrence(t, d, q, |t|);
    if o.Some? && q <= o.value && later.Some? {
      assert !(later.value < o.value) && !(o.value < later.value);
    }
  }

  /** The first mark of either kind. */
  lemma NextMark(t: string, p: nat)
    ensures var o, c := FirstOccurrence(t, "/*", p, |t|), FirstOccurrence(t, "*/", p, |t|);
            && (o.Some? ==> OpensAt(t, o.value) && (c.None? || o.value < c.value ==> Unmarked(t, p, o.value)))
            && (c.Some? ==> ClosesAt(t, c.value) && (o.None? || c.value < o.value ==> Unmarked(t, p, c.value)))
            && (o.Some? && c.Some? ==> o.value != c.value)
            && (o.None? && c.None? ==> Unmarked(t, p, |t|))
  {
    MarksOccur(t);
    FirstOccurs(t, "/*", p, |t|);
    FirstOccurs(t, "*/", p, |t|);
    hide OccursAt, FirstOccurrence;
    var o, c := FirstOccurrence(t, "/*", p, |t|), FirstOccurrence(t, "*/", p, |t|);
    forall k: nat | p <= k && (o.Some? ==> k < o.value) && (c.Some? ==> k < c.value)
      ensures !OpensAt(t, k) && !ClosesAt(t, k)
    {
    }
  }

  /** A pass over the marks with a stack of open comments. */
  method BuildCommentMap(t: string) returns (ends: CommentEnds)
    ensures ends == ReadEnds(t)
  {
    hide ReadUpTo, FirstOccurrence, ReadEnds;
    ends := map[];
    var stack: seq<nat> := [];
    var p: nat := 0;
    var o: Option<nat> := FirstOccurrence(t, "/*", 0, |t|);
    var c: Option<nat> := FirstOccurrence(t, "*/", 0, |t|);
    ReadNothing(t);
    while true
      invariant ReadUpTo(t, p, ends, stack)
      invariant Remembers(t, "/*", p, o) && Remembers(t, "*/", p, c)
      decreases |t| - p
    {
      if o.Some? && o.value < p { o := FirstOccurrence(t, "/*", p, |t|); }
      if c.Some? && c.value < p { c := FirstOccurrence(t, "*/", p, |t|); }
      NextMark(t, p);
      if o.None? && c.None? {
        break;
      }
      ghost var before := p;
      if c.None? || (o.Some? && o.value < c.value) {
        SkipUnmarked(t, p, o.value, ends, stack);
        ReadOpener(t, o.value, ends, stack);
        stack := stack + [o.value];
        p := o.value + 2;
      } else {
        SkipUnmarked(t, p, c.value, ends, stack);
        if stack != [] {
          ReadCloser(t, c.value, ends, stack);
          ends := ends[stack[|stack| - 1] := c.value + 2];
          stack := stack[..|stack| - 1];
          p := c.value + 2;
        } else {
          ReadStrayCloser(t, c.value, ends);
          p := c.value + 1;
        }
      }
      RemembersLater(t, "/*", before, p, o);
      RemembersLater(t, "*/", before, p, c);
    }
    ReadAll(t, p, ends, stack);
  }

  /** A mark of two characters. */
  lemma MarkOccurs(t: string, d: string, k: nat)
    requires |d| == 2
    ensures OccursAt(t, d, k) <==> k + 1 < |t| && t[k] == d[0] && t[k + 1] == d[1]
  {
    if OccursAt(t, d, k) {
      assert t[k + 0] == d[0] && t[k + 1] == d[1];
    }
  }

  lemma MarksOccur(t: string)
    ensures forall k: nat :: OccursAt(t, "/*", k) <==> OpensAt(t, k)
    ensures forall k: nat :: OccursAt(t, "*/", k) <==> ClosesAt(t, k)
  {
    forall k: nat
      ensures OccursAt(t, "/*", k) <==> OpensAt(t, k)
      ensures OccursAt(t, "*/", k) <==> ClosesAt(t, k)
    {
      MarkOccurs(t, "/*", k);
      MarkOccurs(t, "*/", k);
    }
  }
}
