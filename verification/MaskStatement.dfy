/** Reading the body of a DELETE statement with its literals masked, and deciding
    whether it has a WHERE that says something. */
module MaskStatement {
  import opened Wrappers
  import opened SqlLexis
  import opened HollowCondition

  predicate IsSpecial(c: char) { c == ';' || c == '(' || c == ')' || c == '\'' || c == '"' || c == '$' }

  predicate PrefixLetter(c: char) {
    c == 'E' || c == 'e' || c == 'B' || c == 'b' || c == 'X' || c == 'x' || c == 'N' || c == 'n'
  }

  /** The length of a string prefix (E, B, X, N or U&) that ends right before i, not looking before `from`. */
  function PrefixLength(t: string, i: nat, from: nat): (r: nat)
    requires i <= |t|
    ensures r <= 2 && (r > 0 ==> from + r <= i)
  {
    if i <= from then 0
    else
      var p := t[i - 1];
      if PrefixLetter(p) && (i - 1 == from || !IdentChar(t[i - 2])) then 1
      else if p == '&' && i - 1 > from && (t[i - 2] == 'U' || t[i - 2] == 'u') && (i - 2 == from || !IdentChar(t[i - 3])) then 2
      else 0
  }

  function Min(a: nat, b: nat): nat { if a < b then a else b }

  function Mark(q: char): string { if q == '"' then " ident " else " 0 " }

  predicate StopsAt(t: string, token: Option<string>, i: nat) {
    token.Some? && OccursAt(t, token.value, i)
  }

  /** What the reading does at a position. */
  datatype Step =
    | Stop                                          // the statement ends here
    | Go(next: nat, inside: nat)                    // copied; `inside` parentheses are open then
    | Replace(cut: nat, mark: string, end: nat)     // what starts at cut and ends at end becomes the mark

  function StepAt(t: string, from: nat, token: Option<string>, bs: bool, run: nat, i: nat, depth: nat): (s: Step)
    requires from <= run <= i < |t|
    ensures s.Go? ==> s.next == i + 1
    ensures s.Replace? ==> run <= s.cut <= i < s.end <= |t|
  {
    var c := t[i];
    if !IsSpecial(c) then Go(i + 1, depth)
    else if StopsAt(t, token, i) || c == ';' || (c == ')' && depth == 0) then Stop
    else if c == '(' then Go(i + 1, depth + 1)
    else if c == ')' then Go(i + 1, depth - 1)
    else if c == '$' then
      var d := DelimiterAt(t, i, 0, |t|);
      if d.None? then Go(i + 1, depth)
      else
        var close := FirstOccurrence(t, d.value, i + |d.value|, |t|);
        if close.None? then Replace(i, "", i + |d.value|) else Replace(i, " 0 ", close.value + |d.value|)
    else
      var prefix := if c == '\'' then Min(PrefixLength(t, i, from), i - run) else 0;
      var close := QuoteEnd(t, i, bs, 0, |t|);
      Replace(i - prefix, Mark(c), if close.Some? then close.value else |t|)
  }

  /** The masked text of t from `run` on when the reading stands at i inside `depth` parentheses. */
  function Mask(t: string, from: nat, token: Option<string>, bs: bool, run: nat, i: nat, depth: nat): string
    requires from <= run <= i <= |t|
    decreases |t| - i
  {
    if i == |t| then t[run..i]
    else match StepAt(t, from, token, bs, run, i, depth)
      case Stop => t[run..i]
      case Go(next, inside) => Mask(t, from, token, bs, run, next, inside)
      case Replace(cut, mark, end) => t[run..cut] + mark + Mask(t, from, token, bs, end, end, depth)
  }

  /** What the new detector may still read; once it is exceeded the answer is a detection. */
  class Work {
    var left: int
    var exceeded: bool

    constructor (length: nat)
      ensures left == 60 * length + 2000000 && !exceeded
    {
      left := 60 * length + 2000000;
      exceeded := false;
    }
  }

  /** The next special character from i on, or the length of the text. */
  function NextSpecial(t: string, i: nat): (r: nat)
    requires i <= |t|
    ensures i <= r <= |t| && (r < |t| ==> IsSpecial(t[r])) && forall k :: i <= k < r ==> !IsSpecial(t[k])
    decreases |t| - i
  {
    if i < |t| && !IsSpecial(t[i]) then NextSpecial(t, i + 1) else i
  }

  lemma {:induction false} MaskSkips(t: string, from: nat, token: Option<string>, bs: bool, run: nat, i: nat, j: nat, depth: nat)
    requires from <= run <= i <= j <= |t| && forall k :: i <= k < j ==> !IsSpecial(t[k])
    ensures Mask(t, from, token, bs, run, i, depth) == Mask(t, from, token, bs, run, j, depth)
    decreases j - i
  {
    if i < j {
      MaskSkips(t, from, token, bs, run, i + 1, j, depth);
    }
  }

  /** The step at a special character, found with the delimiter index. */
  method NextStep(t: string, from: nat, token: Option<string>, bs: bool, index: DollarIndex,
                  run: nat, i: nat, depth: nat) returns (s: Step)
    requires from <= run <= i < |t| && IsSpecial(t[i]) && Indexes(index, t, |t|)
    ensures s == StepAt(t, from, token, bs, run, i, depth)
  {
    hide Indexes, QuoteEnd, FirstOccurrence, DelimiterFrom;
    var c := t[i];
    if StopsAt(t, token, i) || c == ';' {
      return Stop;
    }
    if c == '(' {
      return Go(i + 1, depth + 1);
    }
    if c == ')' {
      return if depth == 0 then Stop else Go(i + 1, depth - 1);
    }
    if c == '\'' || c == '"' {
      var prefix := if c == '\'' then Min(PrefixLength(t, i, from), i - run) else 0;
      var close := FindQuoteEnd(t, i, bs, 0, |t|);
      return Replace(i - prefix, Mark(c), if close.Some? then close.value else |t|);
    }
    var d := DelimiterAt(t, i, 0, |t|);
    if d.None? {
      return Go(i + 1, depth);
    }
    DelimiterIsOne(t, i);
    var close := NextDollar(index, t, d.value, i + |d.value|, |t|);
    return if close.None? then Replace(i, "", i + |d.value|) else Replace(i, " 0 ", close.value + |d.value|);
  }

  /** What the reading from i on costs: the distance to every special character it looks at. */
  function MaskCost(t: string, from: nat, token: Option<string>, bs: bool, run: nat, i: nat, depth: nat): nat
    requires from <= run <= i <= |t|
    decreases |t| - i
  {
    var m := NextSpecial(t, i);
    if m == |t| then 0
    else
      m - i + 1 +
      match StepAt(t, from, token, bs, run, m, depth)
      case Stop => 0
      case Go(next, inside) => MaskCost(t, from, token, bs, run, next, inside)
      case Replace(_, _, end) => MaskCost(t, from, token, bs, end, end, depth)
  }

  /** One reading costs at most the length of the text behind its start. */
  lemma {:induction false} MaskCostBound(t: string, from: nat, token: Option<string>, bs: bool, run: nat, i: nat, depth: nat)
    requires from <= run <= i <= |t|
    ensures MaskCost(t, from, token, bs, run, i, depth) <= |t| - i
    decreases |t| - i
  {
    hide StepAt;
    var m := NextSpecial(t, i);
    if m < |t| {
      match StepAt(t, from, token, bs, run, m, depth)
      case Stop =>
      case Go(next, inside) => MaskCostBound(t, from, token, bs, run, next, inside);
      case Replace(_, _, end) => MaskCostBound(t, from, token, bs, end, end, depth);
    }
  }

  /** One turn of the reading, from i to the special character at m. */
  lemma TurnAt(t: string, from: nat, token: Option<string>, bs: bool, run: nat, i: nat, depth: nat, m: nat)
    requires from <= run <= i <= |t| && m == NextSpecial(t, i)
    ensures m == |t| ==>
              && Mask(t, from, token, bs, run, i, depth) == t[run..m]
              && MaskCost(t, from, token, bs, run, i, depth) == 0
    ensures m < |t| ==>
              var s := StepAt(t, from, token, bs, run, m, depth);
              var mask, cost := Mask(t, from, token, bs, run, i, depth), MaskCost(t, from, token, bs, run, i, depth);
              && cost >= m - i + 1
              && (s.Stop? ==> mask == t[run..m] && cost == m - i + 1)
              && (s.Go? ==>
                    && mask == Mask(t, from, token, bs, run, s.next, s.inside)
                    && cost == m - i + 1 + MaskCost(t, from, token, bs, run, s.next, s.inside))
              && (s.Replace? ==>
                    && mask == t[run..s.cut] + s.mark + Mask(t, from, token, bs, s.end, s.end, depth)
                    && cost == m - i + 1 + MaskCost(t, from, token, bs, s.end, s.end, depth))
  {
    hide StepAt;
    MaskSkips(t, from, token, bs, run, i, m, depth);
  }

  /** The work covers the cost, or there is nothing to pay. */
  predicate Covers(left: int, cost: nat) { cost == 0 || cost <= left }

  /** Reads on until the work is used up; then the answer no longer matters. */
  method MaskBody(t: string, from: nat, token: Option<string>, bs: bool, index: DollarIndex, work: Work)
    returns (body: string)
    requires from <= |t| && Indexes(index, t, |t|)
    modifies work
    ensures var cost := MaskCost(t, from, token, bs, from, from, 0);
            && (work.exceeded <==> old(work.exceeded) || !Covers(old(work.left), cost))
            && (Covers(old(work.left), cost) ==>
                  work.left == old(work.left) - cost && body == Mask(t, from, token, bs, from, from, 0))
  {
    hide Indexes, StepAt, Mask, MaskCost, NextSpecial;
    var parts := "";
    var depth: nat, run: nat, i: nat := 0, from, from;
    ghost var whole := MaskCost(t, from, token, bs, from, from, 0);
    while true
      invariant from <= run <= i <= |t|
      invariant work.exceeded == old(work.exceeded)
      invariant work.left + whole == old(work.left) + MaskCost(t, from, token, bs, run, i, depth)
      invariant work.left <= old(work.left) && (work.left < old(work.left) ==> work.left >= 0)
      invariant parts + Mask(t, from, token, bs, run, i, depth) == Mask(t, from, token, bs, from, from, 0)
      decreases |t| - i
    {
      var m := NextSpecial(t, i);
      TurnAt(t, from, token, bs, run, i, depth, m);
      if m == |t| {
        i := |t|;
        break;
      }
      work.left := work.left - (m - i + 1);
      i := m;
      if work.left < 0 {
        work.exceeded := true;
        break;
      }
      var step := NextStep(t, from, token, bs, index, run, i, depth);
      match step {
        case Stop =>
          break;
        case Go(next, inside) =>
          i, depth := next, inside;
        case Replace(cut, mark, end) =>
          Regroup(parts, t[run..cut], mark, Mask(t, from, token, bs, end, end, depth));
          parts := parts + t[run..cut] + mark;
          i, run := end, end;
      }
    }
    body := parts + t[run..i];
  }

  lemma Regroup(a: string, b: string, c: string, d: string)
    ensures a + (b + c + d) == a + b + c + d
  {
  }

  // ----- the verdict -----

  function Lower(c: char): char {
    if 'A' <= c <= 'Z' then c - 'A' + 'a' else c
  }

  predicate SameWord(t: string, k: nat, e: nat, word: string)
    requires k <= e <= |t|
  {
    e - k == |word| && forall j | 0 <= j < |word| :: Lower(t[k + j]) == word[j]
  }

  /** The first occurrence of the word outside parentheses: where it starts and ends. */
  function FindWord(t: string, i: nat, depth: int, word: string): (r: Option<Range>)
    requires i <= |t|
    ensures r.Some? ==> i <= r.value.0 < r.value.1 <= |t|
    decreases |t| - i
  {
    if i == |t| then None
    else if t[i] == '(' then FindWord(t, i + 1, depth + 1, word)
    else if t[i] == ')' then FindWord(t, i + 1, depth - 1, word)
    else if depth == 0 && WordStart(t, 0, i) then
      var e := WordEnd(t, i + 1, |t|);
      if SameWord(t, i, e, word) then Some((i, e)) else FindWord(t, e, depth, word)
    else FindWord(t, i + 1, depth, word)
  }

  /** How many more parentheses open than close before k. */
  ghost function Depth(t: string, k: nat): int
    requires k <= |t|
  {
    if k == 0 then 0
    else Depth(t, k - 1) + if t[k - 1] == '(' then 1 else if t[k - 1] == ')' then -1 else 0
  }

  /** The word stands at k, whole and outside parentheses. */
  ghost predicate OuterWordAt(t: string, k: nat, word: string) {
    k < |t| && WordStart(t, 0, k) && Depth(t, k) == 0 && SameWord(t, k, WordEnd(t, k + 1, |t|), word)
  }

  lemma {:induction false} DepthInWord(t: string, k: nat, e: nat)
    requires k <= e <= |t| && forall j :: k <= j < e ==> IsWord(t[j])
    ensures Depth(t, e) == Depth(t, k)
    decreases e - k
  {
    if k < e {
      DepthInWord(t, k, e - 1);
      assert IsWord(t[e - 1]);
    }
  }

  ghost predicate NoneBetween(t: string, i: nat, j: nat, word: string) {
    forall q :: i <= q < j ==> !OuterWordAt(t, q, word)
  }

  /** The search finds the first place at or after i where the word stands whole and outside
      parentheses. */
  lemma {:induction false} FirstWord(t: string, i: nat, depth: int, word: string)
    requires i <= |t| && depth == Depth(t, i)
    ensures var r := FindWord(t, i, depth, word);
            if r.Some? then
              && OuterWordAt(t, r.value.0, word) && r.value.1 == WordEnd(t, r.value.0 + 1, |t|)
              && NoneBetween(t, i, r.value.0, word)
            else NoneBetween(t, i, |t|, word)
    decreases |t| - i
  {
    hide OuterWordAt, NoneBetween, Depth, WordEnd, SameWord;
    if i == |t| {
      NoneBefore(t, i, i, i, word);
    } else {
      var next := NextLook(t, i, depth);
      var r := FindWord(t, i, depth, word);
      if OuterWordAt(t, i, word) {
        FoundHere(t, i, depth, word);
        NoneBefore(t, i, i, i, word);
      } else {
        NotHere(t, i, depth, word);
        FirstWord(t, next.0, next.1, word);
        NoneBefore(t, i, next.0, if r.Some? then r.value.0 else |t|, word);
      }
    }
  }

  /** Where the search goes on when the word is not found at i. */
  function NextLook(t: string, i: nat, depth: int): (r: (nat, int))
    requires i < |t|
    ensures i < r.0 <= |t|
  {
    if t[i] == '(' then (i + 1, depth + 1)
    else if t[i] == ')' then (i + 1, depth - 1)
    else if depth == 0 && WordStart(t, 0, i) then (WordEnd(t, i + 1, |t|), depth)
    else (i + 1, depth)
  }

  lemma FoundHere(t: string, i: nat, depth: int, word: string)
    requires i < |t| && depth == Depth(t, i) && OuterWordAt(t, i, word)
    ensures FindWord(t, i, depth, word) == Some((i, WordEnd(t, i + 1, |t|)))
  {
    hide SameWord, Depth;
  }

  lemma NotHere(t: string, i: nat, depth: int, word: string)
    requires i < |t| && depth == Depth(t, i) && !OuterWordAt(t, i, word)
    ensures var next := NextLook(t, i, depth);
            && next.1 == Depth(t, next.0) && NoneBetween(t, i, next.0, word)
            && FindWord(t, i, depth, word) == FindWord(t, next.0, next.1, word)
  {
    hide SameWord;
    var next := NextLook(t, i, depth).0;
    if t[i] != '(' && t[i] != ')' && depth == 0 && WordStart(t, 0, i) {
      DepthInWord(t, i, next);
    }
    hide Depth;
    forall q | i < q < next
      ensures !OuterWordAt(t, q, word)
    {
      assert IsWord(t[q - 1]);
    }
  }

  lemma NoneBefore(t: string, i: nat, j: nat, k: nat, word: string)
    requires i <= j && (NoneBetween(t, j, k, word) || j == k) && (NoneBetween(t, i, j, word) || i == j)
    ensures NoneBetween(t, i, k, word)
  {
    hide OuterWordAt;
  }

  /** A WHERE whose condition, up to a RETURNING, is not hollow. */
  ghost predicate HasWhere(body: string, empty: string -> bool) {
    var w := FindWord(body, 0, 0, "where");
    w.Some? &&
    var r := FindWord(body, w.value.1, 0, "returning");
    !HollowText(body[w.value.1..if r.Some? then r.value.0 else |body|], empty)
  }

  /** One look of the search. */
  lemma LooksAt(t: string, i: nat, depth: int, word: string)
    requires i < |t|
    ensures var next := NextLook(t, i, depth);
            FindWord(t, i, depth, word)
            == if depth == 0 && WordStart(t, 0, i) && SameWord(t, i, WordEnd(t, i + 1, |t|), word)
               then Some((i, WordEnd(t, i + 1, |t|))) else FindWord(t, next.0, next.1, word)
  {
    hide SameWord;
  }

  method BodyHasWhere(body: string, empty: string -> bool) returns (r: bool)
    ensures r == HasWhere(body, empty)
  {
    hide FindWord, SameWord;
    var n, depth, i := |body|, 0, 0;
    var whereEnd: Option<nat>, returningAt := None, n;
    while i < n
      invariant 0 <= i <= n && returningAt == n
      invariant whereEnd.None? ==> FindWord(body, 0, 0, "where") == FindWord(body, i, depth, "where")
      invariant whereEnd.Some? ==> whereEnd.value <= i
      invariant whereEnd.Some? ==> FindWord(body, 0, 0, "where").Some? && FindWord(body, 0, 0, "where").value.1 == whereEnd.value
      invariant whereEnd.Some? ==> FindWord(body, whereEnd.value, 0, "returning") == FindWord(body, i, depth, "returning")
      decreases n - i
    {
      LooksAt(body, i, depth, if whereEnd.None? then "where" else "returning");
      var c := body[i];
      if c == '(' {
        depth, i := depth + 1, i + 1;
        continue;
      }
      if c == ')' {
        depth, i := depth - 1, i + 1;
        continue;
      }
      if depth == 0 && IsLetter(c) && (i == 0 || !IsWord(body[i - 1])) {
        var e := WordEnd(body, i + 1, n);
        if whereEnd.None? && SameWord(body, i, e, "where") {
          whereEnd := Some(e);
        } else if whereEnd.Some? && SameWord(body, i, e, "returning") {
          returningAt := i;
          break;
        }
        i := e;
        continue;
      }
      i := i + 1;
    }
    if whereEnd.None? {
      return false;
    }
    var hollow := IsHollowCondition(body[whereEnd.value..returningAt], empty);
    return !hollow;
  }

  /** Within its work the reader gives the verdict on the masked statement; beyond it nothing is claimed. */
  method DeleteHasWhere(t: string, from: nat, token: Option<string>, bs: bool, index: DollarIndex,
                        empty: string -> bool, work: Work) returns (r: bool)
    requires from <= |t| && Indexes(index, t, |t|)
    modifies work
    ensures var cost := MaskCost(t, from, token, bs, from, from, 0);
            && (work.exceeded <==> old(work.exceeded) || !Covers(old(work.left), cost))
            && (Covers(old(work.left), cost) ==>
                  && work.left == old(work.left) - cost
                  && r == HasWhere(Mask(t, from, token, bs, from, from, 0), empty))
  {
    var body := MaskBody(t, from, token, bs, index, work);
    r := BodyHasWhere(body, empty);
  }
}
