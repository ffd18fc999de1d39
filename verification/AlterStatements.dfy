/** The range reader of ALTER TABLE on statements as they are written. */
module AlterStatements {
  import opened AlterLaws
  import opened AlterTable
  import opened DropActions
  import opened Placement
  import opened SqlLexis
  import opened TextParts
  import opened Wrappers

  // ----- one ALTER TABLE -----

  /** The action is balanced, its literals are closed, and no comma or semicolon stands outside them at depth 0. */
  ghost predicate IsAction(a: string, k: nat, depth: nat, bs: bool)
    requires k <= |a|
    decreases |a| - k
  {
    if k == |a| then depth == 0
    else
      var c := a[k];
      if IsQuote(c) then
        var end := QuoteEnd(a, k, bs, 0, |a|);
        end.Some? && IsAction(a, end.value, depth, bs)
      else if c == '$' && DelimiterAt(a, k, 0, |a|).Some? then
        var d := DelimiterAt(a, k, 0, |a|).value;
        var close := FirstOccurrence(a, d, k + |d|, |a|);
        close.Some? && IsAction(a, close.value + |d|, depth, bs)
      else if c == '(' then IsAction(a, k + 1, depth + 1, bs)
      else if c == ')' then depth > 0 && IsAction(a, k + 1, depth - 1, bs)
      else c != ';' && !(c == ',' && depth == 0) && IsAction(a, k + 1, depth, bs)
  }

  function Joined(actions: seq<string>): string
    requires actions != []
  {
    if |actions| == 1 then actions[0] else actions[0] + "," + Joined(actions[1..])
  }

  /** No head starts from a up to b. */
  ghost predicate Free(heads: Heads, a: nat, b: nat) {
    forall k :: 0 <= k < |heads| ==> !(a <= heads[k].0 < b)
  }

  lemma NoneInside(heads: Heads, i: nat, hi: nat)
    requires Free(heads, i, hi)
    ensures !HeadIn(heads, i, hi) && forall cur :: i < hi ==> !AtHead(heads, i, cur)
  {
  }

  /** The move leads from i to n inside the same action. */
  predicate Advances(m: Move, i: nat, n: nat, depth: nat, inside: nat) {
    if m.Mark? then
      && n == i + 1 && m.c != ';' && !(m.c == ',' && depth == 0) && (m.c == ')' ==> depth > 0)
      && inside == if m.c == '(' then depth + 1 else if m.c == ')' then depth - 1 else depth
    else m == Deeper(n, []) && inside == depth
  }

  /** One move inside an action goes on inside the action. */
  lemma ActionMove(t: string, heads: Heads, bs: bool, p: nat, a: string, e: nat, k: nat, i: nat, depth: nat)
    returns (j: nat, inside: nat)
    requires Placed(t, p, a, e) && Free(heads, p, e) && k < |a| && i == p + k && IsAction(a, k, depth, bs)
    ensures k < j <= |a| && IsAction(a, j, inside, bs)
    ensures Advances(MoveAt(t, heads, bs, Span(0, |t|, 0), i), i, p + j, depth, inside)
  {
    hide Part, Placed, DelimiterAt, FirstOccurrence, QuoteEnd, FirstFrom, HeadIn;
    assert t[i] == a[k] by { PlacedAt(t, p, a, e, k); }
    var c := a[k];
    inside := depth;
    if IsQuote(c) {
      QuotePlaced(t, p, a, e, k, bs);
      j := QuoteEnd(a, k, bs, 0, |a|).value;
      PlacedEnd(t, p, a, e);
      NoneInside(heads, i, p + j);
    } else if c == '$' {
      j := ActionDollar(t, heads, bs, p, a, e, k, i, depth);
    } else {
      j := k + 1;
      inside := if c == '(' then depth + 1 else if c == ')' then depth - 1 else depth;
    }
  }

  lemma ActionDollar(t: string, heads: Heads, bs: bool, p: nat, a: string, e: nat, k: nat, i: nat, depth: nat)
    returns (j: nat)
    requires Placed(t, p, a, e) && Free(heads, p, e) && k < |a| && i == p + k && IsAction(a, k, depth, bs) && a[k] == '$'
    ensures k < j <= |a| && IsAction(a, j, depth, bs)
    ensures MoveAt(t, heads, bs, Span(0, |t|, 0), i) == Deeper(p + j, [])
         || (MoveAt(t, heads, bs, Span(0, |t|, 0), i) == Mark('$') && j == k + 1)
  {
    hide Part, Placed, DelimiterAt, FirstOccurrence, QuoteEnd, FirstFrom, HeadIn;
    PlacedAt(t, p, a, e, k);
    DelimiterPlaced(t, p, a, e, k);
    hide MoveAt;
    var d := DelimiterAt(a, k, 0, |a|);
    if d.Some? {
      DollarPlaced(t, p, a, e, k + |d.value|, d.value);
      var close := FirstOccurrence(a, d.value, k + |d.value|, |a|).value;
      j := close + |d.value|;
      PlacedEnd(t, p, a, e);
      NoneInside(heads, i, p + close);
      DollarMove(t, heads, bs, i, d.value, p + close);
    } else {
      j := k + 1;
      NoDollarMove(t, heads, bs, i);
    }
  }

  lemma DollarMove(t: string, heads: Heads, bs: bool, i: nat, d: string, close: nat)
    requires i < |t| && t[i] == '$' && DelimiterAt(t, i, 0, |t|) == Some(d)
    requires FirstOccurrence(t, d, i + |d|, |t|) == Some(close) && !HeadIn(heads, i, close)
    ensures MoveAt(t, heads, bs, Span(0, |t|, 0), i) == Deeper(close + |d|, [])
  {
    hide DelimiterAt, FirstOccurrence, HeadIn, QuoteEnd, OccursAt;
  }

  lemma NoDollarMove(t: string, heads: Heads, bs: bool, i: nat)
    requires i < |t| && t[i] == '$' && DelimiterAt(t, i, 0, |t|).None?
    ensures MoveAt(t, heads, bs, Span(0, |t|, 0), i) == Mark('$')
  {
    hide DelimiterAt, FirstOccurrence, HeadIn, QuoteEnd, OccursAt;
  }

  lemma {:induction false} ScanAction(t: string, heads: Heads, bs: bool, p: nat, a: string, e: nat, k: nat, i: nat,
                                      depth: nat, dropped: bool)
    requires Placed(t, p, a, e) && AreHeads(t, heads) && Free(heads, p, e)
    requires k <= |a| && i == p + k && IsAction(a, k, depth, bs)
    ensures var r := Span(0, |t|, 0);
            Scan(t, heads, bs, r, i, Altering(depth, p, i, dropped)) == Scan(t, heads, bs, r, e, Altering(0, p, e, dropped))
    decreases |a| - k
  {
    hide MoveAt, Part, AreHeads, HeadIn, DropsColumn, Scan, Advances, Placed, Free;
    if k == |a| {
      assert depth == 0 && i == e by { PlacedEnd(t, p, a, e); }
    } else {
      var j, inside := ActionMove(t, heads, bs, p, a, e, k, i, depth);
      hide IsAction;
      PlacedEnd(t, p, a, e);
      ActionTurn(t, heads, bs, p, i, p + j, e, depth, inside, dropped);
      ScanAction(t, heads, bs, p, a, e, j, p + j, inside, dropped);
    }
  }

  lemma ActionTurn(t: string, heads: Heads, bs: bool, p: nat, i: nat, n: nat, e: nat, depth: nat, inside: nat, dropped: bool)
    requires AreHeads(t, heads) && Free(heads, p, e) && p <= i < n <= e <= |t|
    requires Advances(MoveAt(t, heads, bs, Span(0, |t|, 0), i), i, n, depth, inside)
    ensures var r := Span(0, |t|, 0);
            Scan(t, heads, bs, r, i, Altering(depth, p, i, dropped)) == Scan(t, heads, bs, r, n, Altering(inside, p, n, dropped))
  {
    hide MoveAt, HeadIn, DropsColumn, FirstFrom, AtHead;
    NoneInside(heads, i, e);
    var r, cur := Span(0, |t|, 0), Altering(depth, p, i, dropped);
    assert TurnAt(t, heads, bs, r, i, cur) == Turn(false, n, Altering(inside, p, n, dropped), []);
    ScanAt(t, heads, bs, r, i, cur);
    var s := Scan(t, heads, bs, r, n, Altering(inside, p, n, dropped));
    assert [] + s.inner == s.inner;
  }

  ghost predicate AreActions(actions: seq<string>, bs: bool) {
    forall a | a in actions :: IsAction(a, 0, 0, bs)
  }

  // ----- where a statement ends -----

  /** What the reading finds behind the statement that ends at e: at the end of the text, at the next
      head, or behind a semicolon or closing parenthesis. */
  ghost predicate FindsBehind(t: string, heads: Heads, bs: bool, e: nat, rest: Seen)
    requires AreHeads(t, heads)
  {
    var r := Span(0, |t|, 0);
    if e >= |t| then e == |t| && rest == Seen(false, [])
    else if HeadAt(heads, e) then rest == Scan(t, heads, bs, r, e, Outside)
    else (t[e] == ';' || t[e] == ')') && rest == Scan(t, heads, bs, r, e + 1, Outside)
  }

  /** A head starts at e. */
  predicate HeadAt(heads: Heads, e: nat) {
    exists k | 0 <= k < |heads| :: heads[k].0 == e
  }

  lemma HeadIsFirst(t: string, heads: Heads, e: nat)
    requires AreHeads(t, heads) && HeadAt(heads, e)
    ensures var m := FirstFrom(heads, e); m < |heads| && heads[m].0 == e && e < heads[m].1 <= |t|
  {
    var k :| 0 <= k < |heads| && heads[k].0 == e;
    StartsIncrease(t, heads);
    var m := FirstFrom(heads, e);
    assert m == k;
  }

  lemma StartsIncrease(t: string, heads: Heads)
    requires AreHeads(t, heads)
    ensures forall j, k :: 0 <= j < k < |heads| ==> heads[j].0 < heads[k].0
  {
  }

  /** At its end the statement is judged by its actions, and the reading goes on. */
  lemma ScanEnd(t: string, heads: Heads, bs: bool, p: nat, a: string, e: nat, dropped: bool, rest: Seen)
    requires Placed(t, p, a, e) && AreHeads(t, heads) && FindsBehind(t, heads, bs, e, rest)
    ensures Scan(t, heads, bs, Span(0, |t|, 0), e, Altering(0, p, e, dropped))
         == Seen(dropped || DropsColumn(a) || rest.hit, rest.inner)
  {
    hide DropsColumn;
    var r, cur := Span(0, |t|, 0), Altering(0, p, e, dropped);
    assert t[p..e] == a;
    assert [] + rest.inner == rest.inner;
    hide Placed;
    if e < |t| {
      if HeadAt(heads, e) {
        ScanEndHead(t, heads, bs, p, e, dropped, rest);
      } else {
        ScanEndMark(t, heads, bs, p, e, dropped, rest);
      }
    }
  }

  lemma ScanEndHead(t: string, heads: Heads, bs: bool, p: nat, e: nat, dropped: bool, rest: Seen)
    requires p <= e < |t| && AreHeads(t, heads) && HeadAt(heads, e)
    requires rest == Scan(t, heads, bs, Span(0, |t|, 0), e, Outside)
    ensures Scan(t, heads, bs, Span(0, |t|, 0), e, Altering(0, p, e, dropped))
         == Seen(dropped || DropsColumn(t[p..e]) || rest.hit, rest.inner)
  {
    hide DropsColumn;
    var r, cur := Span(0, |t|, 0), Altering(0, p, e, dropped);
    HeadIsFirst(t, heads, e);
    var n := heads[FirstFrom(heads, e)].1;
    var begun := Altering(0, n, n, false);
    hide FirstFrom, Scan;
    assert TurnAt(t, heads, bs, r, e, cur) == Turn(dropped || DropsColumn(t[p..e]), n, begun, []);
    assert TurnAt(t, heads, bs, r, e, Outside) == Turn(false, n, begun, []);
    assert HeadIn(heads, e, |t|);
    ScanAt(t, heads, bs, r, e, cur);
    ScanAt(t, heads, bs, r, e, Outside);
    var s := Scan(t, heads, bs, r, n, begun);
    assert [] + s.inner == s.inner;
  }

  lemma ScanEndMark(t: string, heads: Heads, bs: bool, p: nat, e: nat, dropped: bool, rest: Seen)
    requires p <= e < |t| && AreHeads(t, heads) && !HeadAt(heads, e) && (t[e] == ';' || t[e] == ')')
    requires rest == Scan(t, heads, bs, Span(0, |t|, 0), e + 1, Outside)
    ensures Scan(t, heads, bs, Span(0, |t|, 0), e, Altering(0, p, e, dropped))
         == Seen(dropped || DropsColumn(t[p..e]) || rest.hit, rest.inner)
  {
    hide DropsColumn;
    hide MoveAt, TurnAt, Scan, Finish, DropsColumn, HeadIn, HeadAt, AreHeads, Over;
    var r, cur := Span(0, |t|, 0), Altering(0, p, e, dropped);
    MarkTurn(t, heads, bs, e, cur);
    ScanAt(t, heads, bs, r, e, cur);
    NotOverInside(heads, |t|, e, cur);
    assert [] + rest.inner == rest.inner;
    FinishAt(t, p, e, dropped);
  }

  lemma NotOverInside(heads: Heads, n: nat, e: nat, cur: Current)
    requires e < n && cur.Altering?
    ensures !Over(heads, Span(0, n, 0), e, cur)
  {
  }

  lemma FinishAt(t: string, p: nat, e: nat, dropped: bool)
    requires p <= e <= |t|
    ensures Finish(t, Altering(0, p, e, dropped)) == (dropped || DropsColumn(t[p..e]))
  {
    hide DropsColumn;
  }

  /** A character outside literals that is no head, where a statement may end. */
  lemma MarkTurn(t: string, heads: Heads, bs: bool, e: nat, cur: Current)
    requires Reads(t, heads, Span(0, |t|, 0), e, cur) && e < |t| && !IsQuote(t[e]) && t[e] != '$' && !HeadAt(heads, e)
    ensures var o := TurnAt(t, heads, bs, Span(0, |t|, 0), e, cur);
            && (cur.Outside? ==> o == Turn(false, e + 1, Outside, []))
            && (cur.Altering? && (t[e] == ';' || (t[e] == ')' && cur.depth == 0)) ==>
                  o == Turn(Finish(t, cur), e + 1, Outside, []))
  {
    assert MoveAt(t, heads, bs, Span(0, |t|, 0), e) == Mark(t[e]) by { hide QuoteEnd, FirstFrom; }
    assert !AtHead(heads, e, cur);
    hide MoveAt, AtHead, FirstFrom, Finish;
  }

  lemma ScanComma(t: string, heads: Heads, bs: bool, p: nat, a: string, e: nat, dropped: bool)
    requires Placed(t, p, a, e) && AreHeads(t, heads) && e < |t| && t[e] == ','
    ensures var r := Span(0, |t|, 0);
            var s := Scan(t, heads, bs, r, e + 1, Altering(0, e + 1, e + 1, dropped || DropsColumn(a)));
            Scan(t, heads, bs, r, e, Altering(0, p, e, dropped)) == s
  {
    hide DropsColumn, Scan;
    var r, cur := Span(0, |t|, 0), Altering(0, p, e, dropped);
    assert t[p..e] == a;
    assert MoveAt(t, heads, bs, r, e) == Mark(',');
    NotAtHead(t, heads, e);
    hide Part, Separate, MoveAt, AreHeads, HeadIn, FirstFrom, AtHead;
    var next := Altering(0, e + 1, e + 1, dropped || DropsColumn(a));
    assert TurnAt(t, heads, bs, r, e, cur) == Turn(false, e + 1, next, []);
    ScanAt(t, heads, bs, r, e, cur);
    var s := Scan(t, heads, bs, r, e + 1, next);
    assert [] + s.inner == s.inner;
  }

  /** Heads start with a letter. */
  lemma NotAtHead(t: string, heads: Heads, e: nat)
    requires AreHeads(t, heads) && e < |t| && t[e] != 'A' && t[e] != 'a'
    ensures forall cur :: !AtHead(heads, e, cur)
  {
  }

  /** What follows the last action does not belong to it. */
  predicate Stops(actions: seq<string>, tail: string)
    requires actions != []
  {
    tail != "" ==> Delimits(actions[|actions| - 1], tail[0])
  }

  /** Where the first of the actions stands. */
  lemma FirstPlaced(t: string, p: nat, actions: seq<string>, tail: string, e: nat)
    requires actions != [] && Stops(actions, tail) && Separate(t, p) && e == p + |actions[0]|
    requires t[p..] == Joined(actions) + tail
    ensures Placed(t, p, actions[0], e)
    ensures |actions| == 1 ==> e == |t| - |tail| && t[e..] == tail
    ensures |actions| > 1 ==>
              e < |t| && t[e] == ',' && t[e + 1..] == Joined(actions[1..]) + tail && Stops(actions[1..], tail)
  {
    var a, rest := actions[0], t[p..];
    if |actions| == 1 {
      assert rest == a + tail;
      assert t[e..] == rest[|a|..] == tail;
      assert tail != "" ==> t[e] == tail[0];
    } else {
      assert rest == a + ("," + (Joined(actions[1..]) + tail));
      assert t[e] == rest[|a|] == ',';
      assert t[e + 1..] == rest[|a| + 1..] == Joined(actions[1..]) + tail;
    }
    assert t[p..e] == rest[..|a|] == a;
  }

  /** The actions of a statement, from the end of its head to where it ends. */
  lemma {:induction false} ScanActions(t: string, heads: Heads, bs: bool, p: nat, actions: seq<string>, tail: string,
                                       e: nat, dropped: bool, rest: Seen)
    requires actions != [] && AreActions(actions, bs) && Stops(actions, tail) && AreHeads(t, heads)
    requires Separate(t, p) && t[p..] == Joined(actions) + tail && e == |t| - |tail| && Free(heads, p, e)
    requires FindsBehind(t, heads, bs, e, rest)
    ensures p <= e <= |t|
    ensures Scan(t, heads, bs, Span(0, |t|, 0), p, Altering(0, p, p, dropped))
         == Seen(dropped || AnyActionDrops(actions) || rest.hit, rest.inner)
    decreases |actions|
  {
    hide *;
    SeparateInside(t, p);
    ActionsFit(t, p, actions, tail, e);
    var a := actions[0];
    var n := p + |a|;
    FirstPlaced(t, p, actions, tail, n);
    PlacedEnd(t, p, a, n);
    var others := actions[1..];
    FirstOfActions(actions, bs);
    AnyFirst(actions);
    if |actions| == 1 {
      assert n == e;
      FreeInside(heads, p, e, p, n);
      ScanAction(t, heads, bs, p, a, n, 0, p, 0, dropped);
      ScanEnd(t, heads, bs, p, a, e, dropped, rest);
    } else {
      AfterComma(t, n);
      ActionsFit(t, n + 1, others, tail, e);
      FreeInside(heads, p, e, p, n);
      FreeInside(heads, p, e, n + 1, e);
      ScanActions(t, heads, bs, n + 1, others, tail, e, dropped || DropsColumn(a), rest);
      ScanAction(t, heads, bs, p, a, n, 0, p, 0, dropped);
      ScanComma(t, heads, bs, p, a, n, dropped);
    }
  }

  lemma SeparateInside(t: string, p: nat)
    requires Separate(t, p)
    ensures 0 < p <= |t|
  {
  }

  lemma ActionsFit(t: string, p: nat, actions: seq<string>, tail: string, e: nat)
    requires actions != [] && p <= |t| && t[p..] == Joined(actions) + tail && e == |t| - |tail|
    ensures p + |Joined(actions)| == e
  {
    hide Joined;
    assert |t[p..]| == |Joined(actions)| + |tail|;
  }

  lemma FirstOfActions(actions: seq<string>, bs: bool)
    requires actions != [] && AreActions(actions, bs)
    ensures IsAction(actions[0], 0, 0, bs) && AreActions(actions[1..], bs)
  {
    hide IsAction;
  }

  lemma AnyFirst(actions: seq<string>)
    requires actions != []
    ensures AnyActionDrops(actions) == (DropsColumn(actions[0]) || AnyActionDrops(actions[1..]))
    ensures |actions| == 1 ==> !AnyActionDrops(actions[1..])
  {
    hide DropsColumn;
    assert actions == [actions[0]] + actions[1..];
  }

  lemma FreeInside(heads: Heads, a: nat, b: nat, a': nat, b': nat)
    requires Free(heads, a, b) && a <= a' && b' <= b
    ensures Free(heads, a', b')
  {
  }

  lemma AfterComma(t: string, e: nat)
    requires e < |t| && t[e] == ','
    ensures Separate(t, e + 1)
  {
  }

  // ----- several statements -----

  /** One ALTER TABLE: what stands before its head, the head, its actions and what ends it. */
  datatype Alter = Alter(gap: string, head: string, actions: ActionList, stop: string)

  type ActionList = a: seq<string> | a != [] witness [""]

  /** The statements one after the other, and the rest of the text. */
  function ScriptText(ss: seq<Alter>, last: string): string
  {
    if ss == [] then last else
      var s := ss[0];
      s.gap + (s.head + (Joined(s.actions) + (s.stop + ScriptText(ss[1..], last))))
  }

  /** Where their heads are, when the first begins at off. */
  function ScriptHeads(ss: seq<Alter>, off: nat): Heads
  {
    if ss == [] then [] else
      var s := ss[0];
      var p := off + |s.gap| + |s.head|;
      [(off + |s.gap|, p)] + ScriptHeads(ss[1..], p + |Joined(s.actions)| + |s.stop|)
  }

  /** Statements end with a semicolon or parenthesis, where the next head stands or where the text ends;
      between them there are no literals. */
  ghost predicate WellPlaced(ss: seq<Alter>, last: string, bs: bool)
  {
    ss != [] ==>
      var s, behind := ss[0], ss[0].stop + ScriptText(ss[1..], last);
      && (forall c | c in s.gap :: !IsQuote(c) && c != '$')
      && s.head != "" && (s.head[0] == 'A' || s.head[0] == 'a')
      && AreActions(s.actions, bs) && Stops(s.actions, behind)
      && Separate(s.head + (Joined(s.actions) + behind), |s.head|)
      && (s.stop == ";" || s.stop == ")"
          || (s.stop == "" && if |ss| > 1 then ss[1].gap == "" else last == ""))
      && WellPlaced(ss[1..], last, bs)
  }

  /** No literals from i up to j. */
  ghost predicate IsGap(t: string, i: nat, j: nat)
    requires j <= |t|
  {
    forall k :: i <= k < j ==> !IsQuote(t[k]) && t[k] != '$'
  }

  /** Outside statements the reading finds the same from i as from j on. */
  ghost predicate SameFrom(t: string, heads: Heads, bs: bool, i: nat, j: nat)
    requires AreHeads(t, heads) && i <= |t| && j <= |t|
  {
    Scan(t, heads, bs, Span(0, |t|, 0), i, Outside) == Scan(t, heads, bs, Span(0, |t|, 0), j, Outside)
  }

  /** So it does with every step from i up to j. */
  ghost predicate StepsSame(t: string, heads: Heads, bs: bool, i: nat, j: nat)
    requires AreHeads(t, heads) && j <= |t|
  {
    forall k: nat, n: nat :: i <= k && n == k + 1 && n <= j ==> SameFrom(t, heads, bs, k, n)
  }

  lemma ScanGap(t: string, heads: Heads, bs: bool, i: nat, j: nat)
    requires AreHeads(t, heads) && i <= j <= |t| && Free(heads, i, j) && IsGap(t, i, j)
    ensures SameFrom(t, heads, bs, i, j)
  {
    hide AreHeads, SameFrom;
    forall k: nat, n: nat | i <= k && n == k + 1 && n <= j
      ensures SameFrom(t, heads, bs, k, n)
    {
      GapOne(t, heads, bs, k);
    }
    SameAlong(t, heads, bs, i, j);
  }

  lemma {:induction false} SameAlong(t: string, heads: Heads, bs: bool, i: nat, j: nat)
    requires AreHeads(t, heads) && i <= j <= |t| && StepsSame(t, heads, bs, i, j)
    ensures SameFrom(t, heads, bs, i, j)
    decreases j - i
  {
    if i < j {
      StepSame(t, heads, bs, i, j);
      hide *;
      SameAlong(t, heads, bs, i + 1, j);
      SameThrough(t, heads, bs, i, j);
    }
  }

  lemma StepSame(t: string, heads: Heads, bs: bool, i: nat, j: nat)
    requires AreHeads(t, heads) && i < j <= |t| && StepsSame(t, heads, bs, i, j)
    ensures SameFrom(t, heads, bs, i, i + 1) && StepsSame(t, heads, bs, i + 1, j)
  {
    hide AreHeads, SameFrom;
  }

  lemma SameThrough(t: string, heads: Heads, bs: bool, i: nat, j: nat)
    requires AreHeads(t, heads) && i < j <= |t|
    requires SameFrom(t, heads, bs, i, i + 1) && SameFrom(t, heads, bs, i + 1, j)
    ensures SameFrom(t, heads, bs, i, j)
  {
    hide Scan, AreHeads;
  }

  lemma GapOne(t: string, heads: Heads, bs: bool, i: nat)
    requires AreHeads(t, heads) && i < |t| && !IsQuote(t[i]) && t[i] != '$' && !HeadAt(heads, i)
    ensures SameFrom(t, heads, bs, i, i + 1)
  {
    hide AreHeads, HeadAt, Scan, TurnAt, MoveAt, IsQuote;
    MarkTurn(t, heads, bs, i, Outside);
    GapStep(t, heads, bs, i);
  }

  lemma GapStep(t: string, heads: Heads, bs: bool, i: nat)
    requires AreHeads(t, heads) && i < |t| && TurnAt(t, heads, bs, Span(0, |t|, 0), i, Outside) == Turn(false, i + 1, Outside, [])
    ensures Scan(t, heads, bs, Span(0, |t|, 0), i, Outside) == Scan(t, heads, bs, Span(0, |t|, 0), i + 1, Outside)
  {
    hide MoveAt, TurnAt, Scan, Finish, HeadIn, AreHeads, Over;
    var r := Span(0, |t|, 0);
    var s := Scan(t, heads, bs, r, i + 1, Outside);
    ScanAt(t, heads, bs, r, i, Outside);
    ScanAt(t, heads, bs, r, i + 1, Outside);
    OverAhead(heads, i, |t|);
    FinishOutside(t);
    assert [] + s.inner == s.inner;
  }

  lemma FinishOutside(t: string)
    ensures !Finish(t, Outside)
  {
  }

  lemma OverAhead(heads: Heads, i: nat, hi: nat)
    ensures Over(heads, Span(0, hi, 0), i, Outside) ==> Over(heads, Span(0, hi, 0), i + 1, Outside)
  {
  }

  /** A head that is met outside statements begins one. */
  lemma ScanHead(t: string, heads: Heads, bs: bool, i: nat, n: nat)
    requires AreHeads(t, heads) && HeadAt(heads, i) && (i, n) in heads
    ensures i < n <= |t|
    ensures Scan(t, heads, bs, Span(0, |t|, 0), i, Outside)
         == Scan(t, heads, bs, Span(0, |t|, 0), n, Altering(0, n, n, false))
  {
    var r := Span(0, |t|, 0);
    HeadIsFirst(t, heads, i);
    var m := FirstFrom(heads, i);
    var k :| 0 <= k < |heads| && heads[k] == (i, n);
    StartsIncrease(t, heads);
    assert m == k;
    hide FirstFrom, Scan;
    assert TurnAt(t, heads, bs, r, i, Outside) == Turn(false, n, Altering(0, n, n, false), []);
    assert HeadIn(heads, i, |t|);
    ScanAt(t, heads, bs, r, i, Outside);
    var s := Scan(t, heads, bs, r, n, Altering(0, n, n, false));
    assert [] + s.inner == s.inner;
  }

  ghost predicate SomeDrops(ss: seq<Alter>) {
    exists s | s in ss :: SomeDrop(s.actions)
  }

  /** The heads from `off` on are those of the statements. */
  ghost predicate HeadsFrom(heads: Heads, before: nat, off: nat, ss: seq<Alter>)
  {
    && before <= |heads| && heads[before..] == ScriptHeads(ss, off)
    && forall k :: 0 <= k < before ==> heads[k].0 < off
  }

  /** Where the parts of the first statement stand. */
  lemma FirstStatement(t: string, ss: seq<Alter>, last: string, off: nat)
    requires ss != [] && off <= |t| && t[off..] == ScriptText(ss, last)
    ensures var s, rest := ss[0], ScriptText(ss[1..], last);
            var g := off + |s.gap|;
            var p := g + |s.head|;
            var e := p + |Joined(s.actions)|;
            var next := e + |s.stop|;
            && next <= |t| && t[off..g] == s.gap && t[g..] == s.head + (Joined(s.actions) + (s.stop + rest))
            && t[p..] == Joined(s.actions) + (s.stop + rest) && t[e..] == s.stop + rest && t[next..] == rest
  {
    var s, rest := ss[0], ScriptText(ss[1..], last);
    var a, b, c, u := s.gap, s.head, Joined(s.actions), t[off..];
    assert u == a + (b + (c + (s.stop + rest)));
    hide ScriptText, Joined;
    Dropped(t, off, a, b + (c + (s.stop + rest)));
    var g := off + |a|;
    Dropped(t, g, b, c + (s.stop + rest));
    Dropped(t, g + |b|, c, s.stop + rest);
    Dropped(t, g + |b| + |c|, s.stop, rest);
  }

  lemma Dropped(t: string, off: nat, x: string, y: string)
    requires off <= |t| && t[off..] == x + y
    ensures off + |x| <= |t| && t[off..off + |x|] == x && t[off + |x|..] == y
  {
    assert t[off..off + |x|] == t[off..][..|x|];
    assert t[off + |x|..] == t[off..][|x|..];
  }

  ghost predicate AllFrom(hs: Heads, off: nat) {
    forall k :: 0 <= k < |hs| ==> off <= hs[k].0
  }

  lemma AllFromEarlier(hs: Heads, off: nat, later: nat)
    requires AllFrom(hs, later) && off <= later
    ensures AllFrom(hs, off)
  {
  }

  /** The heads of the statements are heads. */
  lemma {:induction false} ScriptHeadsFit(t: string, ss: seq<Alter>, last: string, off: nat, bs: bool)
    requires off <= |t| && t[off..] == ScriptText(ss, last)
    requires WellPlaced(ss, last, bs)
    ensures AreHeads(t, ScriptHeads(ss, off)) && AllFrom(ScriptHeads(ss, off), off)
    decreases |ss|
  {
    if ss != [] {
      hide *;
      var s, hs := ss[0], ScriptHeads(ss, off);
      var g := off + |s.gap|;
      var next := g + |s.head| + |Joined(s.actions)| + |s.stop|;
      FirstStatement(t, ss, last, off);
      HeadBegins(ss, last, bs);
      HeadsAt(ss, off, g, next);
      ScriptHeadsFit(t, ss[1..], last, next, bs);
      assert t[g] == t[g..][0] == s.head[0];
      HeadsJoined(t, hs, g + |s.head|, next, ScriptHeads(ss[1..], next));
      AllFromEarlier(hs, off, g);
    }
  }

  lemma HeadsAt(ss: seq<Alter>, off: nat, g: nat, next: nat)
    requires ss != [] && g == off + |ss[0].gap| && next == g + |ss[0].head| + |Joined(ss[0].actions)| + |ss[0].stop|
    ensures var hs := ScriptHeads(ss, off);
            hs != [] && hs[0] == (g, g + |ss[0].head|) && hs[1..] == ScriptHeads(ss[1..], next)
  {
    hide Joined;
  }

  lemma HeadBegins(ss: seq<Alter>, last: string, bs: bool)
    requires ss != [] && WellPlaced(ss, last, bs)
    ensures WellPlaced(ss[1..], last, bs) && ss[0].head != "" && (ss[0].head[0] == 'A' || ss[0].head[0] == 'a')
  {
    hide ScriptText, Joined, AreActions, Stops, Separate;
  }

  lemma HeadsJoined(t: string, hs: Heads, p: nat, next: nat, rest: Heads)
    requires hs != [] && hs[1..] == rest && AreHeads(t, rest) && hs[0].1 == p <= next && hs[0].0 < p <= |t|
    requires t[hs[0].0] == 'A' || t[hs[0].0] == 'a'
    requires AllFrom(rest, next)
    ensures AreHeads(t, hs) && AllFrom(hs, hs[0].0)
  {
    assert forall k :: 1 <= k < |hs| ==> hs[k] == rest[k - 1];
  }

  /** Behind the gap stands the first head, and the others behind the statement. */
  lemma FirstHead(t: string, heads: Heads, before: nat, off: nat, ss: seq<Alter>)
    requires ss != [] && AreHeads(t, heads)
    requires HeadsFrom(heads, before, off, ss)
    ensures var s := ss[0];
            var g := off + |s.gap|;
            var p := g + |s.head|;
            var e := p + |Joined(s.actions)|;
            var next := e + |s.stop|;
            && (g, p) in heads && HeadAt(heads, g) && Free(heads, off, g)
            && HeadsFrom(heads, before + 1, next, ss[1..])
            && forall k :: 0 <= k < before + 1 ==> heads[k].0 < p
  {
    var s := ss[0];
    var g := off + |s.gap|;
    var p := g + |s.head|;
    var next := p + |Joined(s.actions)| + |s.stop|;
    assert heads[before..][0] == heads[before] == (g, p);
    assert heads[before..][1..] == heads[before + 1..];
    assert forall k :: before < k < |heads| ==> heads[before].1 <= heads[k].0;
  }

  lemma {:induction false} HeadsAhead(ss: seq<Alter>, off: nat)
    ensures AllFrom(ScriptHeads(ss, off), off)
    decreases |ss|
  {
    if ss != [] {
      var s := ss[0];
      var next := off + |s.gap| + |s.head| + |Joined(s.actions)| + |s.stop|;
      HeadsAhead(ss[1..], next);
      var hs := ScriptHeads(ss, off);
      assert forall k :: 1 <= k < |hs| ==> hs[k] == ScriptHeads(ss[1..], next)[k - 1];
    }
  }

  lemma FreeActions(heads: Heads, before: nat, p: nat, e: nat, next: nat, ss: seq<Alter>)
    requires HeadsFrom(heads, before, next, ss) && e <= next
    requires forall k :: 0 <= k < before ==> heads[k].0 < p
    ensures Free(heads, p, e)
  {
    HeadsAhead(ss, next);
    hide ScriptHeads;
    FreeBetween(heads, before, p, e, next, ScriptHeads(ss, next));
  }

  lemma FreeBetween(heads: Heads, before: nat, p: nat, e: nat, next: nat, hs: Heads)
    requires before <= |heads| && heads[before..] == hs && AllFrom(hs, next) && e <= next
    requires forall k :: 0 <= k < before ==> heads[k].0 < p
    ensures Free(heads, p, e)
  {
    assert forall k :: before <= k < |heads| ==> heads[k] == hs[k - before];
  }

  /** What the reading finds behind the first statement is what it finds in the others. */
  lemma BehindFirst(t: string, heads: Heads, bs: bool, before: nat, e: nat, next: nat, ss: seq<Alter>, last: string,
                    rest: Seen)
    requires ss != [] && AreHeads(t, heads) && WellPlaced(ss, last, bs)
    requires e <= next <= |t| && next == e + |ss[0].stop| && t[e..] == ss[0].stop + ScriptText(ss[1..], last)
    requires HeadsFrom(heads, before, next, ss[1..])
    requires rest == Scan(t, heads, bs, Span(0, |t|, 0), next, Outside)
    ensures FindsBehind(t, heads, bs, e, rest)
  {
    hide *;
    if ss[0].stop == "" {
      assert next == e;
      if |ss| > 1 {
        NextIsHead(t, heads, before, e, ss, last, bs);
        FindsNext(t, heads, bs, e, rest);
      } else {
        LastEnds(t, heads, before, e, ss, last, bs);
        NoStatements(t, heads, bs, before, e, ss[1..]);
        FindsEnd(t, heads, bs, e, rest);
      }
    } else {
      StopMark(t, heads, e, ss, last, bs);
      assert next == e + 1;
      FindsNext(t, heads, bs, e, rest);
    }
  }

  lemma LastEnds(t: string, heads: Heads, before: nat, e: nat, ss: seq<Alter>, last: string, bs: bool)
    requires |ss| == 1 && ss[0].stop == "" && AreHeads(t, heads) && WellPlaced(ss, last, bs)
    requires e <= |t| && t[e..] == ss[0].stop + ScriptText(ss[1..], last) && HeadsFrom(heads, before, e, ss[1..])
    ensures e == |t| && ss[1..] == []
  {
    assert ss[1..] == [];
    assert |t[e..]| == 0;
  }

  lemma StopMark(t: string, heads: Heads, e: nat, ss: seq<Alter>, last: string, bs: bool)
    requires ss != [] && ss[0].stop != "" && AreHeads(t, heads) && WellPlaced(ss, last, bs)
    requires e <= |t| && t[e..] == ss[0].stop + ScriptText(ss[1..], last)
    ensures |ss[0].stop| == 1 && e < |t| && (t[e] == ';' || t[e] == ')') && !HeadAt(heads, e)
  {
    hide ScriptText, Joined, AreActions, Stops, Separate;
    assert t[e] == t[e..][0] == ss[0].stop[0];
  }

  lemma FindsEnd(t: string, heads: Heads, bs: bool, e: nat, rest: Seen)
    requires AreHeads(t, heads) && e == |t| && rest == Seen(false, [])
    ensures FindsBehind(t, heads, bs, e, rest)
  {
  }

  lemma FindsNext(t: string, heads: Heads, bs: bool, e: nat, rest: Seen)
    requires AreHeads(t, heads) && e < |t|
    requires if HeadAt(heads, e) then rest == Scan(t, heads, bs, Span(0, |t|, 0), e, Outside)
             else (t[e] == ';' || t[e] == ')') && rest == Scan(t, heads, bs, Span(0, |t|, 0), e + 1, Outside)
    ensures FindsBehind(t, heads, bs, e, rest)
  {
    hide AreHeads, Scan, HeadAt;
  }

  lemma NextIsHead(t: string, heads: Heads, before: nat, e: nat, ss: seq<Alter>, last: string, bs: bool)
    requires |ss| > 1 && ss[0].stop == "" && AreHeads(t, heads) && WellPlaced(ss, last, bs)
    requires HeadsFrom(heads, before, e, ss[1..])
    ensures e < |t| && HeadAt(heads, e)
  {
    hide ScriptText, Joined, AreActions, Stops, Separate;
    assert ss[1..][0] == ss[1];
    FirstHead(t, heads, before, e, ss[1..]);
    HeadIsFirst(t, heads, e);
  }

  lemma NoStatements(t: string, heads: Heads, bs: bool, before: nat, off: nat, ss: seq<Alter>)
    requires AreHeads(t, heads) && ss == [] && HeadsFrom(heads, before, off, ss) && off <= |t|
    ensures Scan(t, heads, bs, Span(0, |t|, 0), off, Outside) == Seen(SomeDrops(ss), []) == Seen(false, [])
  {
    assert heads[before..] == [];
    assert Over(heads, Span(0, |t|, 0), off, Outside);
    hide AreHeads;
    ScanAt(t, heads, bs, Span(0, |t|, 0), off, Outside);
  }

  /** Every statement is judged by its own actions. */
  lemma {:induction false} ScanScript(t: string, heads: Heads, bs: bool, before: nat, ss: seq<Alter>, last: string, off: nat)
    requires off <= |t| && t[off..] == ScriptText(ss, last)
    requires AreHeads(t, heads) && HeadsFrom(heads, before, off, ss) && WellPlaced(ss, last, bs)
    ensures Scan(t, heads, bs, Span(0, |t|, 0), off, Outside) == Seen(SomeDrops(ss), [])
    decreases |ss|
  {
    if ss == [] {
      hide *;
      NoStatements(t, heads, bs, before, off, ss);
    } else {
      hide *;
      var s := ss[0];
      FirstStatement(t, ss, last, off);
      FirstHead(t, heads, before, off, ss);
      var g := off + |s.gap|;
      var p := g + |s.head|;
      var e := p + |Joined(s.actions)|;
      var next := e + |s.stop|;
      var tail := s.stop + ScriptText(ss[1..], last);
      WellPlacedAt(t, ss, last, bs, off);
      ScanScript(t, heads, bs, before + 1, ss[1..], last, next);
      BehindFirst(t, heads, bs, before + 1, e, next, ss, last, Seen(SomeDrops(ss[1..]), []));
      ScanStatement(t, heads, bs, before + 1, ss, s.actions, tail, off, g, p, e, next);
    }
  }

  lemma ScanStatement(t: string, heads: Heads, bs: bool, before: nat, ss: seq<Alter>, actions: ActionList, tail: string,
                      off: nat, g: nat, p: nat, e: nat, next: nat)
    requires ss != [] && actions == ss[0].actions && AreHeads(t, heads)
    requires off <= g <= p <= e <= next <= |t| && IsGap(t, off, g) && Free(heads, off, g)
    requires HeadAt(heads, g) && (g, p) in heads
    requires Separate(t, p) && t[p..] == Joined(actions) + tail && e == |t| - |tail|
    requires AreActions(actions, bs) && Stops(actions, tail)
    requires HeadsFrom(heads, before, next, ss[1..]) && forall k :: 0 <= k < before ==> heads[k].0 < p
    requires FindsBehind(t, heads, bs, e, Seen(SomeDrops(ss[1..]), []))
    ensures Scan(t, heads, bs, Span(0, |t|, 0), off, Outside) == Seen(SomeDrops(ss), [])
  {
    hide Scan, AreHeads, Free, IsGap, HeadAt, Separate, Joined, AreActions, Stops, HeadsFrom, FindsBehind, SomeDrops;
    ScanGap(t, heads, bs, off, g);
    assert Scan(t, heads, bs, Span(0, |t|, 0), off, Outside) == Scan(t, heads, bs, Span(0, |t|, 0), g, Outside);
    hide *;
    SomeFirst(ss);
    SomeDropWritten(actions);
    ScanHead(t, heads, bs, g, p);
    FreeActions(heads, before, p, e, next, ss[1..]);
    ScanActions(t, heads, bs, p, actions, tail, e, false, Seen(SomeDrops(ss[1..]), []));
  }

  lemma SomeFirst(ss: seq<Alter>)
    requires ss != []
    ensures SomeDrops(ss) == (SomeDrop(ss[0].actions) || SomeDrops(ss[1..]))
  {
    hide SomeDrop;
    assert ss == [ss[0]] + ss[1..];
  }

  lemma SeparateMoved(t: string, g: nat, u: string, n: nat)
    requires g <= |t| && t[g..] == u && Separate(u, n)
    ensures Separate(t, g + n)
  {
    assert t[g + n - 1] == u[n - 1] && (n < |u| ==> t[g + n] == u[n]);
  }

  lemma GapMoved(t: string, off: nat, g: nat, gap: string)
    requires off <= g <= |t| && t[off..g] == gap && forall c | c in gap :: !IsQuote(c) && c != '$'
    ensures IsGap(t, off, g)
  {
    forall k | off <= k < g
      ensures !IsQuote(t[k]) && t[k] != '$'
    {
      assert t[k] == gap[k - off] && gap[k - off] in gap;
    }
  }

  lemma WellPlacedAt(t: string, ss: seq<Alter>, last: string, bs: bool, off: nat)
    requires ss != [] && WellPlaced(ss, last, bs)
    requires off <= |t| && t[off..] == ScriptText(ss, last)
    ensures var s, tail := ss[0], ss[0].stop + ScriptText(ss[1..], last);
            var p := off + |s.gap| + |s.head|;
            && off + |s.gap| <= |t| && IsGap(t, off, off + |s.gap|)
            && AreActions(s.actions, bs) && Stops(s.actions, tail) && Separate(t, p) && WellPlaced(ss[1..], last, bs)
            && p + |Joined(s.actions)| == |t| - |tail|
  {
    FirstStatement(t, ss, last, off);
    var s, tail := ss[0], ss[0].stop + ScriptText(ss[1..], last);
    var g := off + |s.gap|;
    var p := g + |s.head|;
    var u := s.head + (Joined(s.actions) + tail);
    hide ScriptText, Joined, AreActions, Stops, Separate;
    GapMoved(t, off, g, s.gap);
    assert |u| == |t| - g;
    SeparateMoved(t, g, u, |s.head|);
  }

  /** In a text of several ALTER TABLE statements a dropped column is found exactly when one of their
      actions is written as such. */
  lemma AlterScript(ss: seq<Alter>, last: string, bs: bool)
    requires WellPlaced(ss, last, bs)
    ensures var t, heads := ScriptText(ss, last), ScriptHeads(ss, 0);
            && AreHeads(t, heads)
            && (Drops(t, heads, bs, Span(0, |t|, 0)) <==> exists s | s in ss :: SomeDrop(s.actions))
  {
    var t, heads := ScriptText(ss, last), ScriptHeads(ss, 0);
    assert t[0..] == t && heads[0..] == heads;
    ScriptHeadsFit(t, ss, last, 0, bs);
    ScanScript(t, heads, bs, 0, ss, last, 0);
    hide *;
    DropsStep(t, heads, bs, Span(0, |t|, 0));
    NoneDrops(t, heads, bs);
    SomeDropsIs(ss);
  }

  lemma SomeDropsIs(ss: seq<Alter>)
    ensures SomeDrops(ss) <==> exists s | s in ss :: SomeDrop(s.actions)
  {
  }

  predicate EndsStatement(tail: string) { tail == "" || tail[0] == ';' }

  /** A single ALTER TABLE is detected exactly when one of its actions is the word DROP followed by
      something other than the word CONSTRAINT. */
  lemma SingleAlterTable(head: string, actions: seq<string>, tail: string, bs: bool)
    requires head != [] && (head[0] == 'A' || head[0] == 'a')
    requires actions != [] && AreActions(actions, bs) && EndsStatement(tail)
    requires Separate(head + Joined(actions) + tail, |head|)
    ensures var t, heads := head + Joined(actions) + tail, [(0, |head|)];
            && AreHeads(t, heads)
            && (Drops(t, heads, bs, Span(0, |t|, 0)) <==> exists a | a in actions :: DropsSomething(a))
  {
    var stop := if tail == "" then "" else ";";
    var last := if tail == "" then "" else tail[1..];
    var s := Alter("", head, actions, stop);
    assert tail == stop + last;
    assert [s][1..] == [];
    assert head + Joined(actions) + tail == head + (Joined(actions) + tail);
    assert "" + (head + (Joined(actions) + (stop + last))) == head + (Joined(actions) + tail);
    assert ScriptText([s], last) == head + Joined(actions) + tail;
    assert ScriptHeads([s], 0) == [(0, |head|)];
    assert WellPlaced([s], last, bs);
    hide *;
    AlterScript([s], last, bs);
    OneScript(s);
  }

  lemma OneScript(s: Alter)
    ensures (exists x | x in [s] :: SomeDrop(x.actions)) <==> exists a | a in s.actions :: DropsSomething(a)
  {
    assert s in [s];
  }
}
