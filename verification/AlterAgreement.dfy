/** Where the range reader and the lower bound reader of ALTER TABLE agree. */
module AlterAgreement {
  import opened AlterLaws
  import opened AlterStatements
  import opened AlterTable
  import opened DropActions
  import opened LowerBoundAlter
  import opened Placement
  import opened SqlLexis
  import opened TextParts
  import opened Wrappers

  // ----- the action that the lower bound reader reads first -----

  /** Where the action ends that is being read at i inside `depth` parentheses. */
  function ActionEnd(t: string, i: nat, depth: nat): (x: nat)
    requires i <= |t|
    ensures i <= x <= |t|
    decreases |t| - i
  {
    if i == |t| || t[i] == ';' || (t[i] == ')' && depth == 0) || (t[i] == ',' && depth == 0) then i
    else if IsQuote(t[i]) then
      var end := QuoteEnd(t, i, false, 0, |t|);
      ActionEnd(t, if end.Some? then end.value else |t|, depth)
    else ActionEnd(t, i + 1, if t[i] == '(' then depth + 1 else if t[i] == ')' then depth - 1 else depth)
  }

  /** The action goes on behind i. */
  predicate GoesOn(t: string, i: nat, depth: nat) {
    i < |t| && t[i] != ';' && !(t[i] == ')' && depth == 0) && !(t[i] == ',' && depth == 0)
  }

  /** Where it goes on, and inside how many parentheses. */
  function Onward(t: string, i: nat, depth: nat): (r: (nat, nat))
    requires GoesOn(t, i, depth)
    ensures i < r.0 <= |t|
  {
    if IsQuote(t[i]) then
      var end := QuoteEnd(t, i, false, 0, |t|);
      (if end.Some? then end.value else |t|, depth)
    else (i + 1, if t[i] == '(' then depth + 1 else if t[i] == ')' then depth - 1 else depth)
  }

  lemma OnwardAt(t: string, from: nat, i: nat, depth: nat)
    requires from <= i && GoesOn(t, i, depth)
    ensures var n := Onward(t, i, depth);
            && Actions(t, from, i, depth) == Actions(t, from, n.0, n.1)
            && ActionEnd(t, i, depth) == ActionEnd(t, n.0, n.1)
  {
    hide QuoteEnd;
  }

  lemma ActionStops(t: string, from: nat, i: nat, depth: nat)
    requires from <= i <= |t| && !GoesOn(t, i, depth)
    ensures ActionEnd(t, i, depth) == i
    ensures Actions(t, from, i, depth)
         == [t[from..i]] + if i < |t| && t[i] == ',' then Actions(t, i + 1, i + 1, 0) else []
  {
  }

  lemma {:induction false} FirstAction(t: string, from: nat, i: nat, depth: nat)
    requires from <= i <= |t|
    ensures var x, r := ActionEnd(t, i, depth), Actions(t, from, i, depth);
            && r[0] == t[from..x]
            && r[1..] == if x < |t| && t[x] == ',' then Actions(t, x + 1, x + 1, 0) else []
    decreases |t| - i
  {
    hide Actions, ActionEnd, Onward;
    if GoesOn(t, i, depth) {
      var n := Onward(t, i, depth);
      OnwardAt(t, from, i, depth);
      FirstAction(t, from, n.0, n.1);
    } else {
      ActionStops(t, from, i, depth);
      hide GoesOn;
      var rest := if i < |t| && t[i] == ',' then Actions(t, i + 1, i + 1, 0) else [];
      assert ([t[from..i]] + rest)[1..] == rest;
    }
  }

  // ----- actions whose dollar signs are ordinary characters -----

  /** Reading the action from k on with dollar signs as ordinary characters ends where it ends. Behind
      the last action parentheses may stay open; at the end of the text a literal may. */
  ghost predicate PlainAction(a: string, k: nat, depth: nat, last: bool, atEnd: bool)
    requires k <= |a|
    decreases |a| - k
  {
    if k == |a| then last || depth == 0
    else if a[k] == ';' || (a[k] == ')' && depth == 0) || (a[k] == ',' && depth == 0) then false
    else if IsQuote(a[k]) then
      var end := QuoteEnd(a, k, false, 0, |a|);
      if end.Some? then PlainAction(a, end.value, depth, last, atEnd) else atEnd
    else PlainAction(a, k + 1, if a[k] == '(' then depth + 1 else if a[k] == ')' then depth - 1 else depth, last, atEnd)
  }

  ghost predicate PlainActions(actions: seq<string>, tail: string) {
    forall k :: 0 <= k < |actions| ==>
      PlainAction(actions[k], 0, 0, k == |actions| - 1, k == |actions| - 1 && tail == "")
  }

  /** The reader ends the action where it ends exactly when the action is plain. */
  lemma {:induction false} EndsHere(t: string, p: nat, a: string, e: nat, k: nat, i: nat, depth: nat,
                                    last: bool, atEnd: bool)
    requires Placed(t, p, a, e) && k <= |a| && i == p + k && i <= |t| && e <= |t|
    requires if last then e == |t| || t[e] == ';' else e < |t| && t[e] == ','
    requires atEnd <==> e == |t|
    ensures ActionEnd(t, i, depth) == e <==> PlainAction(a, k, depth, last, atEnd)
    decreases |a| - k
  {
    hide QuoteEnd, Placed;
    PlacedEnd(t, p, a, e);
    if k < |a| {
      PlacedAt(t, p, a, e, k);
      if a[k] == ';' || (a[k] == ')' && depth == 0) || (a[k] == ',' && depth == 0) {
      } else if IsQuote(a[k]) {
        var end := QuoteEnd(a, k, false, 0, |a|);
        if end.Some? {
          QuotePlaced(t, p, a, e, k, false);
          EndsHere(t, p, a, e, end.value, p + end.value, depth, last, atEnd);
        } else {
          QuoteOpenPlaced(t, p, a, e, k, false);
        }
      } else {
        EndsHere(t, p, a, e, k + 1, i + 1, if a[k] == '(' then depth + 1 else if a[k] == ')' then depth - 1 else depth,
                 last, atEnd);
      }
    }
  }

  /** The lower bound reader reads these very actions exactly when all of them are plain. */
  lemma {:induction false} ReadsActions(t: string, p: nat, actions: seq<string>, tail: string)
    requires actions != [] && EndsStatement(tail) && Separate(t, p) && t[p..] == Joined(actions) + tail
    ensures Actions(t, p, p, 0) == actions <==> PlainActions(actions, tail)
    decreases |actions|
  {
    hide Actions, ActionEnd, Joined, Placed, PlainAction;
    var a, rest := actions[0], actions[1..];
    var e, last := p + |a|, |actions| == 1;
    FirstPlaced(t, p, actions, tail, e);
    PlacedEnd(t, p, a, e);
    if last {
      TailLength(t, p, actions, tail);
    }
    EndsHere(t, p, a, e, 0, p, 0, last, e == |t|);
    FirstAction(t, p, p, 0);
    var x, read := ActionEnd(t, p, 0), Actions(t, p, p, 0);
    assert read == [read[0]] + read[1..] && actions == [a] + rest;
    assert t[p..x] == a <==> x == e by { SameEnd(t, p, a, e, x); }
    PlainSplit(actions, tail);
    if !last {
      ReadsActions(t, e + 1, rest, tail);
    }
  }

  lemma TailLength(t: string, p: nat, actions: seq<string>, tail: string)
    requires |actions| == 1 && p <= |t| && t[p..] == Joined(actions) + tail
    ensures |t| == p + |actions[0]| + |tail|
  {
  }

  lemma SameEnd(t: string, p: nat, a: string, e: nat, x: nat)
    requires Placed(t, p, a, e) && p <= x <= |t|
    ensures t[p..x] == a <==> x == e
  {
    assert t[p..e] == a;
  }

  lemma PlainSplit(actions: seq<string>, tail: string)
    requires actions != []
    ensures PlainActions(actions, tail) <==>
            && PlainAction(actions[0], 0, 0, |actions| == 1, |actions| == 1 && tail == "")
            && PlainActions(actions[1..], tail)
  {
    hide PlainAction;
    var rest := actions[1..];
    if PlainActions(actions, tail) {
      forall k | 0 <= k < |rest|
        ensures PlainAction(rest[k], 0, 0, k == |rest| - 1, k == |rest| - 1 && tail == "")
      {
        assert rest[k] == actions[k + 1];
      }
    } else {
      var k :| 0 <= k < |actions| && !PlainAction(actions[k], 0, 0, k == |actions| - 1, k == |actions| - 1 && tail == "");
      assert k > 0 ==> rest[k - 1] == actions[k];
    }
  }

  /** A single ALTER TABLE: the lower bound reader reads the same actions exactly when they are plain as
      well, and then both readers give the same verdict. */
  lemma SingleAlterAgrees(head: string, actions: seq<string>, tail: string)
    requires head != [] && (head[0] == 'A' || head[0] == 'a')
    requires actions != [] && AreActions(actions, false) && EndsStatement(tail)
    requires Separate(head + Joined(actions) + tail, |head|)
    ensures var t, heads := head + Joined(actions) + tail, [(0, |head|)];
            && AreHeads(t, heads) && HeadsFit(t, heads)
            && (Drops(t, heads, false, Span(0, |t|, 0)) <==> exists a | a in actions :: DropsSomething(a))
            && (Actions(t, |head|, |head|, 0) == actions <==> PlainActions(actions, tail))
            && (PlainActions(actions, tail) ==>
                  (SomeStatementDrops(t, heads) <==> Drops(t, heads, false, Span(0, |t|, 0))))
  {
    hide *;
    var t, n := head + Joined(actions) + tail, |head|;
    SingleAlterTable(head, actions, tail, false);
    SomeDropWritten(actions);
    SomeDropIs(actions);
    BehindHead(head, Joined(actions), tail);
    ReadsActions(t, n, actions, tail);
    OneHead(t, n);
  }

  lemma SomeDropIs(actions: seq<string>)
    ensures SomeDrop(actions) <==> exists a | a in actions :: DropsSomething(a)
  {
    hide DropsSomething;
  }

  lemma BehindHead(head: string, joined: string, tail: string)
    ensures (head + joined + tail)[|head|..] == joined + tail
  {
  }

  lemma OneHead(t: string, n: nat)
    requires n <= |t|
    ensures HeadsFit(t, [(0, n)]) && (SomeStatementDrops(t, [(0, n)]) <==> AnyActionDrops(Actions(t, n, n, 0)))
  {
    hide Actions, AnyActionDrops;
    var heads := [(0, n)];
    assert heads[0].1 == n;
  }

  /** A dollar-quoted semicolon ends the statement for the lower bound reader only: it misses what follows. */
  lemma DollarHidesDrop(head: string)
    requires head != [] && (head[0] == 'A' || head[0] == 'a') && !IdentChar(head[|head| - 1])
    ensures var t, heads := head + "$$;$$,DROP c", [(0, |head|)];
            && AreHeads(t, heads) && HeadsFit(t, heads)
            && Drops(t, heads, false, Span(0, |t|, 0)) && !SomeStatementDrops(t, heads)
  {
    var actions := ["$$;$$", "DROP c"];
    var t, heads, n := head + "$$;$$,DROP c", [(0, |head|)], |head|;
    assert Joined(actions) == "$$;$$,DROP c" by { assert actions[1..] == ["DROP c"]; }
    assert t + "" == t;
    assert t[n] == '$' && t[n + 1] == '$' && t[n + 2] == ';' && t[n..n + 2] == "$$";
    StopsInBody(t, n);
    BodyIsAction();
    DropIsDrop();
    assert AnyActionDrops(actions) by { assert "DROP c" in actions; }
    assert !AnyActionDrops(["$$"]);
    assert EndsStatement("");
    hide Drops, DropsColumn, AreActions, AreHeads, Joined, Actions, AnyActionDrops;
    SomeDropWritten(actions);
    hide *;
    SingleAlterTable(head, actions, "", false);
    SomeDropIs(actions);
  }

  lemma StopsInBody(t: string, n: nat)
    requires n + 2 < |t| && t[n] == '$' && t[n + 1] == '$' && t[n + 2] == ';'
    ensures Actions(t, n, n, 0) == [t[n..n + 2]]
  {
    assert Actions(t, n, n + 2, 0) == [t[n..n + 2]];
    assert Actions(t, n, n + 1, 0) == Actions(t, n, n + 2, 0);
  }

  lemma DropIsDrop()
    ensures DropsColumn("DROP c") && !DropsColumn("$$")
  {
    var a := "DROP c";
    assert SkipSpace(a, 0) == 0 && SkipSpace(a, 4) == SkipSpace(a, 5) == 5;
    assert SkipSpace("$$", 0) == 0;
    assert Upper(a[5]) == 'C' && a[4] == ' ';
  }

  lemma BodyIsAction()
    ensures AreActions(["$$;$$", "DROP c"], false)
  {
    var b, a := "$$;$$", "DROP c";
    assert TagRun(b, 1) == 1 && b[0..2] == "$$";
    assert DelimiterAt(b, 0, 0, 5) == Some("$$");
    assert b[2..4] != "$$" by { assert b[2..4][0] == ';'; }
    assert b[3..5] == "$$";
    assert FirstOccurrence(b, "$$", 2, 5) == FirstOccurrence(b, "$$", 3, 5) == Some(3);
    assert IsAction(b, 5, 0, false) && IsAction(b, 0, 0, false);
    assert IsAction(a, 6, 0, false) && IsAction(a, 5, 0, false) && IsAction(a, 4, 0, false) && IsAction(a, 3, 0, false);
    assert IsAction(a, 2, 0, false) && IsAction(a, 1, 0, false) && IsAction(a, 0, 0, false);
  }
}
