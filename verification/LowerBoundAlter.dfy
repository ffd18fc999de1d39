/** The lower bound detector's reader of ALTER TABLE statements: from the end of
    every head it reads one statement to its end and collects the actions. */
module LowerBoundAlter {
  import opened AlterTable
  import opened LowerBoundStrip
  import opened SqlLexis
  import opened Wrappers

  /** The actions, reading at i inside `depth` parentheses; the current action began at `from`. */
  function Actions(t: string, from: nat, i: nat, depth: nat): (r: seq<string>)
    requires from <= i <= |t|
    ensures r != []
    decreases |t| - i
  {
    if i == |t| || t[i] == ';' || (t[i] == ')' && depth == 0) then [t[from..i]]
    else if IsQuote(t[i]) then
      var end := QuoteEnd(t, i, false, 0, |t|);
      Actions(t, from, if end.Some? then end.value else |t|, depth)
    else if t[i] == '(' then Actions(t, from, i + 1, depth + 1)
    else if t[i] == ')' then Actions(t, from, i + 1, depth - 1)
    else if t[i] == ',' && depth == 0 then [t[from..i]] + Actions(t, i + 1, i + 1, depth)
    else Actions(t, from, i + 1, depth)
  }

  ghost predicate HeadsFit(t: string, heads: Heads) {
    forall k :: 0 <= k < |heads| ==> heads[k].1 <= |t|
  }

  /** Some statement that begins with one of the heads drops a column. */
  ghost predicate SomeStatementDrops(t: string, heads: Heads)
    requires HeadsFit(t, heads)
  {
    exists k :: 0 <= k < |heads| && AnyActionDrops(Actions(t, heads[k].1, heads[k].1, 0))
  }

  /** What reading one statement from i on costs. */
  function ActionsCost(t: string, i: nat, depth: nat): nat
    requires i <= |t|
    decreases |t| - i
  {
    if i == |t| then 0
    else if t[i] == ';' || (t[i] == ')' && depth == 0) then 1
    else if IsQuote(t[i]) then
      var end := QuoteEnd(t, i, false, 0, |t|);
      1 + QuoteCost(t, i) + ActionsCost(t, if end.Some? then end.value else |t|, depth)
    else 1 + ActionsCost(t, i + 1, if t[i] == '(' then depth + 1 else if t[i] == ')' then depth - 1 else depth)
  }

  /** What the heads from k on cost, up to the first statement that drops a column. */
  ghost function HeadsCost(t: string, heads: Heads, k: nat): nat
    requires HeadsFit(t, heads) && k <= |heads|
    decreases |heads| - k
  {
    if k == |heads| then 0
    else
      var start := heads[k].1;
      ActionsCost(t, start, 0) + if AnyActionDrops(Actions(t, start, start, 0)) then 0 else HeadsCost(t, heads, k + 1)
  }

  /** One statement with the budget; None when that ran out. */
  method ReadActions(t: string, start: nat, w: Budget) returns (r: Option<seq<string>>)
    requires start <= |t| && w.used <= w.limit
    modifies w
    ensures Paid(old(w.used), ActionsCost(t, start, 0), w, r.None?)
    ensures r.Some? ==> r.value == Actions(t, start, start, 0)
  {
    hide QuoteEnd, QuoteCost;
    var depth: nat, action, actions := 0, "", [];
    var i: nat := start;
    ghost var from := start;
    while i < |t|
      invariant start <= from <= i <= |t| && w.used <= w.limit && action == t[from..i]
      invariant old(w.used) + ActionsCost(t, start, 0) == w.used + ActionsCost(t, i, depth)
      invariant actions + Actions(t, from, i, depth) == Actions(t, start, start, 0)
      decreases |t| - i
    {
      var within := w.Tick(1);
      if !within {
        return None;
      }
      var c := t[i];
      if c == ';' {
        break;
      }
      if IsQuote(c) {
        var end := FindQuoteEndTicking(t, i, w);
        if end.None? {
          return None;
        }
        var stop := if end.value.Some? then end.value.value else |t|;
        Adjoining(t, from, i, stop);
        action := action + t[i..stop];
        i := stop;
        continue;
      }
      if c == '(' {
        depth := depth + 1;
      }
      if c == ')' {
        if depth == 0 {
          break;
        }
        depth := depth - 1;
      }
      if c == ',' && depth == 0 {
        Regroup(actions, action, Actions(t, i + 1, i + 1, depth));
        actions := actions + [action];
        action := "";
        i := i + 1;
        from := i;
        continue;
      }
      assert t[i..i + 1] == [c];
      Adjoining(t, from, i, i + 1);
      action := action + [c];
      i := i + 1;
    }
    return Some(actions + [action]);
  }

  lemma Adjoining(t: string, a: nat, b: nat, c: nat)
    requires a <= b <= c <= |t|
    ensures t[a..b] + t[b..c] == t[a..c]
  {
  }

  lemma Regroup(a: seq<string>, x: string, b: seq<string>)
    ensures a + ([x] + b) == a + [x] + b
  {
  }

  /** Within the budget the verdict is exact. */
  method DropsShorthand(t: string, heads: Heads, w: Budget) returns (r: Option<bool>)
    requires HeadsFit(t, heads) && w.used <= w.limit
    modifies w
    ensures Paid(old(w.used), HeadsCost(t, heads, 0), w, r.None?)
    ensures r.Some? ==> r.value == SomeStatementDrops(t, heads)
  {
    hide Actions, ActionsCost, AnyActionDrops;
    for k := 0 to |heads|
      invariant w.used <= w.limit
      invariant old(w.used) + HeadsCost(t, heads, 0) == w.used + HeadsCost(t, heads, k)
      invariant forall j :: 0 <= j < k ==> !AnyActionDrops(Actions(t, heads[j].1, heads[j].1, 0))
    {
      var actions := ReadActions(t, heads[k].1, w);
      if actions.None? {
        return None;
      }
      if AnyActionDrops(actions.value) {
        return Some(true);
      }
    }
    return Some(false);
  }
}
