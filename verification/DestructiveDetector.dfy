/** The detector of destructive statements: the new reading or the lower bound. */
module DestructiveDetector {
  import opened AlterTable
  import opened BlockComments
  import opened LowerBoundDetector
  import opened MaskStatement
  import opened SqlLexis
  import opened StripAgreement
  import opened StripComments
  import opened Wrappers

  ghost predicate NewFit(t: string, m: Patterns) {
    AreHeads(t, m.heads(t)) && forall k :: 0 <= k < |m.starts(t)| ==> StartFits(t, m.starts(t)[k])
  }

  ghost predicate NewStartDetected(t: string, bs: bool, m: Patterns, s: Start)
    requires StartFits(t, s)
  {
    s.Truncate? || !HasWhere(Mask(t, s.from, s.token, bs, s.from, s.from, 0), m.hollow)
  }

  /** The verdict on one text without any budget. */
  ghost predicate NewDestructive(t: string, bs: bool, m: Patterns)
    requires NewFit(t, m)
  {
    || m.drops(t) || Drops(t, m.heads(t), bs, Span(0, |t|, 0))
    || exists k :: 0 <= k < |m.starts(t)| && NewStartDetected(t, bs, m, m.starts(t)[k])
  }

  // ----- when the budgets run out -----

  ghost function WorkLimit(length: nat): nat { 60 * length + 2000000 }

  /** What reading the DELETE statements from the k-th start on costs. */
  ghost function MasksCost(t: string, bs: bool, starts: seq<Start>, k: nat): nat
    requires k <= |starts| && forall j :: 0 <= j < |starts| ==> StartFits(t, starts[j])
    decreases |starts| - k
  {
    if k == |starts| then 0
    else
      var s := starts[k];
      assert StartFits(t, s);
      (if s.Truncate? then 0 else MaskCost(t, s.from, s.token, bs, s.from, s.from, 0)) + MasksCost(t, bs, starts, k + 1)
  }

  /** Looking for closing quotes in vain, or reading the DELETE statements, costs more than its budget. */
  ghost predicate BudgetsOut(t: string, bs: bool, m: Patterns)
    requires NewFit(t, m)
  {
    || FailTotal(t, m.heads(t), bs, Span(0, |t|, 0)) > FailLimit(|t|)
    || MasksCost(t, bs, m.starts(t), 0) > WorkLimit(|t|)
  }

  lemma {:induction false} MasksCostBound(t: string, bs: bool, starts: seq<Start>, k: nat)
    requires k <= |starts| && forall j :: 0 <= j < |starts| ==> StartFits(t, starts[j])
    ensures MasksCost(t, bs, starts, k) <= (|starts| - k) * |t|
    decreases |starts| - k
  {
    hide MaskCost;
    if k < |starts| {
      var s, n := starts[k], |starts| - k - 1;
      assert StartFits(t, s);
      if s.Delete? {
        MaskCostBound(t, s.from, s.token, bs, s.from, s.from, 0);
      }
      MasksCostBound(t, bs, starts, k + 1);
      assert (1 + n) * |t| == |t| + n * |t|;
    }
  }

  /** With at most forty quotes and sixty starts no budget runs out. */
  lemma WithinBudgets(t: string, bs: bool, m: Patterns)
    requires NewFit(t, m) && Quotes(t, 0, |t|) <= 40 && |m.starts(t)| <= 60
    ensures !BudgetsOut(t, bs, m)
  {
    var starts, n := m.starts(t), |t|;
    assert WorkLimit(n) == 60 * n + 2000000;
    hide FailTotal, MasksCost, Quotes, FailLimit, WorkLimit;
    FewQuotes(t, m.heads(t), bs);
    MasksCostBound(t, bs, starts, 0);
    TimesSixty(|starts|, n);
  }

  lemma TimesSixty(k: nat, n: nat)
    requires k <= 60
    ensures k * n <= 60 * n
  {
    assert 60 * n == k * n + (60 - k) * n;
  }

  /** The text is detected when it is destructive or a budget runs out, and only then. */
  method SqlHasDestructiveStatement(t: string, bs: bool, m: Patterns) returns (detected: bool)
    requires NewFit(t, m)
    ensures detected <==> NewDestructive(t, bs, m) || BudgetsOut(t, bs, m)
  {
    hide Drops, FailTotal, HasWhere, Mask, MaskCost, Indexes;
    var work := new Work(|t|);
    if m.drops(t) {
      return true;
    }
    var alter := DropsColumnShorthand(t, m.heads(t), bs);
    if alter {
      return true;
    }
    var starts := m.starts(t);
    var index := BuildDollarIndex(t);
    for k := 0 to |starts|
      invariant !work.exceeded && work.left >= 0
      invariant work.left + MasksCost(t, bs, starts, 0) == WorkLimit(|t|) + MasksCost(t, bs, starts, k)
      invariant forall j :: 0 <= j < k ==> !NewStartDetected(t, bs, m, starts[j])
    {
      assert StartFits(t, starts[k]);
      if starts[k].Truncate? {
        assert NewStartDetected(t, bs, m, starts[k]);
        return true;
      }
      var where := DeleteHasWhere(t, starts[k].from, starts[k].token, bs, index, m.hollow, work);
      if !where || work.exceeded {
        assert !work.exceeded ==> NewStartDetected(t, bs, m, starts[k]);
        return true;
      }
    }
    return work.exceeded;
  }

  // ----- a file -----

  ghost predicate AnyReading(readings: seq<string>, bs: bool, m: Patterns)
    requires forall t: string :: NewFit(t, m)
  {
    exists k :: 0 <= k < |readings| && NewDestructive(readings[k], bs, m)
  }

  ghost predicate ModeDestructive(text: string, isSql: bool, readings: seq<string>, bs: bool, m: Patterns)
    requires forall t: string :: NewFit(t, m)
  {
    if isSql then NewDestructive(Normalized(Stripped(text, ReadEnds(text), bs)), bs, m) else AnyReading(readings, bs, m)
  }

  /** Backslashes are ordinary characters and, if the file asks for it, escapes as well. */
  ghost predicate NewFileDestructive(text: string, isSql: bool, readings: seq<string>, escapes: bool, m: Patterns)
    requires forall t: string :: NewFit(t, m)
  {
    ModeDestructive(text, isSql, readings, false, m) || (escapes && ModeDestructive(text, isSql, readings, true, m))
  }

  ghost predicate AnyOut(readings: seq<string>, bs: bool, m: Patterns)
    requires forall t: string :: NewFit(t, m)
  {
    exists k :: 0 <= k < |readings| && BudgetsOut(readings[k], bs, m)
  }

  ghost predicate ModeOut(text: string, isSql: bool, readings: seq<string>, bs: bool, m: Patterns)
    requires forall t: string :: NewFit(t, m)
  {
    if isSql then BudgetsOut(Normalized(Stripped(text, ReadEnds(text), bs)), bs, m) else AnyOut(readings, bs, m)
  }

  /** A budget runs out in one of the readings. */
  ghost predicate NewFileOut(text: string, isSql: bool, readings: seq<string>, escapes: bool, m: Patterns)
    requires forall t: string :: NewFit(t, m)
  {
    ModeOut(text, isSql, readings, false, m) || (escapes && ModeOut(text, isSql, readings, true, m))
  }

  method ModeDetects(text: string, isSql: bool, readings: seq<string>, bs: bool, m: Patterns) returns (detected: bool)
    requires forall t: string :: NewFit(t, m)
    ensures detected <==> ModeDestructive(text, isSql, readings, bs, m) || ModeOut(text, isSql, readings, bs, m)
  {
    hide NewFit, NewDestructive, BudgetsOut, Normalized, Stripped, ReadEnds;
    if isSql {
      var stripped := StripOnePass(text, bs);
      detected := SqlHasDestructiveStatement(Normalized(stripped), bs, m);
      return;
    }
    for k := 0 to |readings|
      invariant forall j :: 0 <= j < k ==> !NewDestructive(readings[j], bs, m) && !BudgetsOut(readings[j], bs, m)
    {
      detected := SqlHasDestructiveStatement(readings[k], bs, m);
      if detected {
        return;
      }
    }
    return false;
  }

  method NewDetects(text: string, isSql: bool, readings: seq<string>, escapes: bool, m: Patterns)
    returns (detected: bool)
    requires forall t: string :: NewFit(t, m)
    ensures detected <==> || NewFileDestructive(text, isSql, readings, escapes, m)
                          || NewFileOut(text, isSql, readings, escapes, m)
  {
    hide NewFit, ModeDestructive, ModeOut;
    detected := ModeDetects(text, isSql, readings, false, m);
    if !detected && escapes {
      detected := ModeDetects(text, isSql, readings, true, m);
    }
  }

  /** The final answer: one of the two detectors, without any budget, finds a destructive statement, or
      one of their budgets runs out. */
  method SqlTextHasDestructiveStatement(text: string, isSql: bool, readings: seq<string>, escapes: bool, m: Patterns,
                                        lowReadings: seq<string>, low: Patterns)
    returns (detected: bool)
    requires forall t: string :: NewFit(t, m)
    requires forall t: string :: Fit(t, low)
    ensures detected <==> || NewFileDestructive(text, isSql, readings, escapes, m)
                          || NewFileOut(text, isSql, readings, escapes, m)
                          || FileDestructive(text, isSql, lowReadings, low)
                          || FileCost(text, isSql, lowReadings, low) > Limit(|text|)
  {
    hide NewFit, Fit, NewFileDestructive, NewFileOut, FileDestructive, FileCost;
    detected := NewDetects(text, isSql, readings, escapes, m);
    if !detected {
      detected := DetectsDestructive(text, isSql, lowReadings, low);
    }
  }

  /** Without a shared slash both detectors judge the same text of an SQL file. */
  lemma SameTextRead(text: string)
    requires forall k: nat :: !OccursAt(text, "*/*", k)
    ensures Normalized(Stripped(text, ReadEnds(text), false)) == Normalized(Stripped(text, CountedEnds(text), false))
  {
    hide Stripped, ReadEnds, CountedEnds, Normalized;
    OnePassWithoutSharedSlash(text, false);
  }
}
