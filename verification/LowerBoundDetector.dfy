/** The lower bound detector as a whole: every part of it spends from one budget,
    and an answer it gives within the budget is the answer without a budget. */
module LowerBoundDetector {
  import opened AlterTable
  import opened BlockComments
  import opened JavaScriptText
  import opened LowerBoundAlter
  import opened LowerBoundStrip
  import opened StripComments
  import opened Wrappers
  import S = LowerBoundScan

  /** Where a TRUNCATE or the rest of a DELETE FROM starts, and what ends it besides a semicolon. */
  datatype Start = Truncate | Delete(from: nat, token: Option<string>)

  /** What the regular expressions find: a DROP of a table or column, heads of ALTER TABLE, starts of
      statements, and conditions that say nothing. */
  datatype Patterns = Patterns(drops: string -> bool, heads: string -> Heads, starts: string -> seq<Start>, hollow: string -> bool)

  ghost predicate StartFits(t: string, s: Start) { s.Delete? ==> s.from <= |t| }

  /** Matches lie inside the text. */
  ghost predicate Fit(t: string, m: Patterns) {
    HeadsFit(t, m.heads(t)) && forall k :: 0 <= k < |m.starts(t)| ==> StartFits(t, m.starts(t)[k])
  }

  // ----- one statement text -----

  ghost predicate StartDetected(t: string, m: Patterns, s: Start)
    requires StartFits(t, s)
  {
    s.Truncate? || !S.HasWhere(t, s.from, s.token, m.hollow)
  }

  ghost predicate Destructive(t: string, m: Patterns)
    requires Fit(t, m)
  {
    || m.drops(t) || SomeStatementDrops(t, m.heads(t))
    || exists k :: 0 <= k < |m.starts(t)| && StartDetected(t, m, m.starts(t)[k])
  }

  /** What the starts from k on cost, up to the first one that is detected. */
  ghost function StartsCost(t: string, m: Patterns, k: nat): nat
    requires Fit(t, m) && k <= |m.starts(t)|
    decreases |m.starts(t)| - k
  {
    if k == |m.starts(t)| then 0
    else
      var s := m.starts(t)[k];
      assert StartFits(t, s);
      1 + (if s.Truncate? then 0 else S.DeleteCost(t, s.from, s.token))
      + if StartDetected(t, m, s) then 0 else StartsCost(t, m, k + 1)
  }

  /** What the verdict on a text costs. */
  ghost function TextCost(t: string, m: Patterns): nat
    requires Fit(t, m)
  {
    if m.drops(t) then 0
    else HeadsCost(t, m.heads(t), 0) + if SomeStatementDrops(t, m.heads(t)) then 0 else StartsCost(t, m, 0)
  }

  method SqlHasDestructiveStatement(t: string, m: Patterns, w: Budget) returns (r: Option<bool>)
    requires Fit(t, m) && w.used <= w.limit
    modifies w
    ensures Paid(old(w.used), TextCost(t, m), w, r.None?)
    ensures r.Some? ==> r.value == Destructive(t, m)
  {
    hide S.HasWhere, S.DeleteCost, SomeStatementDrops, HeadsCost;
    if m.drops(t) {
      return Some(true);
    }
    var alter := DropsShorthand(t, m.heads(t), w);
    if alter.None? || alter.value {
      return alter;
    }
    var starts := m.starts(t);
    for k := 0 to |starts|
      invariant w.used <= w.limit
      invariant old(w.used) + TextCost(t, m) == w.used + StartsCost(t, m, k)
      invariant forall j :: 0 <= j < k ==> !StartDetected(t, m, starts[j])
    {
      assert StartFits(t, starts[k]);
      var within := w.Tick(1);
      if !within {
        return None;
      }
      if starts[k].Truncate? {
        assert StartDetected(t, m, starts[k]);
        return Some(true);
      }
      var where := S.DeleteHasWhere(t, starts[k].from, starts[k].token, m.hollow, w);
      if where.None? {
        return None;
      }
      if !where.value {
        assert StartDetected(t, m, starts[k]);
        return Some(true);
      }
    }
    return Some(false);
  }

  // ----- a file -----

  /** Every stretch of blanks as one space. */
  function Squeezed(t: string): string {
    if t == [] then ""
    else if IsSpace(t[0]) then " " + Squeezed(t[SkipSpace(t, 1)..])
    else [t[0]] + Squeezed(t[1..])
  }

  function Normalized(t: string): string {
    S.Trimmed(Squeezed(t))
  }

  /** A file is read as SQL without its comments, or in the several ways of a script, given as `readings`. */
  ghost predicate FileDestructive(text: string, isSql: bool, readings: seq<string>, m: Patterns)
    requires forall t: string :: Fit(t, m)
  {
    if isSql then Destructive(Normalized(Stripped(text, CountedEnds(text), false)), m)
    else exists k :: 0 <= k < |readings| && Destructive(readings[k], m)
  }

  ghost function ReadingsCost(readings: seq<string>, m: Patterns): nat
    requires forall t: string :: Fit(t, m)
  {
    if readings == [] then 0
    else TextCost(readings[0], m) + if Destructive(readings[0], m) then 0 else ReadingsCost(readings[1..], m)
  }

  /** What the verdict on a file costs. */
  ghost function FileCost(text: string, isSql: bool, readings: seq<string>, m: Patterns): nat
    requires forall t: string :: Fit(t, m)
  {
    if isSql then StripCost(text, 0) + TextCost(Normalized(Stripped(text, CountedEnds(text), false)), m)
    else ReadingsCost(readings, m)
  }

  /** None stands for the error that running out of the budget raises. */
  method FileHasDestructiveStatement(text: string, isSql: bool, readings: seq<string>, m: Patterns, w: Budget)
    returns (r: Option<bool>)
    requires (forall t: string :: Fit(t, m)) && w.used <= w.limit
    modifies w
    ensures Paid(old(w.used), FileCost(text, isSql, readings, m), w, r.None?)
    ensures r.Some? ==> r.value == FileDestructive(text, isSql, readings, m)
  {
    hide Fit, Destructive, TextCost, StripCost, Squeezed, Normalized, Stripped, CountedEnds;
    if isSql {
      var stripped := StripRecursively(text, w);
      if stripped.None? {
        return None;
      }
      r := SqlHasDestructiveStatement(Normalized(stripped.value), m, w);
      return;
    }
    for k := 0 to |readings|
      invariant w.used <= w.limit
      invariant old(w.used) + ReadingsCost(readings, m) == w.used + ReadingsCost(readings[k..], m)
      invariant forall j :: 0 <= j < k ==> !Destructive(readings[j], m)
    {
      assert readings[k..][0] == readings[k] && readings[k..][1..] == readings[k + 1..];
      var one := SqlHasDestructiveStatement(readings[k], m, w);
      if one.None? || one.value {
        return one;
      }
    }
    return Some(false);
  }

  ghost function Limit(length: nat): nat { 100 * length + 60000000 }

  /** Giving up is a detection: besides the destructive files exactly those are detected whose reading
      costs more than the limit. */
  method DetectsDestructive(text: string, isSql: bool, readings: seq<string>, m: Patterns) returns (detected: bool)
    requires forall t: string :: Fit(t, m)
    ensures detected <==>
            FileDestructive(text, isSql, readings, m) || FileCost(text, isSql, readings, m) > Limit(|text|)
  {
    hide FileDestructive, FileCost;
    var w := new Budget(|text|);
    var r := FileHasDestructiveStatement(text, isSql, readings, m, w);
    detected := r.None? || r.value;
  }
}
