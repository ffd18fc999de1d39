/** The lower bound detector's reader of DELETE statements. Every group in
    parentheses is put aside under a number and leaves a mark (grpN) behind; a
    condition that is nothing but such a mark is replaced by its group. */
module LowerBoundScan {
  import opened HollowCondition
  import opened JavaScriptText
  import opened LowerBoundStrip
  import opened MaskStatement
  import opened Numbers
  import opened Placement
  import opened SqlLexis
  import opened TextParts
  import opened Wrappers

  // ----- marks -----

  /** The mark of a group. */
  function GroupMark(n: nat): string {
    "(grp" + (Decimal(n) + ")")
  }

  function TrimStart(s: string, k: nat): (r: nat)
    requires k <= |s|
    ensures k <= r <= |s| && (r < |s| ==> !IsSpace(s[r]))
    decreases |s| - k
  {
    if k < |s| && IsSpace(s[k]) then TrimStart(s, k + 1) else k
  }

  function TrimEnd(s: string, a: nat, b: nat): (r: nat)
    requires a <= b <= |s|
    ensures a <= r <= b
    decreases b
  {
    if a < b && IsSpace(s[b - 1]) then TrimEnd(s, a, b - 1) else b
  }

  function Trimmed(s: string): string {
    s[TrimStart(s, 0)..TrimEnd(s, TrimStart(s, 0), |s|)]
  }

  /** The number of the group that the condition consists of. */
  function GroupRef(cond: string): Option<nat> {
    var s := Trimmed(cond);
    if |s| > 5 && s[..4] == "(grp" && s[|s| - 1] == ')' && AreDigits(s[4..|s| - 1]) then Some(Value(s[4..|s| - 1])) else None
  }

  /** Every parenthesis that opens belongs to the mark of one of the first g groups. */
  ghost predicate Marked(t: string, g: nat) {
    forall p: nat :: p < |t| && t[p] == '(' ==> MarkAt(t, p, g)
  }

  ghost predicate MarkAt(t: string, p: nat, g: nat) {
    exists n: nat :: n < g && OccursAt(t, GroupMark(n), p)
  }

  lemma OccursLonger(t: string, x: string, d: string, p: nat)
    requires OccursAt(t, d, p)
    ensures OccursAt(t + x, d, p)
  {
    assert (t + x)[p..p + |d|] == t[p..p + |d|];
  }

  lemma MarkLonger(t: string, x: string, p: nat, g: nat, h: nat)
    requires MarkAt(t, p, g) && g <= h
    ensures MarkAt(t + x, p, h)
  {
    hide OccursAt, GroupMark;
    var n: nat :| n < g && OccursAt(t, GroupMark(n), p);
    OccursLonger(t, x, GroupMark(n), p);
  }

  /** Text without parentheses may be appended. */
  lemma MarkedText(t: string, x: string, g: nat)
    requires Marked(t, g) && '(' !in x
    ensures Marked(t + x, g)
  {
    hide MarkAt;
    assert forall k :: 0 <= k < |x| ==> x[k] in x;
    forall p: nat | p < |t + x| && (t + x)[p] == '('
      ensures MarkAt(t + x, p, g)
    {
      if p < |t| {
        MarkLonger(t, x, p, g, g);
      }
    }
  }

  lemma MarkHasNoOther(n: nat)
    ensures forall k :: 0 < k < |GroupMark(n)| ==> GroupMark(n)[k] != '('
    ensures GroupMark(n)[0] == '('
  {
    var d := Decimal(n);
    var m := GroupMark(n);
    forall k | 0 < k < |m|
      ensures m[k] != '('
    {
      assert 4 <= k < 4 + |d| ==> m[k] == d[k - 4] && IsDigit(d[k - 4]);
    }
  }

  /** So may the mark of the next group. */
  lemma MarkedGroup(t: string, g: nat)
    requires Marked(t, g)
    ensures Marked(t + " " + GroupMark(g) + " ", g + 1)
  {
    var pad, m := t + " ", GroupMark(g);
    MarkedText(t, " ", g);
    MarkHasNoOther(g);
    hide GroupMark;
    var all := pad + m;
    forall p: nat | p < |all| && all[p] == '('
      ensures MarkAt(all, p, g + 1)
    {
      if p < |pad| {
        MarkLonger(pad, m, p, g, g + 1);
      } else {
        assert all[p] == m[p - |pad|];
        assert p == |pad|;
        assert OccursAt(all, m, p) by { assert all[p..p + |m|] == m; }
      }
    }
    hide MarkAt;
    MarkedText(all, " ", g + 1);
  }

  lemma TrimmedStands(t: string, a: nat, b: nat) returns (p: nat)
    requires a <= b <= |t|
    ensures OccursAt(t, Trimmed(t[a..b]), p)
  {
    var cond := t[a..b];
    var from := TrimStart(cond, 0);
    var to := TrimEnd(cond, from, |cond|);
    p := a + from;
    var s := Trimmed(cond);
    assert s == cond[from..to];
    forall k | 0 <= k < |s|
      ensures t[p + k] == s[k]
    {
      assert s[k] == cond[from + k];
    }
  }

  lemma RefText(cond: string)
    ensures var s := Trimmed(cond);
            GroupRef(cond).Some? ==>
              && |s| > 5 && s[0] == '(' && s[|s| - 1] == ')' && AreDigits(s[4..|s| - 1])
              && GroupRef(cond).value == Value(s[4..|s| - 1])
  {
    hide Trimmed, Value, AreDigits;
    var s := Trimmed(cond);
    if GroupRef(cond).Some? {
      assert s[0] == s[..4][0] == "(grp"[0];
    }
  }

  /** What parses as the mark of a group is the mark of a group that exists. */
  lemma RefExists(t: string, g: nat, a: nat, b: nat)
    requires Marked(t, g) && a <= b <= |t|
    ensures GroupRef(t[a..b]).Some? ==> GroupRef(t[a..b]).value < g
  {
    hide GroupRef, Trimmed, GroupMark;
    var cond := t[a..b];
    RefText(cond);
    var p := TrimmedStands(t, a, b);
    if GroupRef(cond).Some? {
      assert t[p] == '(' by { assert t[p] == t[p..p + |Trimmed(cond)|][0]; }
      hide OccursAt;
      assert MarkAt(t, p, g);
      var n: nat :| n < g && OccursAt(t, GroupMark(n), p);
      SameMark(t, p, Trimmed(cond), n);
    }
  }

  /** Digits up to a closing parenthesis. */
  ghost predicate DigitsAt(t: string, q: nat, d: string) {
    && AreDigits(d) && q + |d| < |t| && t[q + |d|] == ')'
    && forall k :: 0 <= k < |d| ==> t[q + k] == d[k]
  }

  lemma {:induction false} SameDigits(t: string, q: nat, d: string, e: string)
    requires DigitsAt(t, q, d) && DigitsAt(t, q, e)
    ensures d == e
    decreases |d|
  {
    assert d != [] ==> t[q + 0] == d[0];
    assert e != [] ==> t[q + 0] == e[0];
    if d != [] && e != [] {
      DigitsRest(t, q, d);
      DigitsRest(t, q, e);
      SameDigits(t, q + 1, d[1..], e[1..]);
    }
  }

  lemma DigitsRest(t: string, q: nat, d: string)
    requires DigitsAt(t, q, d) && d != []
    ensures DigitsAt(t, q + 1, d[1..])
  {
    forall k | 0 <= k < |d| - 1
      ensures t[q + 1 + k] == d[1..][k]
    {
      assert t[q + (k + 1)] == d[k + 1];
    }
  }

  lemma SameMark(t: string, p: nat, s: string, n: nat)
    requires OccursAt(t, s, p) && OccursAt(t, GroupMark(n), p)
    requires |s| > 5 && s[|s| - 1] == ')' && AreDigits(s[4..|s| - 1])
    ensures Value(s[4..|s| - 1]) == n
  {
    var e := s[4..|s| - 1];
    MarkDigits(t, p, n);
    assert DigitsAt(t, p + 4, e) by {
      forall k | 0 <= k < |s|
        ensures t[p + k] == s[k]
      {
        assert t[p..p + |s|][k] == s[k];
      }
      forall k | 0 <= k < |e|
        ensures t[p + 4 + k] == e[k]
      {
        assert t[p + (4 + k)] == s[4 + k];
      }
      assert t[p + (|s| - 1)] == ')';
    }
    SameDigits(t, p + 4, e, Decimal(n));
    ValueOfDecimal(n);
  }

  lemma MarkDigits(t: string, p: nat, n: nat)
    requires OccursAt(t, GroupMark(n), p)
    ensures DigitsAt(t, p + 4, Decimal(n))
  {
    var m, d := GroupMark(n), Decimal(n);
    forall k | 0 <= k < |m|
      ensures t[p + k] == m[k]
    {
      assert t[p..p + |m|][k] == m[k];
    }
    forall k | 0 <= k < |d|
      ensures t[p + 4 + k] == d[k]
    {
      assert t[p + (4 + k)] == m[4 + k];
    }
    assert t[p + (4 + |d|)] == m[4 + |d|] == ')';
  }

  // ----- reading outside parentheses -----

  /** What stands outside parentheses, and the groups put aside. */
  datatype Outer = Outer(outside: string, groups: seq<string>)

  datatype Look =
    | Halt                              // the statement ends here
    | Open
    | Close
    | Over(next: nat, mark: string)     // over a literal, which leaves a mark
    | Copy(c: char)

  function LookAt(t: string, token: Option<string>, i: nat, depth: nat): (k: Look)
    requires i < |t|
    ensures k.Over? ==> i < k.next <= |t|
    ensures k.Close? ==> depth > 0
    ensures k.Copy? ==> k.c != '('
    ensures k.Over? ==> '(' !in k.mark
  {
    var c := t[i];
    if c == ';' || StopsAt(t, token, i) then Halt
    else if c == '(' then Open
    else if c == ')' then (if depth == 0 then Halt else Close)
    else if IsQuote(c) then
      var end := QuoteEnd(t, i, false, 0, |t|);
      Over(if end.Some? then end.value else |t|, Mark(c))
    else if c == '$' && DelimiterAt(t, i, 0, |t|).Some? then
      var d := DelimiterAt(t, i, 0, |t|).value;
      var close := FirstOccurrence(t, d, i + |d|, |t|);
      if close.Some? then Over(close.value + |d|, " 0 ") else Over(i + |d|, "")
    else Copy(c)
  }

  function PutAside(out: Outer, group: string): Outer {
    out.(groups := out.groups + [group])
  }

  /** Outside parentheses the text is kept. */
  function Keep(out: Outer, depth: nat, x: string): Outer {
    if depth == 0 then out.(outside := out.outside + x) else out
  }

  /** Reading on from i with `depth` open parentheses, the outermost group since `start`. */
  function Scan(t: string, token: Option<string>, i: nat, depth: nat, start: nat, out: Outer): Outer
    requires i <= |t| && (depth > 0 ==> start <= i)
    decreases |t| - i
  {
    if i == |t| then Finished(t, depth, start, out)
    else
      match LookAt(t, token, i, depth)
      case Halt => Finished(t, depth, start, out)
      case Open =>
        Scan(t, token, i + 1, depth + 1, if depth == 0 then i + 1 else start,
             Keep(out, depth, " " + GroupMark(|out.groups|) + " "))
      case Close =>
        Scan(t, token, i + 1, depth - 1, start, if depth == 1 then PutAside(out, t[start..i]) else out)
      case Over(next, mark) => Scan(t, token, next, depth, start, Keep(out, depth, mark))
      case Copy(c) => Scan(t, token, i + 1, depth, start, Keep(out, depth, [c]))
  }

  /** A group still open at the end reaches to the end of the whole text. */
  function Finished(t: string, depth: nat, start: nat, out: Outer): Outer
    requires depth > 0 ==> start <= |t|
  {
    if depth > 0 then PutAside(out, t[start..]) else out
  }

  /** Every mark has its group, or will have it once the open one closes; groups are shorter than the text. */
  ghost predicate Sound(t: string, depth: nat, start: nat, out: Outer) {
    && Marked(out.outside, |out.groups| + if depth > 0 then 1 else 0)
    && (depth > 0 ==> 0 < start <= |t|)
    && forall k :: 0 <= k < |out.groups| ==> |out.groups[k]| < |t|
  }

  ghost predicate SoundEnd(t: string, out: Outer) { Sound(t, 0, 0, out) }

  lemma SoundAside(t: string, depth: nat, start: nat, out: Outer, group: string)
    requires Sound(t, depth, start, out) && depth > 0 && |group| < |t|
    ensures Sound(t, 0, 0, PutAside(out, group))
  {
    hide Marked;
    var more := PutAside(out, group);
    forall k | 0 <= k < |more.groups|
      ensures |more.groups[k]| < |t|
    {
      assert more.groups[k] == if k < |out.groups| then out.groups[k] else group;
    }
  }

  lemma SoundKeep(t: string, depth: nat, start: nat, out: Outer, x: string)
    requires Sound(t, depth, start, out) && '(' !in x
    ensures Sound(t, depth, start, Keep(out, depth, x))
  {
    hide Marked;
    if depth == 0 {
      MarkedText(out.outside, x, |out.groups|);
    }
  }

  lemma SoundOpen(t: string, out: Outer, start: nat)
    requires Sound(t, 0, 0, out) && 0 < start <= |t|
    ensures Sound(t, 1, start, Keep(out, 0, " " + GroupMark(|out.groups|) + " "))
  {
    MarkedGroup(out.outside, |out.groups|);
    hide Marked, GroupMark;
    var g := GroupMark(|out.groups|);
    assert out.outside + (" " + g + " ") == out.outside + " " + g + " ";
  }

  /** Reading keeps every mark sound. */
  lemma {:induction false} ScanSound(t: string, token: Option<string>, i: nat, depth: nat, start: nat, out: Outer)
    requires i <= |t| && (depth > 0 ==> start <= i) && Sound(t, depth, start, out)
    ensures SoundEnd(t, Scan(t, token, i, depth, start, out))
    decreases |t| - i
  {
    hide LookAt, Sound, Keep, GroupMark;
    assert depth > 0 ==> 0 < start <= |t| by { Begun(t, depth, start, out); }
    if i == |t| || LookAt(t, token, i, depth).Halt? {
      if depth > 0 {
        SoundAside(t, depth, start, out, t[start..]);
      } else {
        SoundClosed(t, start, out);
      }
    } else {
      match LookAt(t, token, i, depth)
      case Open =>
        var from := if depth == 0 then i + 1 else start;
        if depth == 0 {
          SoundClosed(t, start, out);
          SoundOpen(t, out, from);
        } else {
          SoundDeeper(t, depth, start, out, depth + 1);
        }
        ScanSound(t, token, i + 1, depth + 1, from, Keep(out, depth, " " + GroupMark(|out.groups|) + " "));
      case Close =>
        if depth == 1 {
          SoundAside(t, depth, start, out, t[start..i]);
          SoundAnyStart(t, start, PutAside(out, t[start..i]));
        } else {
          SoundDeeper(t, depth, start, out, depth - 1);
        }
        ScanSound(t, token, i + 1, depth - 1, start, if depth == 1 then PutAside(out, t[start..i]) else out);
      case Over(next, mark) =>
        SoundKeep(t, depth, start, out, mark);
        ScanSound(t, token, next, depth, start, Keep(out, depth, mark));
      case Copy(c) =>
        SoundKeep(t, depth, start, out, [c]);
        ScanSound(t, token, i + 1, depth, start, Keep(out, depth, [c]));
    }
  }

  lemma Begun(t: string, depth: nat, start: nat, out: Outer)
    requires Sound(t, depth, start, out)
    ensures depth > 0 ==> 0 < start <= |t|
  {
  }

  lemma SoundClosed(t: string, start: nat, out: Outer)
    requires Sound(t, 0, start, out)
    ensures Sound(t, 0, 0, out)
  {
  }

  lemma SoundAnyStart(t: string, start: nat, out: Outer)
    requires Sound(t, 0, 0, out)
    ensures Sound(t, 0, start, out)
  {
  }

  lemma SoundDeeper(t: string, depth: nat, start: nat, out: Outer, other: nat)
    requires Sound(t, depth, start, out) && depth > 0 && other > 0
    ensures Sound(t, other, start, out) && Sound(t, other, start, Keep(out, depth, " " + GroupMark(|out.groups|) + " "))
  {
  }

  function ScanFrom(t: string, token: Option<string>, from: nat): Outer
    requires from <= |t|
  {
    Scan(t, token, from, 0, 0, Outer("", []))
  }

  lemma ScanFromSound(t: string, token: Option<string>, from: nat)
    requires from <= |t|
    ensures SoundEnd(t, ScanFrom(t, token, from))
  {
    ScanSound(t, token, from, 0, 0, Outer("", []));
  }

  /** What a look at i costs, besides the step for the position itself. */
  function LookCost(t: string, token: Option<string>, i: nat): nat
    requires i < |t|
  {
    if t[i] == ';' || StopsAt(t, token, i) then 0
    else if IsQuote(t[i]) then QuoteCost(t, i)
    else if t[i] == '$' then DollarCost(t, i)
    else 0
  }

  /** What the reading costs from i on. */
  function ScanCost(t: string, token: Option<string>, i: nat, depth: nat): nat
    requires i <= |t|
    decreases |t| - i
  {
    if i == |t| then 0
    else
      1 + LookCost(t, token, i) +
      match LookAt(t, token, i, depth)
      case Halt => 0
      case Open => ScanCost(t, token, i + 1, depth + 1)
      case Close => ScanCost(t, token, i + 1, depth - 1)
      case Over(next, _) => ScanCost(t, token, next, depth)
      case Copy(_) => ScanCost(t, token, i + 1, depth)
  }

  /** The reading with its budget; None when that ran out. */
  method ScanOutsideParens(t: string, from: nat, token: Option<string>, w: Budget) returns (r: Option<Outer>)
    requires from <= |t| && w.used <= w.limit
    modifies w
    ensures Paid(old(w.used), ScanCost(t, token, from, 0), w, r.None?)
    ensures r.Some? ==> r.value == ScanFrom(t, token, from)
  {
    hide LookAt, LookCost, GroupMark;
    var outside, groups := "", [];
    var depth: nat, groupStart: nat, i: nat := 0, 0, from;
    while i < |t|
      invariant i <= |t| && (depth > 0 ==> groupStart <= i) && w.used <= w.limit
      invariant ScanFrom(t, token, from) == Scan(t, token, i, depth, groupStart, Outer(outside, groups))
      invariant old(w.used) + ScanCost(t, token, from, 0) == w.used + ScanCost(t, token, i, depth)
      decreases |t| - i
    {
      var within := w.Tick(1);
      if !within {
        return None;
      }
      var look := LookTicking(t, token, i, depth, w);
      if look.None? {
        return None;
      }
      match look.value {
        case Halt =>
          break;
        case Open =>
          if depth == 0 {
            outside := outside + (" " + GroupMark(|groups|) + " ");
            groupStart := i + 1;
          }
          depth, i := depth + 1, i + 1;
        case Close =>
          depth := depth - 1;
          if depth == 0 {
            groups := groups + [t[groupStart..i]];
          }
          i := i + 1;
        case Over(next, mark) =>
          if depth == 0 {
            outside := outside + mark;
          }
          i := next;
        case Copy(c) =>
          if depth == 0 {
            outside := outside + [c];
          }
          i := i + 1;
      }
    }
    if depth > 0 {
      groups := groups + [t[groupStart..]];
    }
    return Some(Outer(outside, groups));
  }

  method LookTicking(t: string, token: Option<string>, i: nat, depth: nat, w: Budget) returns (r: Option<Look>)
    requires i < |t| && w.used <= w.limit
    modifies w
    ensures Paid(old(w.used), LookCost(t, token, i), w, r.None?)
    ensures r.Some? ==> r.value == LookAt(t, token, i, depth)
  {
    hide QuoteEnd, QuoteCost, FirstOccurrence, DelimiterFrom;
    var c := t[i];
    if c == ';' || StopsAt(t, token, i) {
      return Some(Halt);
    }
    if c == '(' {
      return Some(Open);
    }
    if c == ')' {
      return Some(if depth == 0 then Halt else Close);
    }
    if IsQuote(c) {
      var end := FindQuoteEndTicking(t, i, w);
      if end.None? {
        return None;
      }
      return Some(Over(if end.value.Some? then end.value.value else |t|, Mark(c)));
    }
    if c == '$' {
      var d := DelimiterAt(t, i, 0, |t|);
      if d.Some? {
        var close := FirstOccurrence(t, d.value, i + |d.value|, |t|);
        var within := w.Tick((if close.None? then |t| else close.value) - i);
        if !within {
          return None;
        }
        return Some(if close.None? then Over(i + |d.value|, "") else Over(close.value + |d.value|, " 0 "));
      }
    }
    return Some(Copy(c));
  }

  // ----- the verdict -----

  /** The word stands at k as a word of its own. */
  predicate WholeWordAt(t: string, k: nat, word: string) {
    && k + |word| <= |t| && SameWord(t, k, k + |word|, word)
    && (k == 0 || !IsWord(t[k - 1])) && (k + |word| == |t| || !IsWord(t[k + |word|]))
  }

  function FindWhole(t: string, i: nat, word: string): (r: Option<nat>)
    ensures r.Some? ==> i <= r.value && r.value + |word| <= |t|
    decreases |t| - i
  {
    if i >= |t| then None else if WholeWordAt(t, i, word) then Some(i) else FindWhole(t, i + 1, word)
  }

  /** The condition behind the WHERE that ends at w, up to a RETURNING. */
  function ConditionOf(outside: string, w: nat): string
    requires w <= |outside|
  {
    var r := FindWhole(outside[w..], 0, "returning");
    outside[w..if r.Some? then w + r.value else |outside|]
  }

  lemma RefInside(t: string, out: Outer, a: nat, b: nat)
    requires SoundEnd(t, out) && a <= b <= |out.outside|
    ensures var g := GroupRef(out.outside[a..b]); g.Some? ==> g.value < |out.groups|
  {
    hide GroupRef, Marked;
    RefExists(out.outside, |out.groups|, a, b);
  }

  lemma ConditionRef(t: string, out: Outer, w: nat)
    requires SoundEnd(t, out) && w <= |out.outside|
    ensures var g := GroupRef(ConditionOf(out.outside, w)); g.Some? ==> g.value < |out.groups|
  {
    hide GroupRef, FindWhole, Sound;
    var r := FindWhole(out.outside[w..], 0, "returning");
    RefInside(t, out, w, if r.Some? then w + r.value else |out.outside|);
  }

  lemma WholeRef(t: string, out: Outer)
    requires SoundEnd(t, out)
    ensures GroupRef(out.outside).Some? ==> GroupRef(out.outside).value < |out.groups|
  {
    hide GroupRef, Sound;
    assert out.outside[0..|out.outside|] == out.outside;
    RefInside(t, out, 0, |out.outside|);
  }

  ghost predicate Refers(cond: string, groups: seq<string>, bound: nat) {
    && (forall k :: 0 <= k < |groups| ==> |groups[k]| < bound)
    && (GroupRef(cond).Some? ==> GroupRef(cond).value < |groups|)
  }

  lemma InnerRefers(inner: string)
    ensures var o := ScanFrom(inner, None, 0); Refers(o.outside, o.groups, |inner|)
  {
    hide GroupRef, ScanFrom, Marked;
    ScanFromSound(inner, None, 0);
    WholeRef(inner, ScanFrom(inner, None, 0));
  }

  /** The condition is constant once the groups it consists of are opened. */
  ghost predicate IsConstant(cond: string, groups: seq<string>, bound: nat, constant: string -> bool)
    requires Refers(cond, groups, bound)
    decreases bound
  {
    if GroupRef(cond).None? then constant(cond)
    else
      var inner := groups[GroupRef(cond).value];
      var o := ScanFrom(inner, None, 0);
      InnerRefers(inner);
      IsConstant(o.outside, o.groups, |inner|, constant)
  }

  lemma ScannedRefers(t: string, token: Option<string>, from: nat, w: nat)
    requires from <= |t| && w <= |ScanFrom(t, token, from).outside|
    ensures var o := ScanFrom(t, token, from); Refers(ConditionOf(o.outside, w), o.groups, |t|)
  {
    hide GroupRef, ScanFrom, Marked, ConditionOf;
    ScanFromSound(t, token, from);
    ConditionRef(t, ScanFrom(t, token, from), w);
  }

  /** The statement has a WHERE that is not constant. */
  ghost predicate HasWhere(t: string, from: nat, token: Option<string>, constant: string -> bool)
    requires from <= |t|
  {
    var o := ScanFrom(t, token, from);
    var w := FindWhole(o.outside, 0, "where");
    w.Some? && (ScannedRefers(t, token, from, w.value + 5); !IsConstant(ConditionOf(o.outside, w.value + 5), o.groups, |t|, constant))
  }

  /** What opening the groups that the condition consists of costs: a step each, and reading them. */
  ghost function PeelCost(cond: string, groups: seq<string>, bound: nat): nat
    requires Refers(cond, groups, bound)
    decreases bound
  {
    if GroupRef(cond).None? then 1
    else
      var inner := groups[GroupRef(cond).value];
      var o := ScanFrom(inner, None, 0);
      InnerRefers(inner);
      1 + ScanCost(inner, None, 0, 0) + PeelCost(o.outside, o.groups, |inner|)
  }

  /** What the verdict on a statement costs. */
  ghost function DeleteCost(t: string, from: nat, token: Option<string>): nat
    requires from <= |t|
  {
    var o := ScanFrom(t, token, from);
    var w := FindWhole(o.outside, 0, "where");
    ScanCost(t, token, from, 0)
    + if w.None? then 0
      else ScannedRefers(t, token, from, w.value + 5); PeelCost(ConditionOf(o.outside, w.value + 5), o.groups, |t|)
  }

  /** No reference to a group ever fails, the groups get shorter, and within the budget the verdict is exact. */
  method DeleteHasWhere(t: string, from: nat, token: Option<string>, constant: string -> bool, w: Budget)
    returns (r: Option<bool>)
    requires from <= |t| && w.used <= w.limit
    modifies w
    ensures Paid(old(w.used), DeleteCost(t, from, token), w, r.None?)
    ensures r.Some? ==> r.value == HasWhere(t, from, token, constant)
  {
    hide GroupRef, ScanFrom, ScanCost, ConditionOf, FindWhole;
    var outer := ScanOutsideParens(t, from, token, w);
    if outer.None? {
      return None;
    }
    var where := FindWhole(outer.value.outside, 0, "where");
    if where.None? {
      return Some(false);
    }
    var cond, groups := ConditionOf(outer.value.outside, where.value + 5), outer.value.groups;
    ghost var bound: nat := |t|;
    ScannedRefers(t, token, from, where.value + 5);
    while true
      invariant w.used <= w.limit && Refers(cond, groups, bound)
      invariant HasWhere(t, from, token, constant) == !IsConstant(cond, groups, bound, constant)
      invariant old(w.used) + DeleteCost(t, from, token) == w.used + PeelCost(cond, groups, bound)
      decreases bound
    {
      var within := w.Tick(1);
      if !within {
        return None;
      }
      var ref := GroupRef(cond);
      if ref.None? {
        break;
      }
      var inner := groups[ref.value];
      InnerRefers(inner);
      var under := ScanOutsideParens(inner, 0, None, w);
      if under.None? {
        return None;
      }
      cond, groups, bound := under.value.outside, under.value.groups, |inner|;
    }
    return Some(!constant(cond));
  }

  // ----- redundant parentheses -----

  /** Outside literals there is no semicolon and the parentheses from k on close down to depth 0 at the
      end; quoted literals are closed. */
  ghost predicate Closes(c: string, k: nat, depth: nat)
    requires k <= |c|
    decreases |c| - k
  {
    if k == |c| then depth == 0
    else if IsQuote(c[k]) then
      var end := QuoteEnd(c, k, false, 0, |c|);
      end.Some? && Closes(c, end.value, depth)
    else if c[k] == '$' && DelimiterAt(c, k, 0, |c|).Some? then
      var d := DelimiterAt(c, k, 0, |c|).value;
      var close := FirstOccurrence(c, d, k + |d|, |c|);
      Closes(c, (if close.Some? then close.value else k) + |d|, depth)
    else if c[k] == '(' then Closes(c, k + 1, depth + 1)
    else if c[k] == ')' then depth > 0 && Closes(c, k + 1, depth - 1)
    else c[k] != ';' && Closes(c, k + 1, depth)
  }

  /** The condition c stands in parentheses that make up t. */
  ghost predicate Enclosed(t: string, c: string) {
    |t| == |c| + 2 && t[0] == '(' && t[|c| + 1] == ')' && Placed(t, 1, c, |c| + 1)
  }

  lemma Encloses(c: string)
    ensures Enclosed("(" + c + ")", c)
  {
    var t := "(" + c + ")";
    assert t == "(" + (c + ")");
    assert Part(t, 1, c);
  }

  lemma EnclosedAt(t: string, c: string, k: nat)
    requires Enclosed(t, c)
    ensures Placed(t, 1, c, |c| + 1)
    ensures |t| == |c| + 2 && t[|c| + 1] == ')' && (k < |c| ==> t[k + 1] == c[k])
  {
    if k < |c| {
      PlacedAt(t, 1, c, |c| + 1, k);
    }
  }

  /** What does not occur in the condition does not end in its closing parenthesis. */
  lemma NoneEnclosed(t: string, c: string, d: string, from: nat)
    requires Enclosed(t, c) && d != [] && d[|d| - 1] == '$' && FirstOccurrence(c, d, from, |c|).None?
    ensures FirstOccurrence(t, d, from + 1, |t|).None?
  {
    FirstOccurs(c, d, from, |c|);
    FirstOccurs(t, d, from + 1, |t|);
    var r := FirstOccurrence(t, d, from + 1, |t|);
    if r.Some? {
      assert t[r.value + (|d| - 1)] == d[|d| - 1];
      hide OccursAt, FirstOccurrence;
      OccursMoved(t, 1, c, d, r.value - 1);
    }
  }

  lemma DelimiterEnds(c: string, k: nat)
    requires k < |c| && DelimiterAt(c, k, 0, |c|).Some?
    ensures var d := DelimiterAt(c, k, 0, |c|).value; d[|d| - 1] == '$'
  {
  }

  /** Inside the parentheses the reader takes the same step as in the condition alone. */
  ghost predicate SameLook(t: string, c: string, k: nat, depth: nat)
    requires k + 1 < |t| && k < |c|
  {
    var a, b := LookAt(c, None, k, depth), LookAt(t, None, k + 1, depth + 1);
    && !a.Halt? && !b.Halt? && (a.Open? <==> b.Open?) && (a.Close? <==> b.Close?) && (a.Over? <==> b.Over?)
    && (a.Over? ==> a.next <= |c| && b.next == a.next + 1 && Closes(c, a.next, depth))
    && (a.Open? ==> Closes(c, k + 1, depth + 1))
    && (a.Close? ==> Closes(c, k + 1, depth - 1))
    && (a.Copy? ==> Closes(c, k + 1, depth))
  }

  lemma LookQuote(t: string, c: string, k: nat, depth: nat)
    requires k < |c| && |t| == |c| + 2 && t[k + 1] == c[k] && IsQuote(c[k])
    requires QuoteEnd(c, k, false, 0, |c|).Some? && Closes(c, QuoteEnd(c, k, false, 0, |c|).value, depth)
    requires QuoteEnd(t, k + 1, false, 0, |t|) == Some(1 + QuoteEnd(c, k, false, 0, |c|).value)
    ensures SameLook(t, c, k, depth)
  {
    hide QuoteEnd, Closes, DelimiterAt, FirstOccurrence;
  }

  lemma LookDollar(t: string, c: string, k: nat, depth: nat, d: string)
    requires k < |c| && |t| == |c| + 2 && t[k + 1] == c[k] == '$' && |d| >= 2
    requires DelimiterAt(c, k, 0, |c|) == Some(d) && DelimiterAt(t, k + 1, 0, |t|) == Some(d)
    requires var close := FirstOccurrence(c, d, k + |d|, |c|);
             && Closes(c, (if close.Some? then close.value else k) + |d|, depth)
             && FirstOccurrence(t, d, k + 1 + |d|, |t|) == if close.Some? then Some(1 + close.value) else None
    ensures SameLook(t, c, k, depth)
  {
    hide QuoteEnd, Closes, DelimiterAt, FirstOccurrence;
  }

  lemma LookOther(t: string, c: string, k: nat, depth: nat)
    requires k < |c| && |t| == |c| + 2 && t[k + 1] == c[k] && !IsQuote(c[k]) && Closes(c, k, depth)
    requires c[k] == '$' ==> DelimiterAt(c, k, 0, |c|).None? && DelimiterAt(t, k + 1, 0, |t|).None?
    ensures SameLook(t, c, k, depth)
  {
    hide QuoteEnd, DelimiterAt, FirstOccurrence;
  }

  lemma ClosesAt(c: string, k: nat, depth: nat)
    requires k < |c| && Closes(c, k, depth)
    ensures IsQuote(c[k]) ==>
              var end := QuoteEnd(c, k, false, 0, |c|); end.Some? && Closes(c, end.value, depth)
    ensures c[k] == '$' && DelimiterAt(c, k, 0, |c|).Some? ==>
              var d := DelimiterAt(c, k, 0, |c|).value;
              var close := FirstOccurrence(c, d, k + |d|, |c|);
              Closes(c, (if close.Some? then close.value else k) + |d|, depth)
  {
    hide QuoteEnd, DelimiterAt, FirstOccurrence;
  }

  lemma LookInside(t: string, c: string, k: nat, depth: nat)
    requires Enclosed(t, c) && k < |c| && Closes(c, k, depth) && |t| == |c| + 2
    ensures SameLook(t, c, k, depth)
  {
    hide *;
    EnclosedAt(t, c, k);
    ClosesAt(c, k, depth);
    if IsQuote(c[k]) {
      QuotePlaced(t, 1, c, |c| + 1, k, false);
      LookQuote(t, c, k, depth);
    } else if c[k] == '$' && DelimiterAt(c, k, 0, |c|).Some? {
      DelimiterPlaced(t, 1, c, |c| + 1, k);
      var d := DelimiterAt(c, k, 0, |c|).value;
      if FirstOccurrence(c, d, k + |d|, |c|).Some? {
        DollarPlaced(t, 1, c, |c| + 1, k + |d|, d);
      } else {
        DelimiterEnds(c, k);
        NoneEnclosed(t, c, d, k + |d|);
      }
      LookDollar(t, c, k, depth, d);
    } else {
      if c[k] == '$' {
        DelimiterPlaced(t, 1, c, |c| + 1, k);
      }
      LookOther(t, c, k, depth);
    }
  }

  lemma {:induction false} ScanInside(t: string, c: string, k: nat, depth: nat, out: Outer)
    requires Enclosed(t, c) && k <= |c| && Closes(c, k, depth)
    ensures Scan(t, None, k + 1, depth + 1, 1, out) == PutAside(out, c)
    decreases |c| - k
  {
    hide GroupMark, LookAt, Closes, Enclosed, Scan;
    EnclosedAt(t, c, k);
    if k == |c| {
      ScanClosing(t, c, depth, out);
    } else {
      LookInside(t, c, k, depth);
      var b := LookAt(t, None, k + 1, depth + 1);
      ScanInsideAt(t, k + 1, depth + 1, out);
      match b
      case Open => ScanInside(t, c, k + 1, depth + 1, out);
      case Close => ScanInside(t, c, k + 1, depth - 1, out);
      case Over(next, _) => ScanInside(t, c, next - 1, depth, out);
      case Copy(_) => ScanInside(t, c, k + 1, depth, out);
    }
  }

  /** One step inside a group that is still open behind it. */
  lemma ScanInsideAt(t: string, i: nat, depth: nat, out: Outer)
    requires 1 <= i < |t| && depth > 0
    ensures var b, scan := LookAt(t, None, i, depth), Scan(t, None, i, depth, 1, out);
            && (b.Open? ==> scan == Scan(t, None, i + 1, depth + 1, 1, out))
            && (b.Close? && depth > 1 ==> scan == Scan(t, None, i + 1, depth - 1, 1, out))
            && (b.Over? ==> scan == Scan(t, None, b.next, depth, 1, out))
            && (b.Copy? ==> scan == Scan(t, None, i + 1, depth, 1, out))
  {
    hide LookAt, GroupMark;
  }

  lemma ScanClosing(t: string, c: string, depth: nat, out: Outer)
    requires Enclosed(t, c) && Closes(c, |c|, depth)
    ensures Scan(t, None, |c| + 1, depth + 1, 1, out) == PutAside(out, c)
  {
    var i := |c| + 1;
    assert t[1..i] == c;
    assert LookAt(t, None, i, 1) == Close;
    hide LookAt;
    assert Scan(t, None, i, 1, 1, out) == Scan(t, None, i + 1, 0, 1, PutAside(out, c));
    assert Scan(t, None, |t|, 0, 1, PutAside(out, c)) == PutAside(out, c);
  }

  /** A condition in parentheses, with whatever literals, is constant exactly when it is so without
      them, however they nest. */
  lemma ParensPeeled(c: string, constant: string -> bool)
    requires Closes(c, 0, 0)
    ensures var o, p := ScanFrom("(" + c + ")", None, 0), ScanFrom(c, None, 0);
            && Refers(o.outside, o.groups, |c| + 2) && Refers(p.outside, p.groups, |c|)
            && IsConstant(o.outside, o.groups, |c| + 2, constant) == IsConstant(p.outside, p.groups, |c|, constant)
  {
    var t := "(" + c + ")";
    WrappedScan(c);
    InnerRefers(t);
    InnerRefers(c);
    FirstRef();
    hide *;
    PeelOne(c, Outer(" " + GroupMark(0) + " ", [c]), constant);
  }

  lemma PeelOne(c: string, o: Outer, constant: string -> bool)
    requires o.groups == [c] && GroupRef(o.outside) == Some(0) && Refers(o.outside, o.groups, |c| + 2)
    ensures var p := ScanFrom(c, None, 0);
            && Refers(p.outside, p.groups, |c|)
            && IsConstant(o.outside, o.groups, |c| + 2, constant) == IsConstant(p.outside, p.groups, |c|, constant)
  {
    hide GroupRef, ScanFrom;
    InnerRefers(c);
    assert o.groups[0] == c;
  }

  lemma WrappedScan(c: string)
    requires Closes(c, 0, 0)
    ensures ScanFrom("(" + c + ")", None, 0) == Outer(" " + GroupMark(0) + " ", [c])
  {
    var t, blank, mark := "(" + c + ")", Outer("", []), " " + GroupMark(0) + " ";
    assert "" + mark == mark;
    assert LookAt(t, None, 0, 0) == Open;
    hide LookAt, GroupMark;
    assert ScanFrom(t, None, 0) == Scan(t, None, 1, 1, 1, Keep(blank, 0, mark));
    Encloses(c);
    ScanInside(t, c, 0, 0, Outer(mark, []));
    assert [] + [c] == [c];
  }

  lemma FirstRef()
    ensures GroupRef(" " + GroupMark(0) + " ") == Some(0)
  {
    var s := " " + GroupMark(0) + " ";
    assert Decimal(0) == "0" && s == " (grp0) ";
    assert TrimStart(s, 0) == TrimStart(s, 1) == 1;
    assert TrimEnd(s, 1, 8) == TrimEnd(s, 1, 7) == 7;
    assert Trimmed(s) == "(grp0)";
    assert Trimmed(s)[4..5] == "0" && Value("0") == 0;
  }
}
