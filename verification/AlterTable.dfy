/** Finding ALTER TABLE statements that drop a column with the word COLUMN left
    out. Where the ALTER TABLE heads stand is given; ranges of the text are read
    from left to right, and dollar-quoted bodies and quoted text that contain a
    head are read again as ranges of their own. */
module AlterTable {
  import opened JavaScriptText
  import opened Wrappers
  import opened SqlLexis

  /** A head ALTER TABLE name: where it starts and ends. */
  type Heads = seq<(nat, nat)>

  ghost predicate AreHeads(t: string, heads: Heads) {
    && (forall k :: 0 <= k < |heads| ==>
          heads[k].0 < heads[k].1 <= |t| && (t[heads[k].0] == 'A' || t[heads[k].0] == 'a'))
    && (forall j, k :: 0 <= j < k < |heads| ==> heads[j].1 <= heads[k].0)
  }

  /** The first head that starts at or after p. */
  function FirstFrom(heads: Heads, p: nat): (m: nat)
    ensures m <= |heads|
    ensures m < |heads| ==> heads[m].0 >= p
    ensures forall k :: 0 <= k < m ==> heads[k].0 < p
  {
    FirstFromAt(heads, p, 0)
  }

  function FirstFromAt(heads: Heads, p: nat, k: nat): (m: nat)
    requires k <= |heads| && forall j :: 0 <= j < k ==> heads[j].0 < p
    ensures k <= m <= |heads|
    ensures m < |heads| ==> heads[m].0 >= p
    ensures forall j :: 0 <= j < m ==> heads[j].0 < p
    decreases |heads| - k
  {
    if k < |heads| && heads[k].0 < p then FirstFromAt(heads, p, k + 1) else k
  }

  /** A head starts in i..hi. */
  predicate HeadIn(heads: Heads, i: nat, hi: nat) {
    var m := FirstFrom(heads, i);
    m < |heads| && heads[m].0 < hi
  }

  // ----- actions -----

  function SkipSpace(a: string, k: nat): (r: nat)
    requires k <= |a|
    ensures k <= r <= |a|
    decreases |a| - k
  {
    if k < |a| && IsSpace(a[k]) then SkipSpace(a, k + 1) else k
  }

  function Upper(c: char): char { if 'a' <= c <= 'z' then c - 'a' + 'A' else c }

  predicate WordAt(a: string, k: nat, word: string) {
    k + |word| <= |a| && forall j | 0 <= j < |word| :: Upper(a[k + j]) == word[j]
  }

  predicate IsWordChar(c: char) { AsciiLetter(c) || '0' <= c <= '9' || c == '_' }

  /** The action is DROP followed by something other than the word CONSTRAINT. */
  predicate DropsColumn(a: string) {
    var k := SkipSpace(a, 0);
    WordAt(a, k, "DROP") &&
    var m := SkipSpace(a, k + 4);
    && k + 4 < m < |a|
    && !(WordAt(a, m, "CONSTRAINT") && (m + 10 == |a| || !IsWordChar(a[m + 10])))
  }

  predicate AnyActionDrops(actions: seq<string>) {
    exists a | a in actions :: DropsColumn(a)
  }

  /** The statement being read: its depth, its current action and whether an earlier action drops a column. */
  datatype Current = Outside | Altering(depth: nat, from: nat, to: nat, dropped: bool)

  predicate Finish(t: string, cur: Current)
    requires cur.Altering? ==> cur.from <= cur.to <= |t|
  {
    cur.Altering? && (cur.dropped || DropsColumn(t[cur.from..cur.to]))
  }

  // ----- what reading a range finds -----

  datatype Span = Span(lo: nat, hi: nat, level: nat)

  /** A column was dropped in the range itself; ranges to be read as well. */
  datatype Seen = Seen(hit: bool, inner: seq<Span>)

  /** One step of the reading. */
  datatype Move =
    | Past(next: nat)                        // not part of a statement's structure
    | Deeper(next: nat, inner: seq<Span>)    // over a literal, with what is to be read inside it
    | Mark(c: char)                          // one character that may structure the statement

  /** The move leads from i on to a place up to hi, over what is to be read again. */
  ghost predicate Leads(m: Move, i: nat, hi: nat) {
    match m
    case Past(next) => i < next <= hi
    case Deeper(next, inner) =>
      i + 1 < next <= hi && |inner| <= 1 && (inner != [] ==> i < inner[0].lo <= inner[0].hi < next)
    case Mark(_) => true
  }

  function MoveAt(t: string, heads: Heads, bs: bool, r: Span, i: nat): (m: Move)
    requires r.lo <= i < r.hi <= |t|
    ensures Leads(m, i, r.hi)
  {
    var c := t[i];
    if bs && r.level > 0 && c == '\\' then Past(if i + 2 <= r.hi then i + 2 else r.hi)
    else if IsQuote(c) then
      var end := QuoteEnd(t, i, bs, r.lo, r.hi);
      if end.None? then Past(i + 1)
      else Deeper(end.value,
                  if r.level < 3 && HeadIn(heads, i, end.value) then [Span(i + 1, end.value - 1, r.level + 1)] else [])
    else if c == '$' then
      var d := DelimiterAt(t, i, r.lo, r.hi);
      var close := if d.Some? then FirstOccurrence(t, d.value, i + |d.value|, r.hi) else None;
      if close.None? then Mark(c)
      else Deeper(close.value + |d.value|,
                  if HeadIn(heads, i, close.value) then [Span(i + |d.value|, close.value, r.level)] else [])
    else Mark(c)
  }

  /** The statement after one of its characters; None when the character ends it. */
  function After(t: string, cur: Current, c: char, i: nat): Option<Current>
    requires i < |t| && cur.Altering? && cur.from <= cur.to <= i
  {
    if c == ';' || (c == ')' && cur.depth == 0) then None
    else if c == '(' then Some(cur.(depth := cur.depth + 1, to := i + 1))
    else if c == ')' then Some(cur.(depth := cur.depth - 1, to := i + 1))
    else if c == ',' && cur.depth == 0 then Some(Altering(0, i + 1, i + 1, cur.dropped || DropsColumn(t[cur.from..i])))
    else Some(cur.(to := i + 1))
  }

  function Widened(cur: Current, to: nat): Current {
    if cur.Altering? then cur.(to := to) else cur
  }

  /** One step of the loop: a drop found, where it goes on, the statement then, and what is to be read again. */
  datatype Turn = Turn(hit: bool, next: nat, cur: Current, inner: seq<Span>)

  ghost predicate Standing(t: string, r: Span, i: nat, cur: Current) {
    r.lo <= i <= r.hi <= |t| && (cur.Altering? ==> cur.from <= cur.to <= i)
  }

  ghost predicate Reads(t: string, heads: Heads, r: Span, i: nat, cur: Current) {
    AreHeads(t, heads) && Standing(t, r, i, cur)
  }

  predicate Over(heads: Heads, r: Span, i: nat, cur: Current) {
    i >= r.hi || (cur.Outside? && !HeadIn(heads, i, r.hi))
  }

  /** At the head that starts at i, ends at `end` and is not inside parentheses. */
  function HeadTurn(t: string, r: Span, i: nat, cur: Current, end: nat): (o: Turn)
    requires Standing(t, r, i, cur) && i < end
    requires i < r.hi
    ensures i < o.next && Standing(t, r, o.next, o.cur) && o.inner == []
  {
    var stop := if end < r.hi then end else r.hi;
    Turn(Finish(t, cur), stop, Altering(0, stop, stop, false), [])
  }

  function MoveTurn(t: string, r: Span, i: nat, cur: Current, m: Move): (o: Turn)
    requires Standing(t, r, i, cur) && i < r.hi && Leads(m, i, r.hi)
    ensures i < o.next && Standing(t, r, o.next, o.cur)
    ensures |o.inner| <= 1 && (o.inner != [] ==> i < o.inner[0].lo <= o.inner[0].hi < o.next)
  {
    match m
    case Past(next) => Turn(false, next, Widened(cur, next), [])
    case Deeper(next, inner) => Turn(false, next, Widened(cur, next), inner)
    case Mark(c) =>
      if cur.Outside? then Turn(false, i + 1, cur, [])
      else
        var after := After(t, cur, c, i);
        if after.Some? then Turn(false, i + 1, after.value, []) else Turn(Finish(t, cur), i + 1, Outside, [])
  }

  /** A head at i that is read as one: not inside the parentheses of a statement. */
  predicate AtHead(heads: Heads, i: nat, cur: Current) {
    var m := FirstFrom(heads, i);
    m < |heads| && heads[m].0 == i && (cur.Outside? || cur.depth == 0)
  }

  function TurnAt(t: string, heads: Heads, bs: bool, r: Span, i: nat, cur: Current): (o: Turn)
    requires Reads(t, heads, r, i, cur) && i < r.hi
    ensures i < o.next && Reads(t, heads, r, o.next, o.cur)
    ensures |o.inner| <= 1 && (o.inner != [] ==> i < o.inner[0].lo <= o.inner[0].hi < o.next)
  {
    if AtHead(heads, i, cur) then HeadTurn(t, r, i, cur, heads[FirstFrom(heads, i)].1)
    else MoveTurn(t, r, i, cur, MoveAt(t, heads, bs, r, i))
  }

  function Scan(t: string, heads: Heads, bs: bool, r: Span, i: nat, cur: Current): (s: Seen)
    requires Reads(t, heads, r, i, cur)
    decreases r.hi - i
  {
    if Over(heads, r, i, cur) then Seen(Finish(t, cur), [])
    else
      var o := TurnAt(t, heads, bs, r, i, cur);
      var rest := Scan(t, heads, bs, r, o.next, o.cur);
      Seen(o.hit || rest.hit, o.inner + rest.inner)
  }

  /** The spans lie apart from each other strictly inside i..hi. */
  ghost predicate Apart(spans: seq<Span>, i: nat, hi: nat) {
    && (forall k :: 0 <= k < |spans| ==> i < spans[k].lo <= spans[k].hi < hi)
    && (forall j, k :: 0 <= j < k < |spans| ==> spans[j].hi < spans[k].lo)
  }

  /** One turn of the reading. */
  lemma ScanAt(t: string, heads: Heads, bs: bool, r: Span, i: nat, cur: Current)
    requires Reads(t, heads, r, i, cur)
    ensures Over(heads, r, i, cur) ==> Scan(t, heads, bs, r, i, cur) == Seen(Finish(t, cur), [])
    ensures !Over(heads, r, i, cur) ==>
              var o := TurnAt(t, heads, bs, r, i, cur);
              var s, rest := Scan(t, heads, bs, r, i, cur), Scan(t, heads, bs, r, o.next, o.cur);
              s.hit == (o.hit || rest.hit) && s.inner == o.inner + rest.inner
  {
    hide TurnAt, Finish, HeadIn;
  }

  lemma ApartJoined(first: seq<Span>, rest: seq<Span>, i: nat, n: nat, hi: nat)
    requires |first| <= 1 && i < n <= hi && Apart(rest, n, hi)
    requires first != [] ==> i < first[0].lo <= first[0].hi < n
    ensures Apart(first + rest, i, hi)
  {
    var all := first + rest;
    forall k | 0 <= k < |all|
      ensures i < all[k].lo <= all[k].hi < hi
    {
      assert all[k] == if k < |first| then first[k] else rest[k - |first|];
    }
    forall j, k | 0 <= j < k < |all|
      ensures all[j].hi < all[k].lo
    {
      assert all[k] == rest[k - |first|];
      assert all[j] == if j < |first| then first[j] else rest[j - |first|];
    }
  }

  lemma {:induction false} InnerApart(t: string, heads: Heads, bs: bool, r: Span, i: nat, cur: Current)
    requires Reads(t, heads, r, i, cur)
    ensures Apart(Scan(t, heads, bs, r, i, cur).inner, i, r.hi)
    decreases r.hi - i
  {
    hide Scan, Finish, HeadIn;
    ScanAt(t, heads, bs, r, i, cur);
    if !Over(heads, r, i, cur) {
      var o := TurnAt(t, heads, bs, r, i, cur);
      hide TurnAt, Apart, AreHeads;
      InnerApart(t, heads, bs, r, o.next, o.cur);
      ApartJoined(o.inner, Scan(t, heads, bs, r, o.next, o.cur).inner, i, o.next, r.hi);
    }
  }

  /** The range, or a range inside one of its literals, drops a column. */
  ghost predicate Drops(t: string, heads: Heads, bs: bool, r: Span)
    requires AreHeads(t, heads) && r.lo <= r.hi <= |t|
    decreases r.hi - r.lo
  {
    InnerApart(t, heads, bs, r, r.lo, Outside);
    var s := Scan(t, heads, bs, r, r.lo, Outside);
    s.hit || exists k | 0 <= k < |s.inner| :: Drops(t, heads, bs, s.inner[k])
  }

  // ----- the worklist -----

  ghost predicate AnyDrops(t: string, heads: Heads, bs: bool, spans: seq<Span>)
    requires AreHeads(t, heads)
  {
    exists k :: 0 <= k < |spans| && spans[k].lo <= spans[k].hi <= |t| && Drops(t, heads, bs, spans[k])
  }

  lemma AnyAppend(t: string, heads: Heads, bs: bool, p: seq<Span>, q: seq<Span>)
    requires AreHeads(t, heads)
    ensures AnyDrops(t, heads, bs, p + q) <==> AnyDrops(t, heads, bs, p) || AnyDrops(t, heads, bs, q)
  {
    hide Drops;
    var all := p + q;
    if AnyDrops(t, heads, bs, p) {
      var k :| 0 <= k < |p| && p[k].lo <= p[k].hi <= |t| && Drops(t, heads, bs, p[k]);
      assert all[k] == p[k];
    }
    if AnyDrops(t, heads, bs, q) {
      var k :| 0 <= k < |q| && q[k].lo <= q[k].hi <= |t| && Drops(t, heads, bs, q[k]);
      assert all[|p| + k] == q[k];
    }
    if AnyDrops(t, heads, bs, all) {
      var k :| 0 <= k < |all| && all[k].lo <= all[k].hi <= |t| && Drops(t, heads, bs, all[k]);
      assert if k < |p| then p[k] == all[k] else q[k - |p|] == all[k];
    }
  }

  lemma AnyOne(t: string, heads: Heads, bs: bool, r: Span)
    requires AreHeads(t, heads) && r.lo <= r.hi <= |t|
    ensures AnyDrops(t, heads, bs, [r]) == Drops(t, heads, bs, r)
  {
    hide Drops;
    assert [r][0] == r;
  }

  lemma DropsStep(t: string, heads: Heads, bs: bool, r: Span)
    requires AreHeads(t, heads) && r.lo <= r.hi <= |t|
    ensures var s := Scan(t, heads, bs, r, r.lo, Outside);
            Drops(t, heads, bs, r) == (s.hit || AnyDrops(t, heads, bs, s.inner))
  {
    hide Scan;
    InnerApart(t, heads, bs, r, r.lo, Outside);
  }

  // ----- what failed searches cost -----

  /** The distance that an unsuccessful search for a closing quote at i reads. */
  function FailAt(t: string, heads: Heads, bs: bool, r: Span, i: nat, cur: Current): nat
    requires r.lo <= i < r.hi <= |t|
  {
    if !AtHead(heads, i, cur) && !(bs && r.level > 0 && t[i] == '\\')
       && IsQuote(t[i]) && QuoteEnd(t, i, bs, r.lo, r.hi).None?
    then r.hi - i
    else 0
  }

  /** What reading the range from i on costs. */
  function FailScan(t: string, heads: Heads, bs: bool, r: Span, i: nat, cur: Current): nat
    requires Reads(t, heads, r, i, cur)
    decreases r.hi - i
  {
    if Over(heads, r, i, cur) then 0
    else
      var o := TurnAt(t, heads, bs, r, i, cur);
      FailAt(t, heads, bs, r, i, cur) + FailScan(t, heads, bs, r, o.next, o.cur)
  }

  ghost function SpanWeight(spans: seq<Span>): nat {
    if spans == [] then 0
    else (if spans[0].lo <= spans[0].hi then spans[0].hi - spans[0].lo + 1 else 0) + SpanWeight(spans[1..])
  }

  lemma {:induction false} SpanWeightAppend(p: seq<Span>, q: seq<Span>)
    ensures SpanWeight(p + q) == SpanWeight(p) + SpanWeight(q)
  {
    if p == [] {
      assert p + q == q;
    } else {
      assert (p + q)[1..] == p[1..] + q;
      SpanWeightAppend(p[1..], q);
    }
  }

  /** Ranges apart from each other inside a range weigh no more than the range. */
  lemma {:induction false} ApartWeight(spans: seq<Span>, i: nat, hi: nat)
    requires Apart(spans, i, hi) && i <= hi
    ensures SpanWeight(spans) <= hi - i
    decreases |spans|
  {
    if spans != [] {
      assert Apart(spans[1..], spans[0].hi, hi);
      ApartWeight(spans[1..], spans[0].hi, hi);
    }
  }

  ghost predicate SpansIn(t: string, spans: seq<Span>) {
    forall k :: 0 <= k < |spans| ==> spans[k].lo <= spans[k].hi <= |t|
  }

  lemma TakeLast(t: string, heads: Heads, bs: bool, spans: seq<Span>)
    requires AreHeads(t, heads) && SpansIn(t, spans) && spans != []
    ensures var rest, r := spans[..|spans| - 1], spans[|spans| - 1];
            && AnyDrops(t, heads, bs, spans) == (AnyDrops(t, heads, bs, rest) || Drops(t, heads, bs, r))
            && SpanWeight(spans) == SpanWeight(rest) + (r.hi - r.lo + 1)
            && SpansIn(t, rest)
            && FailList(t, heads, bs, spans) == FailList(t, heads, bs, rest) + FailTotal(t, heads, bs, r)
  {
    hide Drops, AnyDrops, AreHeads, FailTotal, FailList;
    var rest, r := spans[..|spans| - 1], spans[|spans| - 1];
    assert spans == rest + [r];
    AnyAppend(t, heads, bs, rest, [r]);
    AnyOne(t, heads, bs, r);
    SpanWeightAppend(rest, [r]);
    FailOne(t, heads, bs, r);
    FailAppend(t, heads, bs, rest, [r]);
  }

  /** What reading a range costs, with all ranges inside its literals. */
  ghost function FailTotal(t: string, heads: Heads, bs: bool, r: Span): nat
    requires AreHeads(t, heads) && r.lo <= r.hi <= |t|
    decreases r.hi - r.lo + 1, 0
  {
    var inner := Scan(t, heads, bs, r, r.lo, Outside).inner;
    InnerLighter(t, heads, bs, r);
    FailScan(t, heads, bs, r, r.lo, Outside) + FailList(t, heads, bs, inner)
  }

  ghost function FailList(t: string, heads: Heads, bs: bool, spans: seq<Span>): nat
    requires AreHeads(t, heads) && SpansIn(t, spans)
    decreases SpanWeight(spans), |spans| + 1
  {
    if spans == [] then 0
    else
      assert spans[0].lo <= spans[0].hi <= |t| && SpansIn(t, spans[1..]);
      FailTotal(t, heads, bs, spans[0]) + FailList(t, heads, bs, spans[1..])
  }

  lemma InnerLighter(t: string, heads: Heads, bs: bool, r: Span)
    requires AreHeads(t, heads) && r.lo <= r.hi <= |t|
    ensures var inner := Scan(t, heads, bs, r, r.lo, Outside).inner;
            SpansIn(t, inner) && SpanWeight(inner) <= r.hi - r.lo
  {
    hide Scan, SpanWeight;
    var inner := Scan(t, heads, bs, r, r.lo, Outside).inner;
    InnerApart(t, heads, bs, r, r.lo, Outside);
    ApartWeight(inner, r.lo, r.hi);
  }

  lemma {:induction false} FailAppend(t: string, heads: Heads, bs: bool, p: seq<Span>, q: seq<Span>)
    requires AreHeads(t, heads) && SpansIn(t, p) && SpansIn(t, q)
    ensures SpansIn(t, p + q) && FailList(t, heads, bs, p + q) == FailList(t, heads, bs, p) + FailList(t, heads, bs, q)
    decreases |p|
  {
    hide FailTotal, AreHeads;
    if p == [] {
      assert p + q == q;
    } else {
      assert (p + q)[1..] == p[1..] + q && (p + q)[0] == p[0];
      FailAppend(t, heads, bs, p[1..], q);
    }
  }

  lemma FailOne(t: string, heads: Heads, bs: bool, r: Span)
    requires AreHeads(t, heads) && r.lo <= r.hi <= |t|
    ensures SpansIn(t, [r]) && FailList(t, heads, bs, [r]) == FailTotal(t, heads, bs, r)
  {
    hide FailTotal, AreHeads;
    assert [r][1..] == [];
  }

  lemma FailTotalAt(t: string, heads: Heads, bs: bool, r: Span)
    requires AreHeads(t, heads) && r.lo <= r.hi <= |t|
    ensures var inner := Scan(t, heads, bs, r, r.lo, Outside).inner;
            && SpansIn(t, inner)
            && FailTotal(t, heads, bs, r) == FailScan(t, heads, bs, r, r.lo, Outside) + FailList(t, heads, bs, inner)
  {
    hide Scan, FailScan, FailList, AreHeads;
    InnerLighter(t, heads, bs, r);
  }

  /** One turn of the reading. */
  lemma FailScanAt(t: string, heads: Heads, bs: bool, r: Span, i: nat, cur: Current)
    requires Reads(t, heads, r, i, cur)
    ensures Over(heads, r, i, cur) ==> FailScan(t, heads, bs, r, i, cur) == 0
    ensures !Over(heads, r, i, cur) ==>
              var o := TurnAt(t, heads, bs, r, i, cur);
              FailScan(t, heads, bs, r, i, cur) == FailAt(t, heads, bs, r, i, cur) + FailScan(t, heads, bs, r, o.next, o.cur)
  {
    hide TurnAt, FailAt, HeadIn;
  }

  // ----- the loops -----

  /** Unsuccessful searches for a closing quote so far; beyond the limit the answer is a detection. */
  class FailWork {
    var used: nat
    const limit: nat

    constructor (length: nat)
      ensures used == 0 && limit == 40 * length + 1000000
    {
      used := 0;
      limit := 40 * length + 1000000;
    }
  }

  /** Reads one position that is no head with the delimiter index; None exactly when a failed search
      goes over the limit. */
  method NextMove(t: string, heads: Heads, index: DollarIndex, bs: bool, r: Span, i: nat, cur: Current, work: FailWork)
    returns (m: Option<Move>)
    requires AreHeads(t, heads) && Indexes(index, t, |t|) && r.lo <= i < r.hi <= |t| && !AtHead(heads, i, cur)
    modifies work
    ensures work.used == old(work.used) + FailAt(t, heads, bs, r, i, cur)
    ensures m.None? <==> work.used > old(work.used) && work.used > work.limit
    ensures m.Some? ==> m.value == MoveAt(t, heads, bs, r, i)
  {
    hide Indexes, QuoteEnd, FirstOccurrence, DelimiterFrom, AtHead;
    var c := t[i];
    if bs && r.level > 0 && c == '\\' {
      return Some(Past(if i + 2 <= r.hi then i + 2 else r.hi));
    }
    if IsQuote(c) {
      var end := FindQuoteEnd(t, i, bs, r.lo, r.hi);
      if end.None? {
        work.used := work.used + (r.hi - i);
        return if work.used > work.limit then None else Some(Past(i + 1));
      }
      var inner := if r.level < 3 && HeadIn(heads, i, end.value) then [Span(i + 1, end.value - 1, r.level + 1)] else [];
      return Some(Deeper(end.value, inner));
    }
    if c == '$' {
      var d := DelimiterAt(t, i, r.lo, r.hi);
      if d.Some? {
        DelimiterIsOne(t, i);
        var close := NextDollar(index, t, d.value, i + |d.value|, r.hi);
        if close.Some? {
          var inner := if HeadIn(heads, i, close.value) then [Span(i + |d.value|, close.value, r.level)] else [];
          return Some(Deeper(close.value + |d.value|, inner));
        }
      }
    }
    return Some(Mark(c));
  }

  lemma HeadEnds(t: string, heads: Heads, m: nat)
    requires AreHeads(t, heads) && m < |heads|
    ensures heads[m].0 < heads[m].1 <= |t|
  {
  }

  method NextTurn(t: string, heads: Heads, index: DollarIndex, bs: bool, r: Span, i: nat, cur: Current, work: FailWork)
    returns (o: Option<Turn>)
    requires Reads(t, heads, r, i, cur) && i < r.hi && Indexes(index, t, |t|)
    modifies work
    ensures work.used == old(work.used) + FailAt(t, heads, bs, r, i, cur)
    ensures o.None? <==> work.used > old(work.used) && work.used > work.limit
    ensures o.Some? ==> o.value == TurnAt(t, heads, bs, r, i, cur)
  {
    hide Indexes, MoveAt, AreHeads, QuoteEnd;
    if AtHead(heads, i, cur) {
      assert i < heads[FirstFrom(heads, i)].1 by { HeadEnds(t, heads, FirstFrom(heads, i)); }
      return Some(HeadTurn(t, r, i, cur, heads[FirstFrom(heads, i)].1));
    }
    var move := NextMove(t, heads, index, bs, r, i, cur, work);
    hide FailAt;
    if move.None? {
      return None;
    }
    match move.value {
      case Past(next) =>
        return Some(Turn(false, next, Widened(cur, next), []));
      case Deeper(next, inner) =>
        return Some(Turn(false, next, Widened(cur, next), inner));
      case Mark(c) =>
        if cur.Outside? {
          return Some(Turn(false, i + 1, cur, []));
        }
        var after := After(t, cur, c, i);
        return Some(if after.Some? then Turn(false, i + 1, after.value, []) else Turn(Finish(t, cur), i + 1, Outside, []));
    }
  }

  /** Reads one range; stops early at a drop or when the failed searches go over the limit. */
  method ScanRange(t: string, heads: Heads, index: DollarIndex, bs: bool, r: Span, work: FailWork)
    returns (detected: bool, inner: seq<Span>)
    requires AreHeads(t, heads) && r.lo <= r.hi <= |t| && Indexes(index, t, |t|)
    requires work.used <= work.limit
    modifies work
    ensures var seen, cost := Scan(t, heads, bs, r, r.lo, Outside), FailScan(t, heads, bs, r, r.lo, Outside);
            && (detected <==> seen.hit || old(work.used) + cost > work.limit)
            && (!detected ==> inner == seen.inner && work.used == old(work.used) + cost)
  {
    hide Indexes, TurnAt, AreHeads, HeadIn, Finish, Scan, FailAt, FailScan;
    inner := [];
    var cur, i := Outside, r.lo;
    ghost var whole, cost := Scan(t, heads, bs, r, r.lo, Outside), FailScan(t, heads, bs, r, r.lo, Outside);
    while !Over(heads, r, i, cur)
      invariant Reads(t, heads, r, i, cur)
      invariant whole.hit == Scan(t, heads, bs, r, i, cur).hit
      invariant whole.inner == inner + Scan(t, heads, bs, r, i, cur).inner
      invariant work.used <= work.limit && old(work.used) + cost == work.used + FailScan(t, heads, bs, r, i, cur)
      decreases r.hi - i
    {
      ScanAt(t, heads, bs, r, i, cur);
      FailScanAt(t, heads, bs, r, i, cur);
      var o := NextTurn(t, heads, index, bs, r, i, cur, work);
      if o.None? || o.value.hit {
        return true, inner;
      }
      ghost var rest := Scan(t, heads, bs, r, o.value.next, o.value.cur).inner;
      assert inner + (o.value.inner + rest) == inner + o.value.inner + rest;
      inner := inner + o.value.inner;
      i, cur := o.value.next, o.value.cur;
    }
    ScanAt(t, heads, bs, r, i, cur);
    FailScanAt(t, heads, bs, r, i, cur);
    detected := Finish(t, cur);
  }

  ghost function FailLimit(length: nat): nat { 40 * length + 1000000 }

  /** The worklist of ranges detects exactly the dropped columns, and every text on which the failed
      searches of all ranges together cost more than the limit. */
  method DropsColumnShorthand(t: string, heads: Heads, bs: bool) returns (detected: bool)
    requires AreHeads(t, heads)
    ensures var all := Span(0, |t|, 0);
            detected <==> Drops(t, heads, bs, all) || FailTotal(t, heads, bs, all) > FailLimit(|t|)
  {
    hide Drops, Scan, AreHeads, Indexes, AnyDrops, FailTotal, FailList, FailScan;
    var index := BuildDollarIndex(t);
    var work := new FailWork(|t|);
    var spans := [Span(0, |t|, 0)];
    AnyOne(t, heads, bs, Span(0, |t|, 0));
    FailOne(t, heads, bs, Span(0, |t|, 0));
    while spans != []
      invariant SpansIn(t, spans) && work.used <= work.limit == FailLimit(|t|)
      invariant AnyDrops(t, heads, bs, spans) == Drops(t, heads, bs, Span(0, |t|, 0))
      invariant work.used + FailList(t, heads, bs, spans) == FailTotal(t, heads, bs, Span(0, |t|, 0))
      decreases SpanWeight(spans)
    {
      TakeLast(t, heads, bs, spans);
      var r := spans[|spans| - 1];
      spans := spans[..|spans| - 1];
      DropsStep(t, heads, bs, r);
      FailTotalAt(t, heads, bs, r);
      InnerLighter(t, heads, bs, r);
      var hit, inner := ScanRange(t, heads, index, bs, r, work);
      if hit {
        return true;
      }
      AnyAppend(t, heads, bs, spans, inner);
      SpanWeightAppend(spans, inner);
      FailAppend(t, heads, bs, spans, inner);
      spans := spans + inner;
    }
    NoneDrops(t, heads, bs);
    return false;
  }

  lemma NoneDrops(t: string, heads: Heads, bs: bool)
    requires AreHeads(t, heads)
    ensures !AnyDrops(t, heads, bs, []) && FailList(t, heads, bs, []) == 0
  {
  }

  // ----- with few quotes the limit is never met -----

  /** n for every quote in a..b. */
  ghost function QuotePay(t: string, a: nat, b: nat, n: nat): nat
    requires a <= b <= |t|
    decreases b - a
  {
    if a == b then 0 else (if IsQuote(t[a]) then n else 0) + QuotePay(t, a + 1, b, n)
  }

  lemma {:induction false} PaySplit(t: string, a: nat, m: nat, b: nat, n: nat)
    requires a <= m <= b <= |t|
    ensures QuotePay(t, a, b, n) == QuotePay(t, a, m, n) + QuotePay(t, m, b, n)
    decreases m - a
  {
    if a < m {
      PaySplit(t, a + 1, m, b, n);
    }
  }

  /** Every failed search starts at a quote of its own and reads at most the text. */
  lemma {:induction false} FailScanBound(t: string, heads: Heads, bs: bool, r: Span, i: nat, cur: Current)
    requires Reads(t, heads, r, i, cur)
    ensures SpansIn(t, Scan(t, heads, bs, r, i, cur).inner)
    ensures FailScan(t, heads, bs, r, i, cur) + FailList(t, heads, bs, Scan(t, heads, bs, r, i, cur).inner)
         <= QuotePay(t, i, r.hi, |t|)
    decreases r.hi - r.lo, 1, r.hi - i
  {
    hide Scan, FailScan, FailAt, FailList, FailTotal, AreHeads, HeadIn, Finish, QuotePay;
    ScanAt(t, heads, bs, r, i, cur);
    FailScanAt(t, heads, bs, r, i, cur);
    if Over(heads, r, i, cur) {
      NoneDrops(t, heads, bs);
    } else {
      var o := TurnAt(t, heads, bs, r, i, cur);
      FailScanBound(t, heads, bs, r, o.next, o.cur);
      TurnBound(t, heads, bs, r, i, cur);
      hide TurnAt;
      FailAppend(t, heads, bs, o.inner, Scan(t, heads, bs, r, o.next, o.cur).inner);
      PaySplit(t, i, o.next, r.hi, |t|);
    }
  }

  lemma {:induction false} TurnBound(t: string, heads: Heads, bs: bool, r: Span, i: nat, cur: Current)
    requires Reads(t, heads, r, i, cur) && i < r.hi
    ensures var o := TurnAt(t, heads, bs, r, i, cur);
            && SpansIn(t, o.inner)
            && FailAt(t, heads, bs, r, i, cur) + FailList(t, heads, bs, o.inner) <= QuotePay(t, i, o.next, |t|)
    decreases r.hi - r.lo, 0, 0
  {
    hide FailList, FailTotal, AreHeads, HeadIn, Finish, QuotePay;
    var o := TurnAt(t, heads, bs, r, i, cur);
    if o.inner == [] {
      NoneDrops(t, heads, bs);
      PaySplit(t, i, i + 1, o.next, |t|);
      PayFirst(t, i, |t|);
    } else {
      assert FailAt(t, heads, bs, r, i, cur) == 0;
      hide TurnAt, FailAt;
      var inner := o.inner[0];
      assert o.inner == [inner];
      FailOne(t, heads, bs, inner);
      FailTotalBound(t, heads, bs, inner);
      PaySplit(t, i, inner.lo, o.next, |t|);
      PaySplit(t, inner.lo, inner.hi, o.next, |t|);
    }
  }

  lemma PayFirst(t: string, i: nat, n: nat)
    requires i < |t|
    ensures QuotePay(t, i, i + 1, n) == if IsQuote(t[i]) then n else 0
  {
  }

  lemma {:induction false} FailTotalBound(t: string, heads: Heads, bs: bool, r: Span)
    requires AreHeads(t, heads) && r.lo <= r.hi <= |t|
    ensures FailTotal(t, heads, bs, r) <= QuotePay(t, r.lo, r.hi, |t|)
    decreases r.hi - r.lo, 2, 0
  {
    hide FailTotal, FailScan, FailList, Scan, QuotePay, AreHeads;
    FailTotalAt(t, heads, bs, r);
    FailScanBound(t, heads, bs, r, r.lo, Outside);
  }

  ghost function Quotes(t: string, a: nat, b: nat): nat
    requires a <= b <= |t|
    decreases b - a
  {
    if a == b then 0 else (if IsQuote(t[a]) then 1 else 0) + Quotes(t, a + 1, b)
  }

  lemma {:induction false} PayQuotes(t: string, a: nat, b: nat, n: nat)
    requires a <= b <= |t|
    ensures QuotePay(t, a, b, n) == Quotes(t, a, b) * n
    decreases b - a
  {
    if a < b {
      PayQuotes(t, a + 1, b, n);
      var q := Quotes(t, a + 1, b);
      assert (1 + q) * n == n + q * n;
    }
  }

  /** A text with at most forty quotes never goes over the limit: its answer is exact. */
  lemma FewQuotes(t: string, heads: Heads, bs: bool)
    requires AreHeads(t, heads) && Quotes(t, 0, |t|) <= 40
    ensures FailTotal(t, heads, bs, Span(0, |t|, 0)) <= FailLimit(|t|)
  {
    assert FailLimit(|t|) == 40 * |t| + 1000000;
    hide *;
    FailTotalBound(t, heads, bs, Span(0, |t|, 0));
    PayQuotes(t, 0, |t|, |t|);
    TimesForty(Quotes(t, 0, |t|), |t|);
  }

  lemma TimesForty(q: nat, n: nat)
    requires q <= 40
    ensures q * n <= 40 * n
  {
    assert 40 * n == q * n + (40 - q) * n;
  }
}
