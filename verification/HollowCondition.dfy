/** Deciding whether a WHERE condition says nothing: outer parentheses are taken
    off, the rest is split at every OR outside parentheses, and one branch that
    says nothing makes the whole condition hollow. Whether a branch without OR
    says nothing is a parameter, `empty`. */
module HollowCondition {
  import opened Wrappers

  predicate IsBlank(c: char) { c == ' ' || '\U{0009}' <= c <= '\U{000D}' }

  predicate IsLetter(c: char) { 'a' <= c <= 'z' || 'A' <= c <= 'Z' }

  predicate IsWord(c: char) { IsLetter(c) || '0' <= c <= '9' || c == '_' }

  // ----- parentheses -----

  /** Where the parenthesis that closes `depth` open ones stands, reading from k; |c| if nowhere. */
  function CloseParen(c: string, k: nat, depth: nat): (r: nat)
    requires depth > 0 && k <= |c|
    ensures k <= r <= |c| && (r < |c| ==> c[r] == ')')
    decreases |c| - k
  {
    if k == |c| then k
    else if c[k] == '(' then CloseParen(c, k + 1, depth + 1)
    else if c[k] == ')' then (if depth == 1 then k else CloseParen(c, k + 1, depth - 1))
    else CloseParen(c, k + 1, depth)
  }

  function MatchOf(c: string, o: nat): (r: nat)
    requires o < |c|
    ensures o < r <= |c|
  {
    CloseParen(c, o + 1, 1)
  }

  ghost predicate MatchedUpTo(c: string, i: nat, close: seq<int>, stack: seq<nat>)
    ensures MatchedUpTo(c, i, close, stack) && stack != [] ==> stack[|stack| - 1] < |close|
  {
    && i <= |c| && |close| == |c|
    && (forall k :: 0 <= k < |stack| ==>
          stack[k] < i && c[stack[k]] == '(' && MatchOf(c, stack[k]) == CloseParen(c, i, |stack| - k))
    && (forall a, b :: 0 <= a < b < |stack| ==> stack[a] < stack[b])
    && (forall o: nat :: o < i && c[o] == '(' && o !in stack ==> close[o] == MatchOf(c, o) && MatchOf(c, o) < |c|)
  }

  lemma CloseStep(c: string, i: nat, depth: nat)
    requires i < |c| && depth > 0
    ensures c[i] == '(' ==> CloseParen(c, i, depth) == CloseParen(c, i + 1, depth + 1)
    ensures c[i] == ')' && depth > 1 ==> CloseParen(c, i, depth) == CloseParen(c, i + 1, depth - 1)
    ensures c[i] == ')' && depth == 1 ==> CloseParen(c, i, depth) == i
  {
  }

  lemma MatchPush(c: string, i: nat, close: seq<int>, stack: seq<nat>)
    requires MatchedUpTo(c, i, close, stack) && i < |c| && c[i] == '('
    ensures MatchedUpTo(c, i + 1, close, stack + [i])
  {
    hide MatchOf, CloseParen;
    PushOpen(c, i, stack);
    PushMember(stack, i);
  }

  lemma PushMember(stack: seq<nat>, i: nat)
    ensures forall o: nat :: o in stack + [i] <==> o in stack || o == i
  {
  }

  lemma PushOpen(c: string, i: nat, stack: seq<nat>)
    requires i < |c| && c[i] == '('
    requires forall k :: 0 <= k < |stack| ==>
               stack[k] < i && c[stack[k]] == '(' && MatchOf(c, stack[k]) == CloseParen(c, i, |stack| - k)
    requires forall a, b :: 0 <= a < b < |stack| ==> stack[a] < stack[b]
    ensures var wider := stack + [i];
            && (forall k :: 0 <= k < |wider| ==>
                  wider[k] < i + 1 && c[wider[k]] == '(' && MatchOf(c, wider[k]) == CloseParen(c, i + 1, |wider| - k))
            && forall a, b :: 0 <= a < b < |wider| ==> wider[a] < wider[b]
  {
    var wider := stack + [i];
    assert MatchOf(c, i) == CloseParen(c, i + 1, 1);
    hide MatchOf, CloseParen;
    forall k | 0 <= k < |wider|
      ensures wider[k] <= i && c[wider[k]] == '(' && MatchOf(c, wider[k]) == CloseParen(c, i + 1, |wider| - k)
    {
      if k < |stack| {
        assert wider[k] == stack[k];
        CloseStep(c, i, |stack| - k);
      }
    }
    forall a, b | 0 <= a < b < |wider|
      ensures wider[a] < wider[b]
    {
      assert wider[a] == stack[a];
      assert b < |stack| ==> wider[b] == stack[b];
    }
  }

  lemma MatchPop(c: string, i: nat, close: seq<int>, rest: seq<nat>, top: nat)
    requires MatchedUpTo(c, i, close, rest + [top]) && i < |c| && c[i] == ')' && top < |close|
    ensures MatchedUpTo(c, i + 1, close[top := i], rest)
  {
    var stack := rest + [top];
    hide MatchOf, CloseParen;
    assert stack[|rest|] == top;
    CloseStep(c, i, 1);
    assert MatchOf(c, top) == i;
    forall k | 0 <= k < |rest|
      ensures rest[k] < i && c[rest[k]] == '(' && MatchOf(c, rest[k]) == CloseParen(c, i + 1, |rest| - k)
    {
      assert rest[k] == stack[k];
      CloseStep(c, i, |stack| - k);
    }
    forall x, y | 0 <= x < y < |rest|
      ensures rest[x] < rest[y]
    {
      assert rest[x] == stack[x] && rest[y] == stack[y];
    }
    forall o: nat | o < i + 1 && c[o] == '(' && o !in rest
      ensures close[top := i][o] == MatchOf(c, o) && MatchOf(c, o) < |c|
    {
      assert o !in stack || o == top;
    }
  }

  lemma MatchSkip(c: string, i: nat, close: seq<int>, stack: seq<nat>)
    requires MatchedUpTo(c, i, close, stack) && i < |c| && c[i] != '(' && (c[i] == ')' ==> stack == [])
    ensures MatchedUpTo(c, i + 1, close, stack)
  {
  }

  lemma MatchRest(c: string, close: seq<int>, stack: seq<nat>)
    requires MatchedUpTo(c, |c|, close, stack)
    ensures forall o: nat :: o < |c| && c[o] == '(' ==> MatchOf(c, o) == if o in stack then |c| else close[o]
    ensures forall k :: 0 <= k < |stack| ==> stack[k] < |close|
  {
  }

  /** One pass with a stack finds the closing parenthesis of every opening one, |c| for an open end. */
  method MatchParens(c: string) returns (close: array<int>)
    ensures fresh(close) && close.Length == |c|
    ensures forall o :: 0 <= o < |c| && c[o] == '(' ==> close[o] == MatchOf(c, o)
  {
    hide MatchedUpTo, MatchOf;
    var n := |c|;
    close := new int[n](_ => -1);
    var stack: seq<nat> := [];
    MatchNothing(c, close[..]);
    for i := 0 to n
      invariant MatchedUpTo(c, i, close[..], stack)
    {
      if c[i] == '(' {
        MatchPush(c, i, close[..], stack);
        stack := stack + [i];
      } else if c[i] == ')' && stack != [] {
        assert stack == stack[..|stack| - 1] + [stack[|stack| - 1]];
        MatchPop(c, i, close[..], stack[..|stack| - 1], stack[|stack| - 1]);
        close[stack[|stack| - 1]] := i;
        stack := stack[..|stack| - 1];
      } else {
        MatchSkip(c, i, close[..], stack);
      }
    }
    ghost var found := close[..];
    MatchRest(c, found, stack);
    for k := 0 to |stack|
      invariant forall o :: 0 <= o < n ==> close[o] == if o in stack[..k] then n else found[o]
    {
      close[stack[k]] := n;
    }
    assert stack[..|stack|] == stack;
  }

  lemma MatchNothing(c: string, close: seq<int>)
    requires |close| == |c|
    ensures MatchedUpTo(c, 0, close, [])
  {
  }

  // ----- the recursive meaning -----

  type Range = (nat, nat)

  /** The range without outer blanks and outer parentheses; an open end counts as closed at the end of the text. */
  function Core(c: string, a: nat, b: nat): (r: Range)
    requires a <= b <= |c|
    ensures a <= r.0 <= r.1 <= b
    decreases b - a
  {
    if a == b then (a, b)
    else if IsBlank(c[a]) then Core(c, a + 1, b)
    else if IsBlank(c[b - 1]) then Core(c, a, b - 1)
    else if c[a] == '(' && MatchOf(c, a) == b - 1 then Core(c, a + 1, b - 1)
    else if c[a] == '(' && MatchOf(c, a) == |c| == b then Core(c, a + 1, b)
    else (a, b)
  }

  function WordEnd(c: string, k: nat, b: nat): (e: nat)
    requires k <= b <= |c|
    ensures k <= e <= b && (e < b ==> !IsWord(c[e])) && forall j :: k <= j < e ==> IsWord(c[j])
    decreases b - k
  {
    if k < b && IsWord(c[k]) then WordEnd(c, k + 1, b) else k
  }

  predicate IsOr(c: string, k: nat, e: nat)
    requires e <= |c|
  {
    e == k + 2 && (c[k] == 'o' || c[k] == 'O') && (c[k + 1] == 'r' || c[k + 1] == 'R')
  }

  /** A word starts at k; a is the start of the range. */
  predicate WordStart(c: string, a: nat, k: nat)
    requires a <= k < |c|
  {
    IsLetter(c[k]) && (k == a || !IsWord(c[k - 1]))
  }

  /** Where the scan at k goes on behind a parenthesis. */
  function Behind(c: string, k: nat, b: nat): (r: nat)
    requires k < b <= |c|
    ensures r > k
  {
    if MatchOf(c, k) == |c| then b else MatchOf(c, k) + 1
  }

  ghost function Weight(ranges: seq<Range>): nat {
    if ranges == [] then 0
    else (if ranges[0].0 <= ranges[0].1 then ranges[0].1 - ranges[0].0 + 1 else 0) + Weight(ranges[1..])
  }

  /** The branches of a..b between the ORs outside parentheses; the current one began at `start`. */
  function Branches(c: string, a: nat, b: nat, start: nat, k: nat): (rs: seq<Range>)
    requires a <= start <= b <= |c| && start <= k
    ensures rs != []
    decreases b - k
  {
    if k >= b then [(start, b)]
    else if c[k] == '(' then Branches(c, a, b, start, Behind(c, k, b))
    else if WordStart(c, a, k) then
      var e := WordEnd(c, k + 1, b);
      if IsOr(c, k, e) then [(start, k)] + Branches(c, a, b, e, e) else Branches(c, a, b, start, e)
    else Branches(c, a, b, start, k + 1)
  }

  /** One step of the scan. */
  lemma BranchesAt(c: string, a: nat, b: nat, start: nat, k: nat)
    requires a <= start <= b <= |c| && start <= k
    ensures Branches(c, a, b, start, k) ==
            if k >= b then [(start, b)]
            else if c[k] == '(' then Branches(c, a, b, start, Behind(c, k, b))
            else if WordStart(c, a, k) then
              var e := WordEnd(c, k + 1, b);
              if IsOr(c, k, e) then [(start, k)] + Branches(c, a, b, e, e) else Branches(c, a, b, start, e)
            else Branches(c, a, b, start, k + 1)
  {
  }

  /** Branches lie in the range, and splitting makes them lighter together than the range was. */
  lemma {:induction false} BranchesFit(c: string, a: nat, b: nat, start: nat, k: nat)
    requires a <= start <= b <= |c| && start <= k
    ensures var rs := Branches(c, a, b, start, k);
            && Weight(rs) + |rs| <= b - start + 2
            && (forall i :: 0 <= i < |rs| ==> start <= rs[i].0 <= rs[i].1 <= b)
            && (|rs| > 1 ==> forall i :: 0 <= i < |rs| ==> rs[i].1 - rs[i].0 < b - start)
    decreases b - k
  {
    hide Branches, Behind, WordEnd;
    BranchesAt(c, a, b, start, k);
    if k < b {
      if c[k] == '(' {
        BranchesFit(c, a, b, start, Behind(c, k, b));
      } else if WordStart(c, a, k) {
        var e := WordEnd(c, k + 1, b);
        BranchesFit(c, a, b, if IsOr(c, k, e) then e else start, e);
      } else {
        BranchesFit(c, a, b, start, k + 1);
      }
    }
  }

  ghost predicate Hollow(c: string, a: nat, b: nat, empty: string -> bool)
    requires a <= b <= |c|
    decreases b - a
  {
    var (x, y) := Core(c, a, b);
    x == y ||
    var rs := Branches(c, x, y, x, x);
    BranchesFit(c, x, y, x, x);
    if |rs| == 1 then empty(c[x..y])
    else exists i | 0 <= i < |rs| :: Hollow(c, rs[i].0, rs[i].1, empty)
  }

  ghost predicate HollowText(c: string, empty: string -> bool) {
    Hollow(c, 0, |c|, empty)
  }

  // ----- the worklist -----

  lemma {:induction false} WeightAppend(p: seq<Range>, q: seq<Range>)
    ensures Weight(p + q) == Weight(p) + Weight(q)
  {
    if p == [] {
      assert p + q == q;
    } else {
      assert (p + q)[1..] == p[1..] + q;
      WeightAppend(p[1..], q);
    }
  }

  ghost predicate Waiting(c: string, pending: seq<Range>) {
    forall i | 0 <= i < |pending| :: pending[i].0 <= pending[i].1 <= |c|
  }

  /** One of the ranges is hollow. */
  ghost predicate Any(c: string, rs: seq<Range>, empty: string -> bool) {
    exists i :: 0 <= i < |rs| && rs[i].0 <= rs[i].1 <= |c| && Hollow(c, rs[i].0, rs[i].1, empty)
  }

  lemma AnyAppend(c: string, p: seq<Range>, q: seq<Range>, empty: string -> bool)
    ensures Any(c, p + q, empty) <==> Any(c, p, empty) || Any(c, q, empty)
  {
    hide Hollow;
    var all := p + q;
    if Any(c, p, empty) {
      var i :| 0 <= i < |p| && p[i].0 <= p[i].1 <= |c| && Hollow(c, p[i].0, p[i].1, empty);
      assert all[i] == p[i];
    }
    if Any(c, q, empty) {
      var i :| 0 <= i < |q| && q[i].0 <= q[i].1 <= |c| && Hollow(c, q[i].0, q[i].1, empty);
      assert all[|p| + i] == q[i];
    }
    if Any(c, all, empty) {
      var i :| 0 <= i < |all| && all[i].0 <= all[i].1 <= |c| && Hollow(c, all[i].0, all[i].1, empty);
      assert if i < |p| then p[i] == all[i] else q[i - |p|] == all[i];
    }
  }

  lemma AnyOne(c: string, r: Range, empty: string -> bool)
    requires r.0 <= r.1 <= |c|
    ensures Any(c, [r], empty) <==> Hollow(c, r.0, r.1, empty)
  {
    hide Hollow;
    assert [r][0] == r;
  }

  /** A range that splits is hollow when one of its branches is. */
  lemma HollowSplit(c: string, a: nat, b: nat, empty: string -> bool)
    requires a <= b <= |c|
    ensures var (x, y) := Core(c, a, b);
            x < y && |Branches(c, x, y, x, x)| > 1 ==> Hollow(c, a, b, empty) == Any(c, Branches(c, x, y, x, x), empty)
  {
    hide Core, Branches;
    var (x, y) := Core(c, a, b);
    BranchesFit(c, x, y, x, x);
  }

  method FindCore(c: string, close: array<int>, lo: nat, hi: nat) returns (a: nat, b: nat)
    requires lo <= hi <= |c| && close.Length == |c|
    requires forall o :: 0 <= o < |c| && c[o] == '(' ==> close[o] == MatchOf(c, o)
    ensures (a, b) == Core(c, lo, hi)
  {
    a, b := lo, hi;
    while true
      invariant lo <= a <= b <= hi && Core(c, a, b) == Core(c, lo, hi)
      decreases b - a
    {
      while a < b && IsBlank(c[a])
        invariant lo <= a <= b && Core(c, a, b) == Core(c, lo, hi)
      {
        a := a + 1;
      }
      while b > a && IsBlank(c[b - 1])
        invariant a <= b <= hi && Core(c, a, b) == Core(c, lo, hi)
        invariant a < b ==> !IsBlank(c[a])
      {
        b := b - 1;
      }
      if a < b && c[a] == '(' {
        if close[a] == b - 1 {
          a, b := a + 1, b - 1;
          continue;
        }
        if close[a] == |c| && b == |c| {
          a := a + 1;
          continue;
        }
      }
      break;
    }
  }

  method SplitAtOr(c: string, close: array<int>, a: nat, b: nat) returns (branches: seq<Range>)
    requires a <= b <= |c| && close.Length == |c|
    requires forall o :: 0 <= o < |c| && c[o] == '(' ==> close[o] == MatchOf(c, o)
    ensures branches == Branches(c, a, b, a, a)
  {
    branches := [];
    var start, k := a, a;
    while k < b
      invariant a <= start <= b && start <= k
      invariant branches + Branches(c, a, b, start, k) == Branches(c, a, b, a, a)
    {
      if c[k] == '(' {
        k := if close[k] == |c| then b else close[k] + 1;
        continue;
      }
      if IsLetter(c[k]) && (k == a || !IsWord(c[k - 1])) {
        var e := WordEnd(c, k + 1, b);
        if IsOr(c, k, e) {
          ghost var before := branches;
          branches := branches + [(start, k)];
          assert before + ([(start, k)] + Branches(c, a, b, e, e)) == branches + Branches(c, a, b, e, e);
          start := e;
        }
        k := e;
        continue;
      }
      k := k + 1;
    }
    branches := branches + [(start, b)];
  }

  lemma TakeLast(c: string, pending: seq<Range>, empty: string -> bool)
    requires pending != [] && Waiting(c, pending)
    ensures var rest, last := pending[..|pending| - 1], pending[|pending| - 1];
            && Any(c, pending, empty) == (Any(c, rest, empty) || Hollow(c, last.0, last.1, empty))
            && Weight(pending) == Weight(rest) + (last.1 - last.0 + 1)
  {
    hide Any, Hollow;
    var rest, last := pending[..|pending| - 1], pending[|pending| - 1];
    assert pending == rest + [last];
    AnyAppend(c, rest, [last], empty);
    AnyOne(c, last, empty);
    WeightAppend(rest, [last]);
  }

  /** The worklist computes the recursive meaning, on every text. */
  method IsHollowCondition(c: string, empty: string -> bool) returns (hollow: bool)
    ensures hollow == HollowText(c, empty)
  {
    hide Any, Core, Branches;
    var close := MatchParens(c);
    var pending: seq<Range> := [(0, |c|)];
    AnyOne(c, (0, |c|), empty);
    while |pending| > 0
      invariant Waiting(c, pending)
      invariant Any(c, pending, empty) == HollowText(c, empty)
      invariant forall o :: 0 <= o < |c| && c[o] == '(' ==> close[o] == MatchOf(c, o)
      decreases Weight(pending)
    {
      TakeLast(c, pending, empty);
      var (lo, hi) := pending[|pending| - 1];
      pending := pending[..|pending| - 1];
      var a, b := FindCore(c, close, lo, hi);
      if a >= b {
        return true;
      }
      var branches := SplitAtOr(c, close, a, b);
      BranchesFit(c, a, b, a, a);
      if |branches| == 1 {
        if empty(c[a..b]) {
          return true;
        }
        continue;
      }
      HollowSplit(c, lo, hi, empty);
      WeightAppend(pending, branches);
      AnyAppend(c, pending, branches, empty);
      pending := pending + branches;
    }
    NoneLeft(c, empty);
    return false;
  }

  lemma NoneLeft(c: string, empty: string -> bool)
    ensures !Any(c, [], empty)
  {
  }
}
