/** The laws of hollow conditions. */
module HollowLaws {
  import opened Characters
  import opened Wrappers
  import opened HollowCondition
  import opened TextParts

  /** The depth at b when reading from k at `depth`; None if a parenthesis closes too much. */
  ghost function DepthTo(c: string, k: nat, b: nat, depth: nat): Option<nat>
    requires k <= b <= |c|
    decreases b - k
  {
    if k == b then Some(depth)
    else if c[k] == '(' then DepthTo(c, k + 1, b, depth + 1)
    else if c[k] == ')' then (if depth == 0 then None else DepthTo(c, k + 1, b, depth - 1))
    else DepthTo(c, k + 1, b, depth)
  }

  ghost predicate Balanced(c: string, a: nat, b: nat)
    requires a <= b <= |c|
  {
    DepthTo(c, a, b, 0) == Some(0)
  }

  lemma {:induction false} DepthVia(c: string, a: nat, k: nat, b: nat, depth: nat)
    requires a <= k <= b <= |c|
    ensures DepthTo(c, a, k, depth).None? ==> DepthTo(c, a, b, depth).None?
    ensures DepthTo(c, a, k, depth).Some? ==> DepthTo(c, a, b, depth) == DepthTo(c, k, b, DepthTo(c, a, k, depth).value)
    decreases k - a
  {
    if a < k {
      DepthVia(c, a + 1, k, b, depth + 1);
      DepthVia(c, a + 1, k, b, depth);
      if depth > 0 {
        DepthVia(c, a + 1, k, b, depth - 1);
      }
    }
  }

  /** In a range that ends at depth 0 every open parenthesis is closed inside it. */
  lemma {:induction false} ClosedInside(c: string, k: nat, b: nat, depth: nat, j: nat)
    requires k <= b <= |c| && 0 < j <= depth && DepthTo(c, k, b, depth) == Some(0)
    ensures var m := CloseParen(c, k, j); m < b && DepthTo(c, k, m, depth) == Some(depth - j + 1)
    ensures DepthTo(c, CloseParen(c, k, j) + 1, b, depth - j) == Some(0)
    decreases b - k
  {
    if c[k] == '(' {
      ClosedInside(c, k + 1, b, depth + 1, j + 1);
    } else if c[k] == ')' {
      if j > 1 {
        ClosedInside(c, k + 1, b, depth - 1, j - 1);
      }
    } else {
      ClosedInside(c, k + 1, b, depth, j);
    }
  }

  lemma {:induction false} DepthRaised(c: string, k: nat, b: nat, depth: nat, more: nat)
    requires k <= b <= |c| && DepthTo(c, k, b, depth).Some?
    ensures DepthTo(c, k, b, depth + more) == Some(DepthTo(c, k, b, depth).value + more)
    decreases b - k
  {
    if k < b {
      if c[k] == '(' {
        DepthRaised(c, k + 1, b, depth + 1, more);
      } else if c[k] == ')' {
        DepthRaised(c, k + 1, b, depth - 1, more);
      } else {
        DepthRaised(c, k + 1, b, depth, more);
      }
    }
  }

  /** Up to the closing parenthesis the depth inside stays at least one. */
  lemma {:induction false} NeverBelow(c: string, k: nat, m: nat, depth: nat, j: nat)
    requires k <= m <= |c| && 0 < j <= depth && CloseParen(c, k, j) >= m && DepthTo(c, k, m, depth).Some?
    ensures DepthTo(c, k, m, depth - 1).Some?
    ensures DepthTo(c, k, m, depth - 1).value + 1 == DepthTo(c, k, m, depth).value
    decreases m - k
  {
    if k < m {
      if c[k] == '(' {
        NeverBelow(c, k + 1, m, depth + 1, j + 1);
      } else if c[k] == ')' {
        NeverBelow(c, k + 1, m, depth - 1, j - 1);
      } else {
        NeverBelow(c, k + 1, m, depth, j);
      }
    }
  }

  // ----- a balanced part of a text is read as if it were alone -----

  /** Every opening parenthesis of the range has its partner in the text. */
  ghost predicate Partnered(u: string, a: nat, b: nat)
    requires b <= |u|
  {
    forall k :: a <= k < b && u[k] == '(' ==> MatchOf(u, k) < |u|
  }

  /** The parenthesis at k has the same partner in both texts, or none in both; a range up to b then ends
      with both texts or with neither. */
  ghost predicate CarriedAt(c: string, off: nat, u: string, b: nat, k: nat)
    requires k < |u| && off + |u| <= |c|
  {
    if MatchOf(u, k) < |u| then MatchOf(c, off + k) == off + MatchOf(u, k)
    else MatchOf(c, off + k) == |c| && (b == |u| <==> off + b == |c|)
  }

  ghost predicate Carried(c: string, off: nat, u: string, a: nat, b: nat)
    requires b <= |u| && off + |u| <= |c|
  {
    forall k :: a <= k < b && u[k] == '(' ==> CarriedAt(c, off, u, b, k)
  }

  lemma CarriedInside(c: string, off: nat, u: string, a: nat, b: nat, a': nat, b': nat)
    requires off + |u| <= |c| && a <= a' <= b' <= b <= |u| && Carried(c, off, u, a, b)
    ensures Carried(c, off, u, a', b')
  {
    hide MatchOf;
    forall k | a' <= k < b' && u[k] == '('
      ensures CarriedAt(c, off, u, b', k)
    {
      assert CarriedAt(c, off, u, b, k);
    }
  }

  lemma {:induction false} CloseMoved(c: string, off: nat, u: string, k: nat, depth: nat)
    requires Part(c, off, u) && k <= |u| && depth > 0
    ensures CloseParen(u, k, depth) < |u| || off + |u| == |c| ==> CloseParen(c, off + k, depth) == off + CloseParen(u, k, depth)
    decreases |u| - k
  {
    if k < |u| {
      if u[k] == '(' {
        CloseMoved(c, off, u, k + 1, depth + 1);
      } else if u[k] == ')' {
        if depth > 1 {
          CloseMoved(c, off, u, k + 1, depth - 1);
        }
      } else {
        CloseMoved(c, off, u, k + 1, depth);
      }
    }
  }

  /** Where every parenthesis has its partner, or at the end of the text, it is found again. */
  lemma PartsCarried(c: string, off: nat, u: string, a: nat, b: nat)
    requires Part(c, off, u) && a <= b <= |u| && (Partnered(u, a, b) || off + |u| == |c|)
    ensures Carried(c, off, u, a, b)
  {
    hide Part, CloseParen;
    forall k | a <= k < b && u[k] == '('
      ensures CarriedAt(c, off, u, b, k)
    {
      CloseMoved(c, off, u, k + 1, 1);
    }
  }

  /** What Core takes off first: how much at the start, and how much at the end. */
  function Peel(c: string, a: nat, b: nat): (r: (nat, nat))
    requires a < b <= |c|
    ensures a + r.0 + r.1 <= b
  {
    if IsBlank(c[a]) then (1, 0)
    else if IsBlank(c[b - 1]) then (0, 1)
    else if c[a] == '(' && MatchOf(c, a) == b - 1 then (1, 1)
    else if c[a] == '(' && MatchOf(c, a) == |c| == b then (1, 0)
    else (0, 0)
  }

  lemma CoreAt(c: string, a: nat, b: nat)
    requires a < b <= |c|
    ensures var (i, j) := Peel(c, a, b); Core(c, a, b) == if i + j == 0 then (a, b) else Core(c, a + i, b - j)
  {
    hide MatchOf;
  }

  lemma CoreNothing(c: string, a: nat)
    requires a <= |c|
    ensures Core(c, a, a) == (a, a)
  {
  }

  lemma PeelMoved(c: string, off: nat, u: string, a: nat, b: nat)
    requires Part(c, off, u) && a < b <= |u| && Carried(c, off, u, a, b)
    ensures Peel(c, off + a, off + b) == Peel(u, a, b)
  {
    assert u[a] == '(' ==> CarriedAt(c, off, u, b, a);
    hide MatchOf, Part, Carried, IsBlank;
    CharMoved(c, off, u, a);
    CharMoved(c, off, u, b - 1);
  }

  lemma {:induction false} CoreMoved(c: string, off: nat, u: string, a: nat, b: nat)
    requires Part(c, off, u) && a <= b <= |u| && Carried(c, off, u, a, b)
    ensures var (x, y) := Core(u, a, b); Core(c, off + a, off + b) == (off + x, off + y)
    decreases b - a
  {
    hide *;
    if a == b {
      CoreNothing(u, a);
      CoreNothing(c, off + a);
    } else {
      PeelMoved(c, off, u, a, b);
      CoreAt(u, a, b);
      CoreAt(c, off + a, off + b);
      var i, j := Peel(u, a, b).0, Peel(u, a, b).1;
      if i + j > 0 {
        CarriedInside(c, off, u, a, b, a + i, b - j);
        CoreMoved(c, off, u, a + i, b - j);
      }
    }
  }

  lemma {:induction false} WordEndMoved(c: string, off: nat, u: string, k: nat, b: nat)
    requires Part(c, off, u) && k <= b <= |u|
    ensures WordEnd(c, off + k, off + b) == off + WordEnd(u, k, b)
    decreases b - k
  {
    if k < b && IsWord(u[k]) {
      WordEndMoved(c, off, u, k + 1, b);
    }
  }

  ghost function MovedRanges(rs: seq<Range>, off: nat): (r: seq<Range>)
    ensures |r| == |rs| && forall i :: 0 <= i < |rs| ==> r[i] == (off + rs[i].0, off + rs[i].1)
  {
    seq(|rs|, i requires 0 <= i < |rs| => (off + rs[i].0, off + rs[i].1))
  }

  lemma MovedOne(r: Range, off: nat)
    ensures MovedRanges([r], off) == [(off + r.0, off + r.1)]
  {
  }

  lemma MovedCons(x: nat, y: nat, rs: seq<Range>, off: nat, all: seq<Range>, moved: seq<Range>)
    requires all == [(x, y)] + rs && moved == [(off + x, off + y)] + MovedRanges(rs, off)
    ensures moved == MovedRanges(all, off)
  {
  }

  lemma {:induction false} BranchesMoved(c: string, off: nat, u: string, a: nat, b: nat, start: nat, k: nat)
    requires Part(c, off, u) && a <= start <= b <= |u| && start <= k && Carried(c, off, u, a, b)
    ensures Branches(c, off + a, off + b, off + start, off + k) == MovedRanges(Branches(u, a, b, start, k), off)
    decreases b - k, 1
  {
    hide *;
    BranchesAt(u, a, b, start, k);
    BranchesAt(c, off + a, off + b, off + start, off + k);
    if k >= b {
      MovedOne((start, b), off);
    } else {
      CharMoved(c, off, u, k);
      if u[k] == '(' {
        BehindMoved(c, off, u, a, b, k);
        BranchesMoved(c, off, u, a, b, start, Behind(u, k, b));
      } else if WordStart(u, a, k) {
        WordBranchesMoved(c, off, u, a, b, start, k);
      } else {
        WordMoved(c, off, u, a, k, b);
        BranchesMoved(c, off, u, a, b, start, k + 1);
      }
    }
  }

  lemma BehindMoved(c: string, off: nat, u: string, a: nat, b: nat, k: nat)
    requires off + |u| <= |c| && a <= k < b <= |u| && Carried(c, off, u, a, b) && u[k] == '('
    ensures Behind(c, off + k, off + b) == off + Behind(u, k, b)
  {
    hide MatchOf;
    assert CarriedAt(c, off, u, b, k);
  }

  lemma CharMoved(c: string, off: nat, u: string, k: nat)
    requires Part(c, off, u) && k < |u|
    ensures off + k < |c| && c[off + k] == u[k]
  {
    PartAt(c, off, u);
  }

  /** At a word, which may be an OR. */
  lemma {:induction false} WordBranchesMoved(c: string, off: nat, u: string, a: nat, b: nat, start: nat, k: nat)
    requires Part(c, off, u) && a <= start <= k < b <= |u| && Carried(c, off, u, a, b) && WordStart(u, a, k) && u[k] != '('
    ensures Branches(c, off + a, off + b, off + start, off + k) == MovedRanges(Branches(u, a, b, start, k), off)
    decreases b - k, 0
  {
    hide *;
    var e := WordEnd(u, k + 1, b);
    CharMoved(c, off, u, k);
    WordMoved(c, off, u, a, k, b);
    WordBranches(u, a, b, start, k, e);
    WordBranches(c, off + a, off + b, off + start, off + k, off + e);
    if IsOr(u, k, e) {
      BranchesMoved(c, off, u, a, b, e, e);
      MovedCons(start, k, Branches(u, a, b, e, e), off, Branches(u, a, b, start, k),
                Branches(c, off + a, off + b, off + start, off + k));
    } else {
      BranchesMoved(c, off, u, a, b, start, e);
    }
  }

  lemma WordBranches(c: string, a: nat, b: nat, start: nat, k: nat, e: nat)
    requires a <= start <= k < b <= |c| && c[k] != '(' && WordStart(c, a, k) && e == WordEnd(c, k + 1, b)
    ensures Branches(c, a, b, start, k)
         == if IsOr(c, k, e) then [(start, k)] + Branches(c, a, b, e, e) else Branches(c, a, b, start, e)
  {
    hide IsOr, WordStart, WordEnd;
  }

  lemma WordMoved(c: string, off: nat, u: string, a: nat, k: nat, b: nat)
    requires Part(c, off, u) && a <= k < b <= |u|
    ensures WordStart(c, off + a, off + k) == WordStart(u, a, k)
    ensures var e := WordEnd(u, k + 1, b);
            WordEnd(c, off + k + 1, off + b) == off + e && IsOr(c, off + k, off + e) == IsOr(u, k, e)
    ensures WordStart(u, a, k) ==> forall j :: k <= j < WordEnd(u, k + 1, b) ==> IsWord(u[j])
  {
    WordEndMoved(c, off, u, k + 1, b);
    hide WordEnd;
  }

  /** A range is judged alike in both texts. */
  lemma {:induction false} HollowCarried(c: string, off: nat, u: string, a: nat, b: nat, empty: string -> bool)
    requires Part(c, off, u) && a <= b <= |u| && Carried(c, off, u, a, b)
    ensures Hollow(c, off + a, off + b, empty) == Hollow(u, a, b, empty)
    decreases b - a
  {
    hide Core, Branches, Carried, Hollow, Part, MovedRanges;
    CoreMoved(c, off, u, a, b);
    HollowWhole(u, a, b, empty);
    HollowWhole(c, off + a, off + b, empty);
    var (x, y) := Core(u, a, b);
    if x < y {
      CarriedInside(c, off, u, a, b, x, y);
      BranchesMoved(c, off, u, x, y, x, x);
      BranchesFit(u, x, y, x, x);
      var rs := Branches(u, x, y, x, x);
      var moved := MovedRanges(rs, off);
      if |rs| == 1 {
        SliceMoved(c, off, u, x, y);
      } else {
        forall i | 0 <= i < |rs|
          ensures Hollow(c, moved[i].0, moved[i].1, empty) == Hollow(u, rs[i].0, rs[i].1, empty)
        {
          CarriedInside(c, off, u, a, b, rs[i].0, rs[i].1);
          HollowCarried(c, off, u, rs[i].0, rs[i].1, empty);
        }
        HollowSplit(u, a, b, empty);
        HollowSplit(c, off + a, off + b, empty);
        AnySame(c, moved, u, rs, empty);
      }
    }
  }

  /** A range of a text is judged as if the text stood alone, if its parentheses have their partners in the
      text, or the text is the end of the other one. */
  lemma HollowMoved(c: string, off: nat, u: string, a: nat, b: nat, empty: string -> bool)
    requires Part(c, off, u) && a <= b <= |u| && (Partnered(u, a, b) || off + |u| == |c|)
    ensures Hollow(c, off + a, off + b, empty) == Hollow(u, a, b, empty)
  {
    hide *;
    PartsCarried(c, off, u, a, b);
    HollowCarried(c, off, u, a, b, empty);
  }

  /** A range that is blank, or that has no OR. */
  lemma HollowWhole(c: string, a: nat, b: nat, empty: string -> bool)
    requires a <= b <= |c|
    ensures var (x, y) := Core(c, a, b);
            && (x == y ==> Hollow(c, a, b, empty))
            && (x < y && |Branches(c, x, y, x, x)| == 1 ==> Hollow(c, a, b, empty) == empty(c[x..y]))
  {
    hide Core, Branches;
  }

  lemma AnySame(c: string, moved: seq<Range>, u: string, rs: seq<Range>, empty: string -> bool)
    requires |moved| == |rs|
    requires forall i | 0 <= i < |rs| ::
               && rs[i].0 <= rs[i].1 <= |u| && moved[i].0 <= moved[i].1 <= |c|
               && Hollow(c, moved[i].0, moved[i].1, empty) == Hollow(u, rs[i].0, rs[i].1, empty)
    ensures Any(c, moved, empty) == Any(u, rs, empty)
  {
    hide Hollow;
    if Any(c, moved, empty) {
      var i :| 0 <= i < |moved| && moved[i].0 <= moved[i].1 <= |c| && Hollow(c, moved[i].0, moved[i].1, empty);
      assert Hollow(u, rs[i].0, rs[i].1, empty);
    }
    if Any(u, rs, empty) {
      var i :| 0 <= i < |rs| && rs[i].0 <= rs[i].1 <= |u| && Hollow(u, rs[i].0, rs[i].1, empty);
      assert Hollow(c, moved[i].0, moved[i].1, empty);
    }
  }

  // ----- parentheses and blanks -----

  ghost predicate IsBalanced(s: string) { Balanced(s, 0, |s|) }

  /** No parenthesis stays open; stray closing ones are allowed. */
  ghost predicate AllClosed(s: string) { Partnered(s, 0, |s|) }

  lemma BalancedIsClosed(s: string)
    requires IsBalanced(s)
    ensures AllClosed(s)
  {
    forall k | 0 <= k < |s| && s[k] == '('
      ensures MatchOf(s, k) < |s|
    {
      DepthVia(s, 0, k, |s|, 0);
      ClosedInside(s, k + 1, |s|, DepthTo(s, 0, k, 0).value + 1, 1);
    }
  }

  /** Parentheses around a condition mean nothing. */
  lemma HollowInParens(s: string, empty: string -> bool)
    requires IsBalanced(s)
    ensures HollowText("(" + s + ")", empty) == HollowText(s, empty)
  {
    var c := "(" + s + ")";
    assert Part(c, 1, s);
    MatchOfWrapped(s);
    assert Core(c, 0, |c|) == Core(c, 1, 1 + |s|);
    hide *;
    HollowCore(c, s, empty);
  }

  lemma HollowCore(c: string, s: string, empty: string -> bool)
    requires Part(c, 1, s) && IsBalanced(s) && Core(c, 0, |c|) == Core(c, 1, 1 + |s|)
    ensures HollowText(c, empty) == HollowText(s, empty)
  {
    hide Part, Hollow, Core, DepthTo;
    SameCore(c, 0, |c|, 1, 1 + |s|, empty);
    BalancedIsClosed(s);
    HollowMoved(c, 1, s, 0, |s|, empty);
  }

  lemma SameCore(c: string, a: nat, b: nat, a': nat, b': nat, empty: string -> bool)
    requires a <= b <= |c| && a' <= b' <= |c| && Core(c, a, b) == Core(c, a', b')
    ensures Hollow(c, a, b, empty) == Hollow(c, a', b', empty)
  {
    hide Core, Branches;
  }

  lemma MatchOfWrapped(s: string)
    requires IsBalanced(s)
    ensures MatchOf("(" + s + ")", 0) == |s| + 1
  {
    var c := "(" + s + ")";
    var end := |s| + 1;
    assert DepthTo(c, end, |c|, 1) == Some(0);
    assert MatchOf(c, 0) == CloseParen(c, 1, 1);
    hide DepthTo, CloseParen, MatchOf;
    DepthMoved(c, 1, s, 0, |s|, 1);
    DepthRaised(s, 0, |s|, 0, 1);
    DepthVia(c, 1, end, |c|, 1);
    ClosedInside(c, 1, |c|, 1, 1);
    ClosedAtEnd(c, s, CloseParen(c, 1, 1));
  }

  /** The depth inside balanced text never falls below where it began. */
  lemma ClosedAtEnd(c: string, s: string, m: nat)
    requires Part(c, 1, s) && IsBalanced(s) && 1 <= m <= |s| + 1 && CloseParen(c, 1, 1) == m
    requires DepthTo(c, 1, m, 1) == Some(1)
    ensures m == |s| + 1
  {
    if m <= |s| {
      NeverBelow(c, 1, m, 1, 1);
      DepthMoved(c, 1, s, 0, m - 1, 0);
      DepthVia(s, 0, m - 1, |s|, 0);
    }
  }

  lemma {:induction false} DepthMoved(c: string, off: nat, u: string, k: nat, b: nat, depth: nat)
    requires Part(c, off, u) && k <= b <= |u|
    ensures DepthTo(c, off + k, off + b, depth) == DepthTo(u, k, b, depth)
    decreases b - k
  {
    if k < b {
      DepthMoved(c, off, u, k + 1, b, depth + 1);
      DepthMoved(c, off, u, k + 1, b, depth);
      if depth > 0 {
        DepthMoved(c, off, u, k + 1, b, depth - 1);
      }
    }
  }

  /** Neither do blanks: before it whatever it is, and behind it if no parenthesis stays open, or if it
      ends with a blank already. */
  lemma HollowInBlanks(s: string, blank: char, empty: string -> bool)
    requires blank in BLANKS
    ensures HollowText([blank] + s, empty) == HollowText(s, empty)
    ensures AllClosed(s) || (s != [] && s[|s| - 1] in BLANKS) ==> HollowText(s + [blank], empty) == HollowText(s, empty)
  {
    BlankListed(blank);
    HollowBehindBlank([blank] + s, s, empty);
    if AllClosed(s) {
      HollowBeforeBlank(s + [blank], s, empty);
    } else if s != [] && s[|s| - 1] in BLANKS {
      BlankListed(s[|s| - 1]);
      HollowBeforeBlanks(s + [blank], s, empty);
    }
  }

  lemma HollowBehindBlank(c: string, s: string, empty: string -> bool)
    requires |c| == |s| + 1 && IsBlank(c[0]) && Part(c, 1, s)
    ensures HollowText(c, empty) == HollowText(s, empty)
  {
    hide Hollow, Part;
    HollowMoved(c, 1, s, 0, |s|, empty);
    HollowStartBlank(c, 0, |c|, empty);
  }

  lemma HollowBeforeBlank(c: string, s: string, empty: string -> bool)
    requires AllClosed(s) && |c| == |s| + 1 && IsBlank(c[|s|]) && Part(c, 0, s)
    ensures HollowText(c, empty) == HollowText(s, empty)
  {
    hide Hollow, Part;
    HollowMoved(c, 0, s, 0, |s|, empty);
    HollowEndBlank(c, 0, |s|, empty);
  }

  lemma CarriedBeforeBlank(c: string, s: string, n: nat)
    requires |s| == n + 1 && |c| == |s| + 1 && IsBlank(c[|s|]) && Part(c, 0, s)
    ensures Carried(c, 0, s, 0, n)
  {
    hide CloseParen, Part;
    forall k | 0 <= k < n && s[k] == '('
      ensures CarriedAt(c, 0, s, n, k)
    {
      CloseMoved(c, 0, s, k + 1, 1);
      OpenLonger(c, s, k + 1, 1);
    }
  }

  /** One blank at the end is as good as two. */
  lemma HollowBeforeBlanks(c: string, s: string, empty: string -> bool)
    requires s != [] && IsBlank(s[|s| - 1]) && |c| == |s| + 1 && IsBlank(c[|s|]) && Part(c, 0, s)
    ensures HollowText(c, empty) == HollowText(s, empty)
  {
    var n := |s| - 1;
    CharMoved(c, 0, s, n);
    hide *;
    HollowWithoutBlanks(c, s, n, empty);
    TwoBlanksLess(c, n, empty);
    HollowWholeText(s, empty);
    HollowEndBlank(s, 0, n, empty);
  }

  lemma TwoBlanksLess(c: string, n: nat, empty: string -> bool)
    requires |c| == n + 2 && IsBlank(c[n]) && IsBlank(c[n + 1])
    ensures HollowText(c, empty) == Hollow(c, 0, n, empty)
  {
    hide *;
    HollowWholeText(c, empty);
    HollowEndBlank(c, 0, n + 1, empty);
    HollowEndBlank(c, 0, n, empty);
  }

  lemma HollowWithoutBlanks(c: string, s: string, n: nat, empty: string -> bool)
    requires |s| == n + 1 && |c| == |s| + 1 && IsBlank(c[|s|]) && Part(c, 0, s)
    ensures Hollow(c, 0, n, empty) == Hollow(s, 0, n, empty)
  {
    hide *;
    CarriedBeforeBlank(c, s, n);
    HollowCarried(c, 0, s, 0, n, empty);
  }

  /** What is open stays open with a blank more. */
  lemma {:induction false} OpenLonger(c: string, s: string, k: nat, depth: nat)
    requires |c| == |s| + 1 && IsBlank(c[|s|]) && Part(c, 0, s) && k <= |s| && depth > 0
    ensures CloseParen(s, k, depth) == |s| ==> CloseParen(c, k, depth) == |c|
    decreases |s| - k
  {
    if k == |s| {
      assert CloseParen(c, k + 1, depth) == |c|;
    } else {
      CharMoved(c, 0, s, k);
      if s[k] == '(' {
        OpenLonger(c, s, k + 1, depth + 1);
      } else if s[k] == ')' {
        if depth > 1 {
          OpenLonger(c, s, k + 1, depth - 1);
        }
      } else {
        OpenLonger(c, s, k + 1, depth);
      }
    }
  }

  lemma {:induction false} EndBlank(c: string, a: nat, b: nat)
    requires a <= b < |c| && IsBlank(c[b])
    ensures Core(c, a, b + 1) == Core(c, a, b) || (Core(c, a, b + 1).0 == Core(c, a, b + 1).1 && Core(c, a, b).0 == Core(c, a, b).1)
    decreases b - a
  {
    if a < b && IsBlank(c[a]) {
      EndBlank(c, a + 1, b);
    }
  }

  // ----- OR -----

  lemma HollowStartBlank(c: string, a: nat, b: nat, empty: string -> bool)
    requires a < b <= |c| && IsBlank(c[a])
    ensures Hollow(c, a, b, empty) == Hollow(c, a + 1, b, empty)
  {
  }

  lemma HollowEndBlank(c: string, a: nat, b: nat, empty: string -> bool)
    requires a <= b < |c| && IsBlank(c[b])
    ensures Hollow(c, a, b + 1, empty) == Hollow(c, a, b, empty)
  {
    EndBlank(c, a, b);
  }

  /** A blank at the start of the current branch does not matter, nor where the range began before it. */
  lemma {:induction false} StartPadded(c: string, a: nat, b: nat, s: nat, k: nat, empty: string -> bool)
    requires a <= s < k && s < b <= |c| && IsBlank(c[s])
    ensures Any(c, Branches(c, a, b, s, k), empty) == Any(c, Branches(c, s + 1, b, s + 1, k), empty)
    decreases b - k
  {
    hide Any, Hollow, Branches, WordEnd, IsOr;
    BranchesAt(c, a, b, s, k);
    BranchesAt(c, s + 1, b, s + 1, k);
    if k >= b {
      HollowStartBlank(c, s, b, empty);
      AnyOne(c, (s, b), empty);
      AnyOne(c, (s + 1, b), empty);
    } else if c[k] == '(' {
      StartPadded(c, a, b, s, Behind(c, k, b), empty);
    } else if WordStart(c, a, k) {
      var e := WordEnd(c, k + 1, b);
      if IsOr(c, k, e) {
        HollowStartBlank(c, s, k, empty);
        SameRest(c, a, s + 1, b, e, e);
        AnyOne(c, (s, k), empty);
        AnyOne(c, (s + 1, k), empty);
        AnyAppend(c, [(s, k)], Branches(c, a, b, e, e), empty);
        AnyAppend(c, [(s + 1, k)], Branches(c, s + 1, b, e, e), empty);
      } else {
        StartPadded(c, a, b, s, e, empty);
      }
    } else {
      StartPadded(c, a, b, s, k + 1, empty);
    }
  }

  /** Past its first position the scan does not look at where the range began. */
  lemma {:induction false} SameRest(c: string, a: nat, a': nat, b: nat, start: nat, k: nat)
    requires a < start <= b <= |c| && a' < start <= k
    ensures Branches(c, a, b, start, k) == Branches(c, a', b, start, k)
    decreases b - k
  {
    if k < b {
      if c[k] == '(' {
        SameRest(c, a, a', b, start, Behind(c, k, b));
      } else if WordStart(c, a, k) {
        var e := WordEnd(c, k + 1, b);
        SameRest(c, a, a', b, if IsOr(c, k, e) then e else start, e);
      } else {
        SameRest(c, a, a', b, start, k + 1);
      }
    }
  }

  lemma {:induction false} WordEndEarlier(c: string, k: nat, b: nat)
    requires k <= b < |c| && !IsWord(c[b])
    ensures WordEnd(c, k, b + 1) == WordEnd(c, k, b)
    decreases b - k
  {
    if k < b && IsWord(c[k]) {
      WordEndEarlier(c, k + 1, b);
    }
  }

  /** Nor does a blank at the end of the range. */
  lemma {:induction false} EndPadded(c: string, a: nat, b: nat, s: nat, k: nat, empty: string -> bool)
    requires a <= s <= b < |c| && s <= k && IsBlank(c[b])
    ensures Any(c, Branches(c, a, b + 1, s, k), empty) == Any(c, Branches(c, a, b, s, k), empty)
    decreases b - k
  {
    hide Any, Hollow, WordEnd, MatchOf, Branches, IsOr;
    BranchesAt(c, a, b, s, k);
    BranchesAt(c, a, b + 1, s, k);
    if k >= b {
      assert k == b ==> Branches(c, a, b + 1, s, k + 1) == [(s, b + 1)] by { BranchesAt(c, a, b + 1, s, k + 1); }
      HollowEndBlank(c, s, b, empty);
      AnyOne(c, (s, b), empty);
      AnyOne(c, (s, b + 1), empty);
    } else if c[k] == '(' {
      EndPadded(c, a, b, s, Behind(c, k, b), empty);
      if MatchOf(c, k) == |c| {
        BranchesAt(c, a, b + 1, s, b);
        BranchesAt(c, a, b + 1, s, b + 1);
      }
    } else if WordStart(c, a, k) {
      var e := WordEnd(c, k + 1, b);
      WordEndEarlier(c, k + 1, b);
      if IsOr(c, k, e) {
        EndPadded(c, a, b, e, e, empty);
        AnyAppend(c, [(s, k)], Branches(c, a, b, e, e), empty);
        AnyAppend(c, [(s, k)], Branches(c, a, b + 1, e, e), empty);
      } else {
        EndPadded(c, a, b, s, e, empty);
      }
    } else {
      EndPadded(c, a, b, s, k + 1, empty);
    }
  }

  lemma {:induction false} OneBranch(c: string, a: nat, b: nat, s: nat, k: nat)
    requires a <= s <= b <= |c| && s <= k
    ensures |Branches(c, a, b, s, k)| == 1 ==> Branches(c, a, b, s, k) == [(s, b)]
    decreases b - k
  {
    if k < b {
      if c[k] == '(' {
        OneBranch(c, a, b, s, Behind(c, k, b));
      } else if WordStart(c, a, k) {
        var e := WordEnd(c, k + 1, b);
        OneBranch(c, a, b, if IsOr(c, k, e) then e else s, e);
      } else {
        OneBranch(c, a, b, s, k + 1);
      }
    }
  }

  /** The scan steps over what opens the range. */
  lemma FirstBranches(c: string, a: nat, b: nat)
    requires a < b <= |c|
    ensures IsBlank(c[a]) ==> Branches(c, a, b, a, a) == Branches(c, a, b, a, a + 1)
    ensures c[a] == '(' && MatchOf(c, a) + 1 >= b ==> Branches(c, a, b, a, a) == [(a, b)]
  {
    hide MatchOf, WordEnd, IsOr;
    BranchesAt(c, a, b, a, a);
    if c[a] == '(' {
      BranchesAt(c, a, b, a, Behind(c, a, b));
    }
  }

  lemma CoreStays(c: string, a: nat, b: nat)
    requires a < b <= |c| && !IsBlank(c[a]) && !IsBlank(c[b - 1]) && (c[a] == '(' ==> MatchOf(c, a) + 1 < b)
    ensures Core(c, a, b) == (a, b)
  {
    hide MatchOf;
  }

  /** A range is hollow when one of its branches is, blanks and parentheses around it or not. */
  lemma {:induction false} HollowIsAny(c: string, a: nat, b: nat, empty: string -> bool)
    requires a <= b <= |c|
    ensures Hollow(c, a, b, empty) == Any(c, Branches(c, a, b, a, a), empty)
    decreases b - a
  {
    hide *;
    var rs := Branches(c, a, b, a, a);
    OneBranch(c, a, b, a, a);
    AnyOne(c, (a, b), empty);
    BranchesAt(c, a, b, a, a);
    if |rs| != 1 {
      FirstBranches(c, a, b);
      if IsBlank(c[a]) {
        HollowIsAny(c, a + 1, b, empty);
        HollowStartBlank(c, a, b, empty);
        StartPadded(c, a, b, a, a + 1, empty);
      } else if IsBlank(c[b - 1]) {
        HollowIsAny(c, a, b - 1, empty);
        HollowEndBlank(c, a, b - 1, empty);
        EndPadded(c, a, b - 1, a, a, empty);
      } else {
        CoreStays(c, a, b);
        HollowSplit(c, a, b, empty);
      }
    }
  }

  predicate IsOrWord(s: string) {
    |s| == 4 && s[0] in BLANKS && s[3] in BLANKS && Spells(s[1..3], "or", "OR")
  }

  /** Every parenthesis that opens before p is closed before p. */
  ghost predicate ClosedBefore(c: string, p: nat)
    requires p <= |c|
  {
    forall k :: 0 <= k < p && c[k] == '(' ==> MatchOf(c, k) < p
  }

  lemma {:induction false} OrSplits(c: string, p: nat, s: nat, k: nat, empty: string -> bool)
    requires s <= k <= p && p + 4 <= |c| && IsOrWord(c[p..p + 4]) && ClosedBefore(c, p)
    ensures Any(c, Branches(c, 0, |c|, s, k), empty)
       <==> Any(c, Branches(c, 0, p, s, k), empty) || Any(c, Branches(c, p + 4, |c|, p + 4, p + 4), empty)
    decreases p - k
  {
    hide Any, Hollow, WordEnd, MatchOf;
    if k == p {
      OrHere(c, p, s, empty);
    } else if c[k] == '(' {
      OrSplits(c, p, s, Behind(c, k, p), empty);
    } else if WordStart(c, 0, k) {
      var e := WordEnd(c, k + 1, p);
      assert c[p] == c[p..p + 4][0];
      BlankListed(c[p]);
      WordEndBefore(c, k + 1, p, |c|);
      if IsOr(c, k, e) {
        OrSplits(c, p, e, e, empty);
        AnyAppend(c, [(s, k)], Branches(c, 0, p, e, e), empty);
        AnyAppend(c, [(s, k)], Branches(c, 0, |c|, e, e), empty);
      } else {
        OrSplits(c, p, s, e, empty);
      }
    } else {
      OrSplits(c, p, s, k + 1, empty);
    }
  }

  /** The scan at the blank in front of the OR. */
  lemma OrHere(c: string, p: nat, s: nat, empty: string -> bool)
    requires s <= p && p + 4 <= |c| && IsOrWord(c[p..p + 4])
    ensures Any(c, Branches(c, 0, |c|, s, p), empty)
       <==> Any(c, [(s, p)], empty) || Any(c, Branches(c, p + 4, |c|, p + 4, p + 4), empty)
  {
    OrWordAt(c, p);
    OrBranches(c, p, s);
    BlanksAround(c, p, s, empty);
  }

  lemma BlanksAround(c: string, p: nat, s: nat, empty: string -> bool)
    requires s <= p && p + 4 <= |c| && IsBlank(c[p]) && IsBlank(c[p + 3])
    ensures Any(c, [(s, p + 1)] + Branches(c, 0, |c|, p + 3, p + 4), empty)
       <==> Any(c, [(s, p)], empty) || Any(c, Branches(c, p + 4, |c|, p + 4, p + 4), empty)
  {
    hide *;
    AnyAppend(c, [(s, p + 1)], Branches(c, 0, |c|, p + 3, p + 4), empty);
    HollowEndBlank(c, s, p, empty);
    AnyOne(c, (s, p), empty);
    AnyOne(c, (s, p + 1), empty);
    StartPadded(c, 0, |c|, p + 3, p + 4, empty);
  }

  lemma OrWordAt(c: string, p: nat)
    requires p + 4 <= |c| && IsOrWord(c[p..p + 4])
    ensures IsBlank(c[p]) && IsBlank(c[p + 3]) && WordStart(c, 0, p + 1)
    ensures WordEnd(c, p + 2, |c|) == p + 3 && IsOr(c, p + 1, p + 3)
  {
    var sep := c[p..p + 4];
    assert c[p] == sep[0] && c[p + 1] == sep[1] && c[p + 2] == sep[2] && c[p + 3] == sep[3];
    assert sep[1..3][0] == sep[1] && sep[1..3][1] == sep[2];
    BlankListed(sep[0]);
    BlankListed(sep[3]);
  }

  lemma OrBranches(c: string, p: nat, s: nat)
    requires s <= p && p + 4 <= |c| && IsOrWord(c[p..p + 4])
    ensures Branches(c, 0, |c|, s, p) == [(s, p + 1)] + Branches(c, 0, |c|, p + 3, p + 4)
  {
    OrWordAt(c, p);
    hide WordEnd;
    assert Branches(c, 0, |c|, s, p) == Branches(c, 0, |c|, s, p + 1);
    assert Branches(c, 0, |c|, s, p + 1) == [(s, p + 1)] + Branches(c, 0, |c|, p + 3, p + 3);
    assert Branches(c, 0, |c|, p + 3, p + 3) == Branches(c, 0, |c|, p + 3, p + 4);
  }

  lemma {:induction false} WordEndBefore(c: string, k: nat, b: nat, n: nat)
    requires k <= b < n <= |c| && !IsWord(c[b])
    ensures WordEnd(c, k, n) == WordEnd(c, k, b)
    decreases b - k
  {
    if k < b && IsWord(c[k]) {
      WordEndBefore(c, k + 1, b, n);
    }
  }

  /** A condition with OR is hollow exactly when one of its sides is, if the left one leaves no parenthesis
      open. */
  lemma HollowOr(left: string, or: string, right: string, empty: string -> bool)
    requires AllClosed(left) && IsOrWord(or)
    ensures HollowText(left + or + right, empty) == (HollowText(left, empty) || HollowText(right, empty))
  {
    var c, p := left + or + right, |left|;
    assert c[p..p + 4] == or;
    assert Part(c, 0, left) && Part(c, p + 4, right);
    hide *;
    HollowOrAt(c, p, left, right, empty);
  }

  lemma HollowOrAt(c: string, p: nat, left: string, right: string, empty: string -> bool)
    requires Part(c, 0, left) && Part(c, p + 4, right) && p == |left| && |c| == p + 4 + |right|
    requires IsOrWord(c[p..p + 4]) && AllClosed(left)
    ensures HollowText(c, empty) == (HollowText(left, empty) || HollowText(right, empty))
  {
    hide *;
    ClosedThere(c, p, left);
    HollowAlone(c, 0, left, p, empty);
    HollowAlone(c, p + 4, right, |c|, empty);
    HollowIsAny(c, 0, p, empty);
    HollowIsAny(c, p + 4, |c|, empty);
    OrSplits(c, p, 0, 0, empty);
    HollowIsAny(c, 0, |c|, empty);
    HollowWholeText(c, empty);
  }

  lemma HollowWholeText(c: string, empty: string -> bool)
    ensures HollowText(c, empty) == Hollow(c, 0, |c|, empty)
  {
    hide Hollow;
  }

  lemma HollowAlone(c: string, off: nat, s: string, end: nat, empty: string -> bool)
    requires Part(c, off, s) && end == off + |s| && (AllClosed(s) || end == |c|)
    ensures end <= |c| && Hollow(c, off, end, empty) == HollowText(s, empty)
  {
    hide Hollow, Part, Partnered;
    HollowMoved(c, off, s, 0, |s|, empty);
  }

  lemma ClosedThere(c: string, p: nat, left: string)
    requires Part(c, 0, left) && p == |left| && AllClosed(left)
    ensures p <= |c| && ClosedBefore(c, p)
  {
    hide MatchOf, Part;
    PartsCarried(c, 0, left, 0, p);
    forall k | 0 <= k < p && c[k] == '('
      ensures MatchOf(c, k) < p
    {
      CharMoved(c, 0, left, k);
      assert CarriedAt(c, 0, left, p, k);
    }
  }

  // ----- conditions without OR -----

  lemma BlankListed(c: char)
    ensures c in BLANKS <==> IsBlank(c)
  {
    if '\U{0009}' <= c <= '\U{000D}' {
      assert BLANKS[c as int - 8] == c;
    }
  }

  /** The word OR does not stand in the text as a word of its own. */
  ghost predicate NoOr(x: string) {
    forall k, e :: 0 <= k && e == k + 2 <= |x| && Spells(x[k..e], "or", "OR") ==>
      (k > 0 && OfWord(x[k - 1])) || (e < |x| && OfWord(x[e]))
  }

  lemma WordListed(c: char)
    ensures OfWord(c) <==> IsWord(c)
  {
    AlphabetAt(c);
  }

  /** At the start of a word there is no OR. */
  lemma NotOr(c: string, p: nat, x: string, k: nat, q: nat)
    requires NoOr(x) && q == p + |x| && Part(c, p, x) && p <= k < q && WordStart(c, p, k)
    ensures !IsOr(c, k, WordEnd(c, k + 1, q))
  {
    if IsOr(c, k, WordEnd(c, k + 1, q)) {
      var i: nat := k - p;
      hide NoOr, OfWord, IsWord, IsLetter, Part;
      CharMoved(c, p, x, i);
      CharMoved(c, p, x, i + 1);
      OrSpelled(x, i);
      if i > 0 {
        CharMoved(c, p, x, i - 1);
        WordListed(x[i - 1]);
      }
      if i + 2 < |x| {
        CharMoved(c, p, x, i + 2);
        WordListed(x[i + 2]);
      }
      AloneIsOr(x, i);
    }
  }

  lemma OrSpelled(x: string, i: nat)
    requires i + 2 <= |x| && (x[i] == 'o' || x[i] == 'O') && (x[i + 1] == 'r' || x[i + 1] == 'R')
    ensures Spells(x[i..i + 2], "or", "OR")
  {
    var w := x[i..i + 2];
    assert w[0] == x[i] && w[1] == x[i + 1];
  }

  lemma AloneIsOr(x: string, i: nat)
    requires NoOr(x) && i + 2 <= |x| && Spells(x[i..i + 2], "or", "OR")
    ensures (i > 0 && OfWord(x[i - 1])) || (i + 2 < |x| && OfWord(x[i + 2]))
  {
    hide OfWord, Spells;
  }

  lemma {:induction false} NoOrOneBranch(c: string, p: nat, x: string, q: nat, k: nat)
    requires NoOr(x) && '(' !in x && q == p + |x| && Part(c, p, x) && p <= k && q <= |c|
    ensures Branches(c, p, q, p, k) == [(p, q)]
    decreases q - k
  {
    hide NoOr, IsOr, WordEnd, MatchOf, Part;
    BranchesAt(c, p, q, p, k);
    if k < q {
      CharMoved(c, p, x, k - p);
      assert x[k - p] in x;
      if WordStart(c, p, k) {
        NotOr(c, p, x, k, q);
        NoOrOneBranch(c, p, x, q, WordEnd(c, k + 1, q));
      } else {
        NoOrOneBranch(c, p, x, q, k + 1);
      }
    }
  }

  lemma {:induction false} CoreBetweenBlanks(c: string, a: nat, b: nat, p: nat, q: nat)
    requires a <= p <= q <= b <= |c| && (forall k :: a <= k < p ==> IsBlank(c[k])) && forall k :: q <= k < b ==> IsBlank(c[k])
    requires p < q ==> !IsBlank(c[p]) && !IsBlank(c[q - 1]) && c[p] != '('
    ensures p < q ==> Core(c, a, b) == (p, q)
    ensures p == q ==> Core(c, a, b).0 == Core(c, a, b).1
    decreases b - a
  {
    if a < p {
      CoreBetweenBlanks(c, a + 1, b, p, q);
    } else if q < b {
      if p < q {
        CoreBetweenBlanks(c, a, b - 1, p, q);
      } else {
        CoreBetweenBlanks(c, a + 1, b, p + 1, q + 1);
      }
    }
  }

  /** A condition without parentheses and without OR says nothing exactly when it is blank or its text
      between blanks is empty. */
  lemma HollowPlain(g: string, x: string, h: string, empty: string -> bool)
    requires (forall k :: 0 <= k < |g| ==> g[k] in BLANKS) && forall k :: 0 <= k < |h| ==> h[k] in BLANKS
    requires '(' !in x && NoOr(x) && (x != "" ==> x[0] !in BLANKS && x[|x| - 1] !in BLANKS)
    ensures HollowText(g + x + h, empty) <==> x == "" || empty(x)
  {
    var c, p, q := g + x + h, |g|, |g| + |x|;
    assert Part(c, p, x) && c[p..q] == x;
    forall k | 0 <= k < p || q <= k < |c|
      ensures IsBlank(c[k])
    {
      BlankListed(c[k]);
      assert c[k] == if k < p then g[k] else h[k - q];
    }
    if x != "" {
      BlankListed(x[0]);
      BlankListed(x[|x| - 1]);
      assert c[p] == x[0] && c[q - 1] == x[|x| - 1] && x[0] in x;
    }
    hide BLANKS, IsBlank, Part;
    CoreBetweenBlanks(c, 0, |c|, p, q);
    NoOrOneBranch(c, p, x, q, p);
    hide *;
    HollowWhole(c, 0, |c|, empty);
    HollowWholeText(c, empty);
  }

  /** With an open parenthesis the blank law fails: an open end is taken off only at the very end of the text. */
  lemma OpenEndSeesBlank()
    ensures var empty := (s: string) => s == "1";
            HollowText("(1 or x", empty) && !HollowText("(1 or x ", empty)
  {
    var empty := (s: string) => s == "1";
    var open, padded := "(1 or x", "(1 or x ";
    assert CloseParen(open, 4, 1) == 7 && CloseParen(open, 1, 1) == 7;
    assert Core(open, 0, 7) == Core(open, 1, 7) == (1, 7);
    assert WordEnd(open, 4, 7) == 5;
    assert Branches(open, 1, 7, 1, 3) == [(1, 3)] + Branches(open, 1, 7, 5, 5);
    assert Branches(open, 1, 7, 1, 1) == Branches(open, 1, 7, 1, 2) == Branches(open, 1, 7, 1, 3);
    assert Core(open, 1, 3) == (1, 2) && Branches(open, 1, 2, 1, 1) == [(1, 2)];
    assert open[1..2] == "1";
    assert Hollow(open, 1, 3, empty);
    assert Branches(open, 1, 7, 1, 1)[0] == (1, 3);
    assert CloseParen(padded, 4, 1) == 8 && CloseParen(padded, 1, 1) == 8;
    assert Core(padded, 0, 8) == Core(padded, 0, 7) == (0, 7);
    assert Branches(padded, 0, 7, 0, 0) == [(0, 7)];
    assert padded[0..7] == open;
  }
}
