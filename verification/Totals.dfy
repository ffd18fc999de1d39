/** How often each name occurs, the most frequent first. */
module Totals {

  /** Names are compared character by character. */
  predicate Less(a: string, b: string) {
    b != [] && (a == [] || a[0] < b[0] || (a[0] == b[0] && Less(a[1..], b[1..])))
  }

  lemma {:induction false} LessTotal(a: string, b: string)
    ensures Less(a, b) || a == b || Less(b, a)
  {
    if a != [] && b != [] {
      LessTotal(a[1..], b[1..]);
      assert a == [a[0]] + a[1..] && b == [b[0]] + b[1..];
    }
  }

  lemma {:induction false} LessTransitive(a: string, b: string, c: string)
    requires Less(a, b) && Less(b, c)
    ensures Less(a, c)
  {
    if a != [] && a[0] == b[0] == c[0] {
      LessTransitive(a[1..], b[1..], c[1..]);
    }
  }

  /** A name with its number of occurrences. */
  type Total = (string, nat)

  /** More occurrences first, and names in order among equals. */
  predicate Before(a: Total, b: Total) {
    a.1 > b.1 || (a.1 == b.1 && Less(a.0, b.0))
  }

  lemma BeforeTotal(a: Total, b: Total)
    ensures Before(a, b) || a == b || Before(b, a)
  {
    LessTotal(a.0, b.0);
  }

  lemma BeforeTransitive(a: Total, b: Total, c: Total)
    requires Before(a, b) && Before(b, c)
    ensures Before(a, c)
  {
    if a.1 == b.1 == c.1 {
      LessTransitive(a.0, b.0, c.0);
    }
  }

  ghost predicate Sorted(ts: seq<Total>) {
    forall j, k :: 0 <= j < k < |ts| ==> Before(ts[j], ts[k])
  }

  function Occurrences(names: seq<string>, name: string): nat {
    if names == [] then 0 else (if names[0] == name then 1 else 0) + Occurrences(names[1..], name)
  }

  lemma {:induction false} OccursAtAll(names: seq<string>, name: string)
    ensures Occurrences(names, name) > 0 <==> name in names
  {
    if names != [] {
      OccursAtAll(names[1..], name);
      assert names == [names[0]] + names[1..];
    }
  }

  /** Every name that occurs is listed once with its number, in order. */
  ghost predicate AreTotals(ts: seq<Total>, names: seq<string>) {
    Sorted(ts) && forall x: Total :: x in ts <==> x.0 in names && x.1 == Occurrences(names, x.0)
  }

  /** There is just one such list. */
  lemma {:induction false} TotalsUnique(a: seq<Total>, b: seq<Total>)
    requires Sorted(a) && Sorted(b) && forall x: Total :: x in a <==> x in b
    ensures a == b
    decreases |a|
  {
    assert a != [] ==> a[0] in b;
    assert b != [] ==> b[0] in a;
    if a != [] {
      FirstSame(a, b);
      var c, p, q := a[0], a[1..], b[1..];
      assert a == [c] + p && b == [c] + q;
      forall x: Total
        ensures x in p <==> x in q
      {
        RestMember(a, x);
        RestMember(b, x);
      }
      TotalsUnique(p, q);
    }
  }

  lemma {:induction false} LessIrreflexive(a: string)
    ensures !Less(a, a)
  {
    if a != [] {
      LessIrreflexive(a[1..]);
    }
  }

  lemma FirstSame(a: seq<Total>, b: seq<Total>)
    requires Sorted(a) && Sorted(b) && a != [] && b != [] && a[0] in b && b[0] in a
    ensures a[0] == b[0]
  {
    var j :| 0 <= j < |b| && b[j] == a[0];
    var k :| 0 <= k < |a| && a[k] == b[0];
    if j > 0 && k > 0 {
      assert Before(b[0], b[j]) && Before(a[0], a[k]);
      BeforeTransitive(a[0], b[0], a[0]);
      LessIrreflexive(a[0].0);
    }
  }

  lemma RestMember(a: seq<Total>, x: Total)
    requires Sorted(a) && a != []
    ensures x in a[1..] <==> x in a && x != a[0]
  {
    LessIrreflexive(x.0);
    assert a == [a[0]] + a[1..];
    if x in a[1..] {
      var k :| 0 <= k < |a[1..]| && a[1..][k] == x;
      assert a[k + 1] == x && Before(a[0], a[k + 1]);
    }
  }

  /** The total at its place in a sorted list. */
  function Inserted(x: Total, ts: seq<Total>): seq<Total> {
    if ts == [] || Before(x, ts[0]) then [x] + ts else [ts[0]] + Inserted(x, ts[1..])
  }

  lemma {:induction false} InsertedMember(x: Total, ts: seq<Total>, y: Total)
    ensures y in Inserted(x, ts) <==> y == x || y in ts
  {
    if ts != [] && !Before(x, ts[0]) {
      InsertedMember(x, ts[1..], y);
      assert ts == [ts[0]] + ts[1..];
    }
  }

  lemma {:induction false} InsertedSorted(x: Total, ts: seq<Total>)
    requires Sorted(ts) && x !in ts
    ensures Sorted(Inserted(x, ts))
  {
    if ts == [] {
    } else if Before(x, ts[0]) {
      SortedFront(x, ts);
    } else {
      BeforeTotal(x, ts[0]);
      assert ts[0] in ts && Before(ts[0], x) && forall y | y in ts[1..] :: y in ts;
      InsertedSorted(x, ts[1..]);
      var rest := Inserted(x, ts[1..]);
      forall k | 0 <= k < |rest|
        ensures Before(ts[0], rest[k])
      {
        InsertedMember(x, ts[1..], rest[k]);
        if rest[k] != x {
          var j :| 0 <= j < |ts[1..]| && ts[1..][j] == rest[k];
          assert ts[j + 1] == rest[k];
        }
      }
      SortedBehind(ts[0], rest);
    }
  }

  lemma SortedBehind(x: Total, ts: seq<Total>)
    requires Sorted(ts) && forall k | 0 <= k < |ts| :: Before(x, ts[k])
    ensures Sorted([x] + ts)
  {
    var all := [x] + ts;
    forall j, k | 0 <= j < k < |all|
      ensures Before(all[j], all[k])
    {
      assert all[k] == ts[k - 1] && (j > 0 ==> all[j] == ts[j - 1]);
    }
  }

  lemma SortedFront(x: Total, ts: seq<Total>)
    requires Sorted(ts) && ts != [] && Before(x, ts[0])
    ensures Sorted([x] + ts)
  {
    forall k | 0 <= k < |ts|
      ensures Before(x, ts[k])
    {
      if k > 0 {
        BeforeTransitive(x, ts[0], ts[k]);
      }
    }
    SortedBehind(x, ts);
  }

  method Counted(names: seq<string>) returns (counts: map<string, nat>)
    ensures forall n :: n in counts <==> n in names
    ensures forall n | n in counts :: counts[n] == Occurrences(names, n)
  {
    counts := map[];
    for i := 0 to |names|
      invariant forall n :: n in counts <==> n in names[..i]
      invariant forall n ::
        (if n in counts then counts[n] else 0) + Occurrences(names[i..], n) == Occurrences(names, n)
    {
      assert names[i..][0] == names[i] && names[i..][1..] == names[i + 1..];
      assert names[..i + 1] == names[..i] + [names[i]];
      var n := names[i];
      counts := counts[n := (if n in counts then counts[n] else 0) + 1];
    }
    assert names[..|names|] == names;
  }

  /** Counts the names and sorts the counts. */
  method Tally(names: seq<string>) returns (ts: seq<Total>)
    ensures AreTotals(ts, names)
  {
    var counts := Counted(names);
    hide Occurrences, Inserted, Sorted;
    ts := [];
    assert Sorted(ts) by { NothingSorted(); }
    var left := counts.Keys;
    while left != {}
      invariant left <= counts.Keys && Sorted(ts)
      invariant forall x: Total :: x in ts <==> x.0 in counts && x.0 !in left && x.1 == counts[x.0]
      decreases left
    {
      var n :| n in left;
      left := left - {n};
      ghost var before := ts;
      InsertedSorted((n, counts[n]), ts);
      ts := Inserted((n, counts[n]), ts);
      forall x: Total
        ensures x in ts <==> x.0 in counts && x.0 !in left && x.1 == counts[x.0]
      {
        InsertedMember((n, counts[n]), before, x);
      }
    }
  }

  lemma NothingSorted()
    ensures Sorted([])
  {
  }
}
