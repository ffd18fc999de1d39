/** Finding columns that migrations add and drop again: the order of the sources,
    the events of each column and the pairs that are reported. */
module ChurnOrder {
  import opened Wrappers

  // ----- the order of the sources -----

  /** A line of the migration script: an SQL file, or a Python runner with the SQL files it names. */
  datatype Registration =
    | Sql(path: string)
    | Runner(path: string, files: seq<string>)

  datatype Source = Source(path: string, isSql: bool, order: real)

  /** The sources of the registrations from the k-th on; the k-th has order k + 1, the files of a runner
      follow it in thousandths. */
  function Sources(regs: seq<Registration>, k: nat): seq<Source>
    requires k <= |regs|
    decreases |regs| - k
  {
    if k == |regs| then [] else SourcesOf(regs[k], k + 1) + Sources(regs, k + 1)
  }

  function SourcesOf(reg: Registration, order: nat): (r: seq<Source>)
    ensures |r| == 1 + Files(reg)
    ensures forall i :: 0 <= i < |r| ==> r[i].order == order as real + i as real / 1000.0
  {
    match reg
    case Sql(path) => [Source(path, true, order as real)]
    case Runner(path, files) =>
      [Source(path, false, order as real)]
      + seq(|files|, i requires 0 <= i < |files| => Source(files[i], true, order as real + (i + 1) as real / 1000.0))
  }

  function Files(reg: Registration): nat {
    if reg.Runner? then |reg.files| else 0
  }

  method ExpandSources(regs: seq<Registration>) returns (sources: seq<Source>)
    ensures sources == Sources(regs, 0)
  {
    hide SourcesOf;
    sources := [];
    for k := 0 to |regs|
      invariant sources + Sources(regs, k) == Sources(regs, 0)
    {
      var more := ExpandOne(regs[k], k + 1);
      assert sources + (more + Sources(regs, k + 1)) == sources + more + Sources(regs, k + 1);
      sources := sources + more;
    }
  }

  method ExpandOne(reg: Registration, order: nat) returns (sources: seq<Source>)
    ensures sources == SourcesOf(reg, order)
  {
    sources := [Source(reg.path, reg.Sql?, order as real)];
    if reg.Runner? {
      for i := 0 to |reg.files|
        invariant sources == SourcesOf(reg, order)[..i + 1]
      {
        assert SourcesOf(reg, order)[i + 1] == Source(reg.files[i], true, order as real + (i + 1) as real / 1000.0);
        sources := sources + [Source(reg.files[i], true, order as real + (i + 1) as real / 1000.0)];
      }
    }
  }

  ghost predicate InOrder(sources: seq<Source>) {
    forall i, j :: 0 <= i < j < |sources| ==> sources[i].order < sources[j].order
  }

  lemma SourcesFrom(regs: seq<Registration>, k: nat)
    requires k < |regs|
    ensures Sources(regs, k) != [] && Sources(regs, k)[0].order == (k + 1) as real
  {
  }

  lemma NoSources(regs: seq<Registration>)
    ensures Sources(regs, |regs|) == []
  {
  }

  lemma {:induction false} SourcesNotBefore(regs: seq<Registration>, k: nat)
    requires k <= |regs|
    ensures forall i :: 0 <= i < |Sources(regs, k)| ==> Sources(regs, k)[i].order >= (k + 1) as real
    decreases |regs| - k
  {
    if k < |regs| {
      SourcesNotBefore(regs, k + 1);
      var first, rest := SourcesOf(regs[k], k + 1), Sources(regs, k + 1);
      var all: seq<Source> := first + rest;
      forall i | 0 <= i < |all|
        ensures all[i].order >= (k + 1) as real
      {
        if i >= |first| {
          assert rest[i - |first|].order >= (k + 2) as real;
        }
      }
    }
  }

  /** The order keys are strictly increasing exactly when no registration but the last names a thousand files. */
  lemma {:induction false} OrderKeysIncrease(regs: seq<Registration>, k: nat)
    requires k <= |regs|
    ensures InOrder(Sources(regs, k)) <==> forall j :: k <= j < |regs| - 1 ==> Files(regs[j]) < 1000
    decreases |regs| - k
  {
    if k < |regs| {
      var first, rest := SourcesOf(regs[k], k + 1), Sources(regs, k + 1);
      assert Sources(regs, k) == first + rest;
      hide *;
      OrderKeysIncrease(regs, k + 1);
      OrderKeysStep(regs, k, first, rest);
      FewFirst(regs, k);
    }
  }

  lemma OrderKeysStep(regs: seq<Registration>, k: nat, first: seq<Source>, rest: seq<Source>)
    requires k < |regs| && first == SourcesOf(regs[k], k + 1) && rest == Sources(regs, k + 1)
    ensures InOrder(first + rest) <==> InOrder(rest) && (k < |regs| - 1 ==> Files(regs[k]) < 1000)
  {
    hide Sources, SourcesOf, InOrder, Files;
    if k == |regs| - 1 {
      NoSources(regs);
    } else {
      SourcesFrom(regs, k + 1);
    }
    if InOrder(first + rest) {
      RestInOrder(first, rest);
      if k < |regs| - 1 {
        LastBeforeNext(first, rest);
      }
    }
    if InOrder(rest) && (k < |regs| - 1 ==> Files(regs[k]) < 1000) {
      SourcesNotBefore(regs, k + 1);
      FirstBeforeRest(first, rest, k);
    }
  }

  lemma FewFirst(regs: seq<Registration>, k: nat)
    requires k < |regs|
    ensures (forall j :: k <= j < |regs| - 1 ==> Files(regs[j]) < 1000)
       <==> (k < |regs| - 1 ==> Files(regs[k]) < 1000) && forall j :: k + 1 <= j < |regs| - 1 ==> Files(regs[j]) < 1000
  {
    hide Files;
  }

  lemma RestInOrder(first: seq<Source>, rest: seq<Source>)
    requires InOrder(first + rest)
    ensures InOrder(rest)
  {
    var all := first + rest;
    forall i, j | 0 <= i < j < |rest|
      ensures rest[i].order < rest[j].order
    {
      assert all[|first| + i] == rest[i] && all[|first| + j] == rest[j];
    }
  }

  lemma LastBeforeNext(first: seq<Source>, rest: seq<Source>)
    requires InOrder(first + rest) && first != [] && rest != []
    ensures first[|first| - 1].order < rest[0].order
  {
    var all := first + rest;
    assert all[|first| - 1] == first[|first| - 1] && all[|first|] == rest[0];
  }

  lemma FirstBeforeRest(first: seq<Source>, rest: seq<Source>, k: nat)
    requires forall i :: 0 <= i < |first| ==> first[i].order == (k + 1) as real + i as real / 1000.0
    requires forall i :: 0 <= i < |rest| ==> rest[i].order >= (k + 2) as real
    requires rest != [] ==> |first| <= 1000
    requires InOrder(rest)
    ensures InOrder(first + rest)
  {
    var all := first + rest;
    forall i, j | 0 <= i < j < |all|
      ensures all[i].order < all[j].order
    {
      if j >= |first| {
        assert all[j] == rest[j - |first|];
      }
    }
  }

  // ----- the events of a column -----

  datatype Action = Add | Drop

  datatype Event = Event(action: Action, file: string, line: nat, order: real)

  /** An event as it is found in a file: the column it is about, what happens and where. */
  datatype Finding = Finding(table: string, column: string, action: Action, line: nat)

  /** A column is filed under its table and its name, joined. */
  type Column = string

  function KeyOf(f: Finding): Column { f.table + "::" + f.column }

  /** As long as no table name has a colon, only findings about the same column share a key. */
  lemma SameKey(f: Finding, g: Finding)
    requires ':' !in f.table && ':' !in g.table
    ensures KeyOf(f) == KeyOf(g) <==> f.table == g.table && f.column == g.column
  {
    if KeyOf(f) == KeyOf(g) {
      var key, n, m := KeyOf(f), |f.table|, |g.table|;
      assert key[n] == ':' && key[m] == ':';
      assert forall k :: 0 <= k < n ==> key[k] == f.table[k] && f.table[k] in f.table;
      assert forall k :: 0 <= k < m ==> key[k] == g.table[k] && g.table[k] in g.table;
      assert n == m;
      assert f.table == key[..n] == g.table;
      assert f.column == key[n + 2..] == g.column;
    }
  }

  function EventsIn(found: seq<Finding>, src: Source, key: Column): seq<Event> {
    if found == [] then []
    else
      (if KeyOf(found[0]) == key then [Event(found[0].action, src.path, found[0].line, src.order)] else [])
      + EventsIn(found[1..], src, key)
  }

  /** The events of a column in the order in which the sources are read. */
  function EventsOf(sources: seq<Source>, found: seq<seq<Finding>>, key: Column): seq<Event>
    requires |found| == |sources|
  {
    if sources == [] then []
    else EventsIn(found[0], sources[0], key) + EventsOf(sources[1..], found[1..], key)
  }

  function EventsUnder(byColumn: map<Column, seq<Event>>, key: Column): seq<Event> {
    if key in byColumn then byColumn[key] else []
  }

  /** Files the findings of one source under their columns. */
  method AddFindings(byColumn: map<Column, seq<Event>>, found: seq<Finding>, src: Source) returns (r: map<Column, seq<Event>>)
    ensures forall key :: EventsUnder(r, key) == EventsUnder(byColumn, key) + EventsIn(found, src, key)
  {
    r := byColumn;
    for i := 0 to |found|
      invariant forall key :: EventsUnder(r, key) + EventsIn(found[i..], src, key)
                           == EventsUnder(byColumn, key) + EventsIn(found, src, key)
    {
      assert found[i..][0] == found[i] && found[i..][1..] == found[i + 1..];
      var f, before := found[i], r;
      var key := KeyOf(f);
      var e := Event(f.action, src.path, f.line, src.order);
      r := r[key := EventsUnder(r, key) + [e]];
      forall k
        ensures EventsUnder(r, k) + EventsIn(found[i + 1..], src, k) == EventsUnder(before, k) + EventsIn(found[i..], src, k)
      {
        if k == key {
          assert EventsUnder(before, k) + ([e] + EventsIn(found[i + 1..], src, k))
              == EventsUnder(r, k) + EventsIn(found[i + 1..], src, k);
        }
      }
    }
  }

  /** The events of every column, in the order in which the sources are read. */
  method GroupByColumn(sources: seq<Source>, found: seq<seq<Finding>>) returns (byColumn: map<Column, seq<Event>>)
    requires |found| == |sources|
    ensures forall key :: EventsUnder(byColumn, key) == EventsOf(sources, found, key)
  {
    hide EventsIn;
    byColumn := map[];
    for i := 0 to |sources|
      invariant forall key :: EventsUnder(byColumn, key) + EventsOf(sources[i..], found[i..], key) == EventsOf(sources, found, key)
    {
      assert sources[i..][0] == sources[i] && sources[i..][1..] == sources[i + 1..];
      assert found[i..][0] == found[i] && found[i..][1..] == found[i + 1..];
      var before := byColumn;
      byColumn := AddFindings(byColumn, found[i], sources[i]);
      forall k
        ensures EventsUnder(byColumn, k) + EventsOf(sources[i + 1..], found[i + 1..], k)
             == EventsUnder(before, k) + EventsOf(sources[i..], found[i..], k)
      {
        assert EventsUnder(before, k) + (EventsIn(found[i], sources[i], k) + EventsOf(sources[i + 1..], found[i + 1..], k))
            == EventsUnder(byColumn, k) + EventsOf(sources[i + 1..], found[i + 1..], k);
      }
    }
  }

  ghost predicate ByOrder(events: seq<Event>) {
    forall i, j :: 0 <= i < j < |events| ==> events[i].order <= events[j].order
  }

  lemma {:induction false} EventsHaveOrder(found: seq<Finding>, src: Source, key: Column)
    ensures forall i :: 0 <= i < |EventsIn(found, src, key)| ==> EventsIn(found, src, key)[i].order == src.order
  {
    if found != [] {
      EventsHaveOrder(found[1..], src, key);
    }
  }

  lemma {:induction false} EventsFrom(sources: seq<Source>, found: seq<seq<Finding>>, key: Column, least: real)
    requires |found| == |sources| && InOrder(sources) && forall i :: 0 <= i < |sources| ==> least <= sources[i].order
    ensures ByOrder(EventsOf(sources, found, key))
    ensures forall i :: 0 <= i < |EventsOf(sources, found, key)| ==> least <= EventsOf(sources, found, key)[i].order
  {
    if sources != [] {
      EventsHaveOrder(found[0], sources[0], key);
      EventsFrom(sources[1..], found[1..], key, sources[0].order);
      var a, b := EventsIn(found[0], sources[0], key), EventsOf(sources[1..], found[1..], key);
      var all: seq<Event> := a + b;
      forall i, j | 0 <= i < j < |all|
        ensures all[i].order <= all[j].order
      {
      }
    }
  }

  /** Insertion behind the events that are not later: what a stable sort does. */
  function Insert(e: Event, events: seq<Event>): seq<Event> {
    if events == [] || events[|events| - 1].order <= e.order then events + [e]
    else Insert(e, events[..|events| - 1]) + [events[|events| - 1]]
  }

  function StableSort(events: seq<Event>): seq<Event> {
    if events == [] then [] else Insert(events[|events| - 1], StableSort(events[..|events| - 1]))
  }

  lemma FrontInOrder(events: seq<Event>)
    requires ByOrder(events) && events != []
    ensures var front, last := events[..|events| - 1], events[|events| - 1];
            events == front + [last] && ByOrder(front) && forall x | x in front :: x.order <= last.order
  {
  }

  lemma InsertAt(e: Event, events: seq<Event>)
    ensures events == [] || events[|events| - 1].order <= e.order ==> Insert(e, events) == events + [e]
    ensures !(events == [] || events[|events| - 1].order <= e.order) ==>
              Insert(e, events) == Insert(e, events[..|events| - 1]) + [events[|events| - 1]]
  {
  }

  lemma {:induction false} SortedStays(events: seq<Event>)
    requires ByOrder(events)
    ensures StableSort(events) == events
  {
    if events != [] {
      var front, last := events[..|events| - 1], events[|events| - 1];
      assert StableSort(events) == Insert(last, StableSort(front));
      FrontInOrder(events);
      assert front != [] ==> front[|front| - 1] in front;
      hide *;
      SortedStays(front);
      InsertAt(last, front);
    }
  }

  lemma {:induction false} InsertKeeps(e: Event, events: seq<Event>)
    requires ByOrder(events)
    ensures ByOrder(Insert(e, events)) && multiset(Insert(e, events)) == multiset(events) + multiset{e}
  {
    InsertAt(e, events);
    hide Insert;
    if events == [] || events[|events| - 1].order <= e.order {
      InOrderUpTo(e, events);
      CountBehind(events, e);
      LastBehind(events, e);
    } else {
      var front, last := events[..|events| - 1], events[|events| - 1];
      FrontInOrder(events);
      hide ByOrder;
      InsertKeeps(e, front);
      var more := Insert(e, front);
      CountBehind(front, last);
      CountBehind(more, last);
      forall x | x in more
        ensures x.order <= last.order
      {
        OneMore(front, more, e, x);
      }
      LastBehind(more, last);
    }
  }

  lemma InOrderUpTo(e: Event, events: seq<Event>)
    requires ByOrder(events) && (events == [] || events[|events| - 1].order <= e.order)
    ensures forall x | x in events :: x.order <= e.order
  {
    if events != [] {
      FrontInOrder(events);
    }
  }

  lemma OneMore(events: seq<Event>, more: seq<Event>, e: Event, x: Event)
    requires multiset(more) == multiset(events) + multiset{e} && x in more
    ensures x in events || x == e
  {
    assert x in multiset(more);
  }

  lemma CountBehind(events: seq<Event>, last: Event)
    ensures multiset(events + [last]) == multiset(events) + multiset{last}
  {
  }

  lemma LastBehind(events: seq<Event>, last: Event)
    requires ByOrder(events) && forall x | x in events :: x.order <= last.order
    ensures ByOrder(events + [last])
  {
    var all := events + [last];
    forall i, j | 0 <= i < j < |all|
      ensures all[i].order <= all[j].order
    {
      assert all[i] == events[i] && (j < |events| ==> all[j] == events[j]);
    }
  }

  /** Sorting puts the events in order and loses none. */
  lemma {:induction false} SortOrders(events: seq<Event>)
    ensures ByOrder(StableSort(events)) && multiset(StableSort(events)) == multiset(events)
  {
    if events != [] {
      var front, last := events[..|events| - 1], events[|events| - 1];
      assert events == front + [last] && StableSort(events) == Insert(last, StableSort(front));
      hide *;
      SortOrders(front);
      CountBehind(front, last);
      InsertKeeps(last, StableSort(front));
    }
  }

  /** As long as the order keys increase, sorting the events of a column changes nothing. */
  lemma SortingIsNotNeeded(regs: seq<Registration>, found: seq<seq<Finding>>, key: Column)
    requires |found| == |Sources(regs, 0)| && forall j :: 0 <= j < |regs| - 1 ==> Files(regs[j]) < 1000
    ensures StableSort(EventsOf(Sources(regs, 0), found, key)) == EventsOf(Sources(regs, 0), found, key)
  {
    OrderKeysIncrease(regs, 0);
    SourcesNotBefore(regs, 0);
    EventsFrom(Sources(regs, 0), found, key, 1.0);
    SortedStays(EventsOf(Sources(regs, 0), found, key));
  }

  // ----- the reported pairs -----

  /** Neighbouring events with the given actions. */
  function Pairs(events: seq<Event>, first: Action, second: Action): seq<(Event, Event)> {
    if |events| < 2 then []
    else
      var n := |events|;
      Pairs(events[..n - 1], first, second)
      + (if events[n - 2].action == first && events[n - 1].action == second then [(events[n - 2], events[n - 1])] else [])
  }

  method ScanColumn(events: seq<Event>) returns (churn: seq<(Event, Event)>, warnings: seq<(Event, Event)>)
    ensures churn == Pairs(events, Add, Drop) && warnings == Pairs(events, Drop, Add)
  {
    churn, warnings := [], [];
    var i := 1;
    while i < |events|
      invariant 1 <= i && (i <= |events| || events == [])
      invariant events == [] ==> churn == [] && warnings == []
      invariant |events| > 0 ==> churn == Pairs(events[..i], Add, Drop) && warnings == Pairs(events[..i], Drop, Add)
      decreases |events| - i
    {
      assert events[..i + 1][..i] == events[..i];
      var prev, curr := events[i - 1], events[i];
      if prev.action != curr.action {
        if prev.action == Add && curr.action == Drop {
          churn := churn + [(prev, curr)];
        } else if prev.action == Drop && curr.action == Add {
          warnings := warnings + [(prev, curr)];
        }
      }
      i := i + 1;
    }
    if events != [] {
      assert events[..i] == events;
    }
  }

  lemma {:induction false} PairFound(events: seq<Event>, i: nat, j: nat)
    requires i < j < |events| && events[i].action == Add && events[j].action == Drop
    ensures Pairs(events, Add, Drop) != []
    decreases |events|
  {
    var n := |events|;
    var front := events[..n - 1];
    if j < n - 1 {
      PairFound(front, i, j);
    } else if events[n - 2].action == Drop {
      PairFound(front, i, n - 2);
    }
  }

  /** A column is reported exactly when it is added and later dropped, whatever happens in between. */
  lemma {:induction false} ReportedIffAddedThenDropped(events: seq<Event>)
    ensures Pairs(events, Add, Drop) != [] <==>
            exists i, j :: 0 <= i < j < |events| && events[i].action == Add && events[j].action == Drop
    decreases |events|
  {
    if |events| >= 2 {
      var n := |events|;
      var front := events[..n - 1];
      ReportedIffAddedThenDropped(front);
      if exists i, j :: 0 <= i < j < n && events[i].action == Add && events[j].action == Drop {
        var i, j :| 0 <= i < j < n && events[i].action == Add && events[j].action == Drop;
        PairFound(events, i, j);
      }
      if Pairs(events, Add, Drop) != [] {
        if Pairs(front, Add, Drop) != [] {
          var i, j :| 0 <= i < j < n - 1 && front[i].action == Add && front[j].action == Drop;
          assert events[i].action == Add && events[j].action == Drop;
        } else {
          assert events[n - 2].action == Add && events[n - 1].action == Drop;
        }
      }
    }
  }

  /** Churn and warnings differ by what the first and the last event say, and by nothing in between. */
  lemma {:induction false} ChurnBalance(events: seq<Event>)
    requires events != []
    ensures |Pairs(events, Add, Drop)| - |Pairs(events, Drop, Add)|
         == Value(events[|events| - 1].action) - Value(events[0].action)
    decreases |events|
  {
    if |events| >= 2 {
      ChurnBalance(events[..|events| - 1]);
    }
  }

  function Value(a: Action): int { if a == Drop then 1 else 0 }
}
