/** Rule C of the tenant linter: after `await db.commit()` the first statement
    that mentions db must reset the tenant. */
module RuleC {
  import opened Wrappers
  import opened PythonAst

  /** A statement that may run later, with the statements a break there leads to. */
  datatype Entry = Entry(st: Stmt, brk: seq<Entry>)

  function Wrap(ss: seq<Stmt>, brk: seq<Entry>): (r: seq<Entry>)
    ensures |r| == |ss| && forall i :: 0 <= i < |ss| ==> r[i] == Entry(ss[i], brk)
  {
    seq(|ss|, i requires 0 <= i < |ss| => Entry(ss[i], brk))
  }

  // ----- collecting commits -----

  datatype Found = Found(commit: Stmt, rest: seq<Entry>)

  /** Every commit of the block with the statements that may run after it;
      `after` follows the block and a break in the block leads to `brk`. */
  function Collected(body: seq<Stmt>, after: seq<Entry>, brk: seq<Entry>): seq<Found>
    decreases body, 1
  {
    if body == [] then []
    else CollectedIn(body[0], Wrap(body[1..], brk) + after, brk) + Collected(body[1..], after, brk)
  }

  function CollectedIn(s: Stmt, rest: seq<Entry>, brk: seq<Entry>): seq<Found>
    decreases s, 0
  {
    if IsCommit(s) then [Found(s, rest)] else
    match s
    case If(_, body, orelse) => Collected(body, rest, brk) + Collected(orelse, rest, brk)
    case Loop(_, _, body, orelse) => Collected(body, rest, rest) + Collected(orelse, rest, brk)
    case With(_, body) => Collected(body, rest, brk)
    case Try(body, handlers, orelse, finalbody) =>
      var fin := Wrap(finalbody, brk) + rest;
      Collected(body, Wrap(orelse, brk) + fin, brk) + Collected(orelse, fin, brk)
      + CollectedArms(handlers, fin, brk) + Collected(finalbody, rest, brk)
    case Match(_, cases) => CollectedArms(cases, rest, brk)
    case _ => []
  }

  lemma CommitFirst(body: seq<Stmt>, after: seq<Entry>, brk: seq<Entry>)
    requires body != [] && IsCommit(body[0])
    ensures Found(body[0], Wrap(body[1..], brk) + after) in Collected(body, after, brk)
  {
    var left := Wrap(body[1..], brk) + after;
    assert CollectedIn(body[0], left, brk) == [Found(body[0], left)];
    assert Collected(body, after, brk)[0] == Found(body[0], left);
  }

  function CollectedArms(arms: seq<Arm>, after: seq<Entry>, brk: seq<Entry>): seq<Found>
    decreases arms, 0
  {
    if arms == [] then []
    else Collected(arms[0].body, after, brk) + CollectedArms(arms[1..], after, brk)
  }

  /** The list the linter appends to while it walks a function body. */
  class Collector {
    var out: seq<Found>

    constructor ()
      ensures out == []
    {
      out := [];
    }

    method Collect(body: seq<Stmt>, after: seq<Entry>, brk: seq<Entry>)
      modifies this
      ensures out == old(out) + Collected(body, after, brk)
      decreases body, 1
    {
      for i := 0 to |body|
        invariant out + Collected(body[i..], after, brk) == old(out) + Collected(body, after, brk)
      {
        var s := body[i];
        var rest := Wrap(body[i + 1..], brk) + after;
        assert body[i..][0] == s && body[i..][1..] == body[i + 1..];
        ghost var before := out;
        CollectStmt(s, rest, brk);
        assert before + (CollectedIn(s, rest, brk) + Collected(body[i + 1..], after, brk))
            == out + Collected(body[i + 1..], after, brk);
      }
    }

    method CollectStmt(s: Stmt, rest: seq<Entry>, brk: seq<Entry>)
      modifies this
      ensures out == old(out) + CollectedIn(s, rest, brk)
      decreases s, 1
    {
      hide Collected, CollectedArms;
      if IsCommit(s) {
        out := out + [Found(s, rest)];
        return;
      }
      ghost var before := out;
      match s {
        case If(_, body, orelse) =>
          Collect(body, rest, brk);
          Collect(orelse, rest, brk);
          assert out == before + (Collected(body, rest, brk) + Collected(orelse, rest, brk));
        case Loop(_, _, body, orelse) =>
          Collect(body, rest, rest);
          Collect(orelse, rest, brk);
          assert out == before + (Collected(body, rest, rest) + Collected(orelse, rest, brk));
        case With(_, body) =>
          Collect(body, rest, brk);
        case Try(_, _, _, _) =>
          CollectTry(s, rest, brk);
        case Match(_, cases) =>
          CollectArms(cases, rest, brk);
        case _ =>
      }
    }

    method CollectTry(s: Stmt, rest: seq<Entry>, brk: seq<Entry>)
      requires s.Try?
      modifies this
      ensures out == old(out) + CollectedIn(s, rest, brk)
      decreases s, 0
    {
      hide Collected, CollectedArms;
      var fin, els := Wrap(s.finalbody, brk) + rest, Wrap(s.orelse, brk);
      ghost var before := out;
      ghost var inBody, inElse := Collected(s.body, els + fin, brk), Collected(s.orelse, fin, brk);
      Collect(s.body, els + fin, brk);
      Collect(s.orelse, fin, brk);
      assert out == before + (inBody + inElse);
      CollectArms(s.handlers, fin, brk);
      assert out == before + (inBody + inElse + CollectedArms(s.handlers, fin, brk));
      Collect(s.finalbody, rest, brk);
    }

    method CollectArms(arms: seq<Arm>, after: seq<Entry>, brk: seq<Entry>)
      modifies this
      ensures out == old(out) + CollectedArms(arms, after, brk)
      decreases arms, 0
    {
      for i := 0 to |arms|
        invariant out + CollectedArms(arms[i..], after, brk) == old(out) + CollectedArms(arms, after, brk)
      {
        assert arms[i..][0] == arms[i] && arms[i..][1..] == arms[i + 1..];
        ghost var before := out;
        Collect(arms[i].body, after, brk);
        assert before + (Collected(arms[i].body, after, brk) + CollectedArms(arms[i + 1..], after, brk))
            == out + CollectedArms(arms[i + 1..], after, brk);
      }
    }
  }

  // ----- walking the collected statements -----

  /** The first statement mentioning db, where a break jumps to its target. */
  function FirstDb(rest: seq<Entry>): Option<Stmt> {
    if rest == [] then None
    else
      var s := rest[0].st;
      if s.Continue? then None
      else if s.Break? then FirstDb(rest[0].brk)
      else if UsesDb(s) then Some(s)
      else if s.Return? || s.Raise? then None
      else FirstDb(rest[1..])
  }

  method FirstDbStmt(rest: seq<Entry>) returns (r: Option<Stmt>)
    ensures r == FirstDb(rest)
  {
    var sq, i := rest, 0;
    while i < |sq|
      invariant 0 <= i <= |sq|
      invariant FirstDb(sq[i..]) == FirstDb(rest)
      decreases sq[i..]
    {
      assert sq[i..][0] == sq[i] && sq[i..][1..] == sq[i + 1..];
      var st, brk := sq[i].st, sq[i].brk;
      if st.Continue? {
        return None;
      }
      if st.Break? {
        assert brk[0..] == brk;
        sq, i := brk, 0;
        continue;
      }
      if UsesDb(st) {
        return Some(st);
      }
      if st.Return? || st.Raise? {
        return None;
      }
      i := i + 1;
    }
    return None;
  }

  /** The linter accepts the statements after a commit. */
  predicate Passes(rest: seq<Entry>, names: set<string>) {
    FirstDb(rest).None? || IsReset(FirstDb(rest).value, names)
  }

  /** No violation in a function with this body. */
  predicate Silent(body: seq<Stmt>, names: set<string>) {
    forall f | f in Collected(body, [], []) :: Passes(f.rest, names)
  }

  /** The reported pairs: a commit and the statement that uses db too early. */
  function Violations(found: seq<Found>, names: set<string>): seq<(Stmt, Stmt)> {
    if found == [] then []
    else
      (if Passes(found[0].rest, names) then [] else [(found[0].commit, FirstDb(found[0].rest).value)])
      + Violations(found[1..], names)
  }

  /** Nothing is reported exactly when every collected commit passes. */
  lemma {:induction false} NoViolations(found: seq<Found>, names: set<string>)
    ensures Violations(found, names) == [] <==> forall f | f in found :: Passes(f.rest, names)
  {
    if found != [] {
      NoViolations(found[1..], names);
      assert found == [found[0]] + found[1..];
    }
  }

  method CheckRuleC(body: seq<Stmt>, names: set<string>) returns (violations: seq<(Stmt, Stmt)>)
    ensures violations == Violations(Collected(body, [], []), names)
    ensures violations == [] <==> Silent(body, names)
  {
    var commits := new Collector();
    commits.Collect(body, [], []);
    assert commits.out == Collected(body, [], []);
    violations := Report(commits.out, names);
    NoViolations(commits.out, names);
  }

  lemma ViolationsAt(found: seq<Found>, i: nat, names: set<string>)
    requires i < |found|
    ensures Violations(found[i..], names)
         == (if Passes(found[i].rest, names) then [] else [(found[i].commit, FirstDb(found[i].rest).value)])
            + Violations(found[i + 1..], names)
  {
    hide Passes;
    assert found[i..][0] == found[i] && found[i..][1..] == found[i + 1..];
  }

  method Report(found: seq<Found>, names: set<string>) returns (violations: seq<(Stmt, Stmt)>)
    ensures violations == Violations(found, names)
  {
    violations := [];
    for i := 0 to |found|
      invariant violations + Violations(found[i..], names) == Violations(found, names)
    {
      hide Violations, IsReset, FirstDb;
      ViolationsAt(found, i, names);
      var st := FirstDbStmt(found[i].rest);
      if st.None? || IsReset(st.value, names) {
        continue;
      }
      ghost var before, rest := violations, Violations(found[i + 1..], names);
      violations := violations + [(found[i].commit, st.value)];
      assert before + ([(found[i].commit, st.value)] + rest) == violations + rest;
    }
  }

  // ----- every commit is collected once -----

  /** Every statement of the block outside nested definitions, with multiplicity. */
  ghost function Inside(ss: seq<Stmt>): multiset<Stmt>
    decreases ss, 1
  {
    if ss == [] then multiset{} else multiset{ss[0]} + Under(ss[0]) + Inside(ss[1..])
  }

  ghost function Under(s: Stmt): multiset<Stmt>
    decreases s, 0
  {
    match s
    case If(_, body, orelse) => Inside(body) + Inside(orelse)
    case Loop(_, _, body, orelse) => Inside(body) + Inside(orelse)
    case With(_, body) => Inside(body)
    case Try(body, handlers, orelse, finalbody) =>
      Inside(body) + InsideArms(handlers) + Inside(orelse) + Inside(finalbody)
    case Match(_, cases) => InsideArms(cases)
    case _ => multiset{}
  }

  ghost function InsideArms(arms: seq<Arm>): multiset<Stmt>
    decreases arms, 0
  {
    if arms == [] then multiset{} else Inside(arms[0].body) + InsideArms(arms[1..])
  }

  ghost function Commits(found: seq<Found>): multiset<Stmt> {
    if found == [] then multiset{} else multiset{found[0].commit} + Commits(found[1..])
  }

  lemma {:induction false} CommitsAppend(a: seq<Found>, b: seq<Found>)
    ensures Commits(a + b) == Commits(a) + Commits(b)
  {
    if a == [] {
      assert a + b == b;
    } else {
      assert (a + b)[1..] == a[1..] + b;
      CommitsAppend(a[1..], b);
    }
  }

  lemma {:induction false} CollectedOnce(body: seq<Stmt>, after: seq<Entry>, brk: seq<Entry>, c: Stmt)
    ensures Commits(Collected(body, after, brk))[c] == if IsCommit(c) then Inside(body)[c] else 0
    decreases body, 1
  {
    if body != [] {
      var rest := Wrap(body[1..], brk) + after;
      CollectedInOnce(body[0], rest, brk, c);
      CollectedOnce(body[1..], after, brk, c);
      CommitsAppend(CollectedIn(body[0], rest, brk), Collected(body[1..], after, brk));
    }
  }

  /** One step of the collection and of what is under a statement. */
  lemma CollectedAt(s: Stmt, rest: seq<Entry>, brk: seq<Entry>)
    requires !IsCommit(s)
    ensures s.If? ==>
              && CollectedIn(s, rest, brk) == Collected(s.body, rest, brk) + Collected(s.orelse, rest, brk)
              && Under(s) == Inside(s.body) + Inside(s.orelse)
    ensures s.Loop? ==>
              && CollectedIn(s, rest, brk) == Collected(s.body, rest, rest) + Collected(s.orelse, rest, brk)
              && Under(s) == Inside(s.body) + Inside(s.orelse)
    ensures s.With? ==> CollectedIn(s, rest, brk) == Collected(s.body, rest, brk) && Under(s) == Inside(s.body)
    ensures s.Match? ==>
              CollectedIn(s, rest, brk) == CollectedArms(s.cases, rest, brk) && Under(s) == InsideArms(s.cases)
    ensures !s.If? && !s.Loop? && !s.With? && !s.Try? && !s.Match? ==>
              CollectedIn(s, rest, brk) == [] && Under(s) == multiset{}
  {
    hide Collected, CollectedArms, Inside, InsideArms;
  }

  lemma CommitOnce(s: Stmt, rest: seq<Entry>, brk: seq<Entry>)
    requires IsCommit(s)
    ensures Commits(CollectedIn(s, rest, brk)) == multiset{s} && Under(s) == multiset{}
  {
    assert CollectedIn(s, rest, brk) == [Found(s, rest)];
    assert [Found(s, rest)][1..] == [];
  }

  lemma {:induction false} CollectedInOnce(s: Stmt, rest: seq<Entry>, brk: seq<Entry>, c: Stmt)
    ensures Commits(CollectedIn(s, rest, brk))[c]
         == if IsCommit(c) then (multiset{s} + Under(s))[c] else 0
    decreases s, 2
  {
    if IsCommit(s) {
      CommitOnce(s, rest, brk);
    } else {
      OtherOnce(s, rest, brk, c);
    }
  }

  lemma {:induction false} OtherOnce(s: Stmt, rest: seq<Entry>, brk: seq<Entry>, c: Stmt)
    requires !IsCommit(s)
    ensures Commits(CollectedIn(s, rest, brk))[c] == if IsCommit(c) then Under(s)[c] else 0
    decreases s, 1
  {
    CollectedAt(s, rest, brk);
    assert Commits([]) == multiset{};
    hide *;
    match s
    case If(_, body, orelse) =>
      CollectedOnce(body, rest, brk, c);
      CollectedOnce(orelse, rest, brk, c);
      CommitsAppend(Collected(body, rest, brk), Collected(orelse, rest, brk));
    case Loop(_, _, body, orelse) =>
      CollectedOnce(body, rest, rest, c);
      CollectedOnce(orelse, rest, brk, c);
      CommitsAppend(Collected(body, rest, rest), Collected(orelse, rest, brk));
    case With(_, body) =>
      CollectedOnce(body, rest, brk, c);
    case Try(_, _, _, _) =>
      CollectedTryOnce(s, rest, brk, c);
    case Match(_, cases) =>
      CollectedArmsOnce(cases, rest, brk, c);
    case _ =>
  }

  lemma TryAt(s: Stmt, rest: seq<Entry>, brk: seq<Entry>)
    requires s.Try?
    ensures Under(s) == Inside(s.body) + InsideArms(s.handlers) + Inside(s.orelse) + Inside(s.finalbody)
    ensures CollectedIn(s, rest, brk)
         == (var fin := Wrap(s.finalbody, brk) + rest;
             Collected(s.body, Wrap(s.orelse, brk) + fin, brk) + Collected(s.orelse, fin, brk)
             + CollectedArms(s.handlers, fin, brk) + Collected(s.finalbody, rest, brk))
  {
    hide Collected, CollectedArms, Inside, InsideArms;
  }

  lemma {:induction false} CollectedTryOnce(s: Stmt, rest: seq<Entry>, brk: seq<Entry>, c: Stmt)
    requires s.Try?
    ensures Commits(CollectedIn(s, rest, brk))[c] == if IsCommit(c) then Under(s)[c] else 0
    decreases s, 0
  {
    hide *;
    TryAt(s, rest, brk);
    var fin := Wrap(s.finalbody, brk) + rest;
    var inBody, inElse := Collected(s.body, Wrap(s.orelse, brk) + fin, brk), Collected(s.orelse, fin, brk);
    var inArms, inFinal := CollectedArms(s.handlers, fin, brk), Collected(s.finalbody, rest, brk);
    CollectedOnce(s.body, Wrap(s.orelse, brk) + fin, brk, c);
    CollectedOnce(s.orelse, fin, brk, c);
    CollectedArmsOnce(s.handlers, fin, brk, c);
    CollectedOnce(s.finalbody, rest, brk, c);
    CommitsAppend(inBody, inElse);
    CommitsAppend(inBody + inElse, inArms);
    CommitsAppend(inBody + inElse + inArms, inFinal);
  }

  lemma {:induction false} CollectedArmsOnce(arms: seq<Arm>, after: seq<Entry>, brk: seq<Entry>, c: Stmt)
    ensures Commits(CollectedArms(arms, after, brk))[c] == if IsCommit(c) then InsideArms(arms)[c] else 0
    decreases arms, 0
  {
    if arms != [] {
      CollectedOnce(arms[0].body, after, brk, c);
      CollectedArmsOnce(arms[1..], after, brk, c);
      CommitsAppend(Collected(arms[0].body, after, brk), CollectedArms(arms[1..], after, brk));
    }
  }
}
