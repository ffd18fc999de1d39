/** Functions Rule C reports although every run resets the tenant in time or
    does not use db again: its walk looks into no compound statement. */
module RuleCAlarms {
  import opened Wrappers
  import opened PythonAst
  import opened RuleC
  import opened RuleCRuns
  import opened RuleCExact
  import opened RuleCSound
  import opened RuleCHoles

  /** A violation is reported, yet after every commit on every run db is first used by a reset. */
  ghost predicate FalseAlarm(body: seq<Stmt>, e: Env) {
    && !Silent(body, e.names)
    && forall p, commit, k :: JustCommitted(body, e, p, commit, k) ==> Safe(Run(MarkOld(k)), e)
  }

  /** The commit at the start of a function without another commit is executed first and only once. */
  lemma OnlyFirst(rest: seq<Stmt>, p: seq<Config>, commit: Stmt, k: Cont)
    requires NoCommit(rest) && JustCommitted([COMMIT] + rest, ENV, p, commit, k)
    ensures k == Then(rest, Done)
  {
    Shapes();
    var body := [COMMIT] + rest;
    assert body[1..] == rest;
    if p != [] {
      assert Left(Done) == [] && BreakTarget(Done) == [];
      hide UsesDb;
      var next := Run(Then(rest, Done));
      assert StartsWith(COMMIT, ENV, Then(rest, Done), p[0]);
      assert p[0] == next;
      assert Collected(rest, [], []) == [];
      assert Covered(Then(rest, Done), []);
      CoveredRun(next, ENV, p[1..], []);
      assert Last(next, p[1..]) == Last(Run(Then(body, Done)), p);
      var at := Last(next, p[1..]).k;
      CommitFirst(at.block, Left(at.next), BreakTarget(at.next));
    }
  }

  /** If the walk stops at a statement that is no reset, but what follows the commit is clean. */
  lemma Alarm(rest: seq<Stmt>)
    requires NoCommit(rest) && !Passes(Wrap(rest, []), ENV.names) && Clean(Then(rest, Done), ENV)
    ensures FalseAlarm([COMMIT] + rest, ENV)
  {
    Shapes();
    var body := [COMMIT] + rest;
    assert body[1..] == rest && Wrap(rest, []) + [] == Wrap(rest, []);
    CommitFirst(body, [], []);
    CleanExactlySafe(Then(rest, Done), ENV);
    forall p, commit, k | JustCommitted(body, ENV, p, commit, k)
      ensures Safe(Run(MarkOld(k)), ENV)
    {
      OnlyFirst(rest, p, commit, k);
    }
  }

  lemma ResetIsClean(ss: seq<Stmt>, k: Cont)
    requires ss != [] && ss[0] == RESET
    ensures Clean(Then(ss, k), ENV)
  {
    Shapes();
    ResetIsOwnUse(RESET, ENV.names);
    assert CleanStart(RESET, Then(ss[1..], k), ENV);
  }

  const EITHER := If(CONDITION, [RESET], [RESET])

  /** Both branches of an if reset the tenant. */
  lemma ResetInBothBranches()
    ensures FalseAlarm([COMMIT, EITHER, USE], ENV)
  {
    Shapes();
    Leaf(RESET);
    Leaf(USE);
    var rest := [EITHER, USE];
    assert [COMMIT] + rest == [COMMIT, EITHER, USE] && rest[1..] == [USE];
    assert NoCommit(rest) by {
      forall after, brk
        ensures Collected(rest, after, brk) == []
      {
        assert CollectedIn(EITHER, Wrap([USE], brk) + after, brk) == [];
      }
    }
    assert UsesDb(EITHER) by {
      assert BlockUsesDb([RESET]);
    }
    assert FirstDb(Wrap(rest, [])) == Some(EITHER);
    var k := Then([USE], Done);
    ResetIsClean([RESET], k);
    assert CleanStart(EITHER, k, ENV);
    Alarm(rest);
  }

  const LEAVE := If(CONDITION, [Return([])], [Return([])])

  /** A use of db that no run reaches. */
  lemma UnreachableUse()
    ensures FalseAlarm([COMMIT, LEAVE, USE], ENV)
  {
    Shapes();
    Leaf(Return([]));
    Leaf(USE);
    var rest := [LEAVE, USE];
    assert [COMMIT] + rest == [COMMIT, LEAVE, USE] && rest[1..] == [USE];
    assert NoCommit(rest) by {
      forall after, brk
        ensures Collected(rest, after, brk) == []
      {
        assert CollectedIn(LEAVE, Wrap([USE], brk) + after, brk) == [];
      }
    }
    assert !UsesDb(LEAVE) by {
      assert !BlockUsesDb([Return([])]);
    }
    var left := Wrap(rest, []);
    assert left[1..] == [Entry(USE, [])];
    assert FirstDb(left) == FirstDb(left[1..]) == Some(USE);
    var k := Then([USE], Done);
    assert [Return([])][1..] == [] && CleanJump(Returned, Then([], k), ENV);
    assert Clean(Then([Return([])], k), ENV);
    assert CleanStart(LEAVE, k, ENV);
    Alarm(rest);
  }

  const HELPER := Function([], [USE])

  /** A nested function that uses db is only defined before the reset. */
  lemma HelperBeforeReset()
    ensures FalseAlarm([COMMIT, HELPER, RESET], ENV)
  {
    Shapes();
    Leaf(RESET);
    var rest := [HELPER, RESET];
    assert [COMMIT] + rest == [COMMIT, HELPER, RESET] && rest[1..] == [RESET];
    assert NoCommit(rest) by {
      forall after, brk
        ensures Collected(rest, after, brk) == []
      {
        assert CollectedIn(HELPER, Wrap([RESET], brk) + after, brk) == [];
      }
    }
    assert UsesDb(HELPER) by {
      assert BlockUsesDb([USE]);
    }
    assert FirstDb(Wrap(rest, [])) == Some(HELPER);
    var k := Then([RESET], Done);
    ResetIsClean([RESET], Done);
    assert CleanStart(HELPER, k, ENV);
    Alarm(rest);
  }
}
