/** Functions Rule C is silent about although a run uses db too early. */
module RuleCHoles {
  import opened Wrappers
  import opened PythonAst
  import opened RuleC
  import opened RuleCRuns
  import opened RuleCExact
  import opened RuleCSound

  const COMMIT := ExprStmt(1, Await(Call(Attribute(Name("db"), "commit"), [], [])))
  const RESET := ExprStmt(2, Await(Call(Name("reset_tenant_context"), [Name("db"), Name("tenant_id")], [])))
  const USE := ExprStmt(3, Await(Call(Attribute(Name("db"), "execute"), [], [])))
  const SKIP := Plain([])
  const CONDITION := Name("flag")

  const ENV := Env({"reset_tenant_context", "set_tenant_context"}, false)

  /** No violation is reported, yet some run commits and then uses db without a reset. */
  ghost predicate Missed(body: seq<Stmt>, e: Env) {
    && Silent(body, e.names)
    && exists p, commit, k :: JustCommitted(body, e, p, commit, k) && !Safe(Run(MarkOld(k)), e)
  }

  lemma Miss(body: seq<Stmt>, e: Env, p: seq<Config>, k: Cont)
    requires Collected(body, [], []) == [Found(COMMIT, Left(k))] && Passes(Left(k), e.names)
    requires JustCommitted(body, e, p, COMMIT, k) && !Clean(MarkOld(k), e)
    ensures Missed(body, e)
  {
    CleanExactlySafe(MarkOld(k), e);
  }

  lemma Shapes()
    ensures UsesDb(COMMIT) && UsesDb(USE) && UsesDb(RESET) && !UsesDb(SKIP) && !ExprUsesDb(CONDITION)
    ensures IsCommit(COMMIT) && !IsReset(USE, ENV.names) && IsReset(RESET, ENV.names)
  {
    assert ExprUsesDb(Name("db"));
    assert ExprUsesDb(Attribute(Name("db"), "commit"));
    assert ExprUsesDb(Attribute(Name("db"), "execute"));
    assert ExprUsesDb(COMMIT.value.value) && ExprUsesDb(USE.value.value);
    assert ExprsUseDb([Name("db"), Name("tenant_id")]);
    assert ExprUsesDb(RESET.value.value);
    assert ExprUsesDb(COMMIT.value) && ExprUsesDb(USE.value) && ExprUsesDb(RESET.value);
  }

  // ----- commits inside a loop -----

  ghost predicate NoCommit(ss: seq<Stmt>) {
    forall after, brk :: Collected(ss, after, brk) == []
  }

  /** What is left after the first statement of the body of a loop that is followed by `last`. */
  function LoopRest(loop: LoopStmt, last: Stmt): Cont
    requires loop.body != []
  {
    Then(loop.body[1..], Head(loop, false, Then([last], Done)))
  }

  lemma LoopLeft(loop: LoopStmt, last: Stmt)
    requires loop.body != []
    ensures Left(LoopRest(loop, last)) == Wrap(loop.body[1..], [Entry(last, [])]) + [Entry(last, [])]
  {
    var n := Then([last], Done);
    var head, after := Head(loop, false, n), [Entry(last, [])];
    assert Left(Done) == [] && BreakTarget(Done) == [];
    assert Wrap([last], []) + [] == after;
    assert Left(n) == after;
    assert BreakTarget(head) == after && Left(head) == after;
  }

  lemma LoopCollected(loop: LoopStmt, last: Stmt)
    requires loop.body != [] && loop.body[0] == COMMIT
    requires NoCommit(loop.body[1..]) && NoCommit(loop.orelse) && NoCommit([last])
    ensures Collected([loop, last], [], []) == [Found(COMMIT, Left(LoopRest(loop, last)))]
  {
    Shapes();
    LoopLeft(loop, last);
    var k, after := LoopRest(loop, last), [Entry(last, [])];
    var left := Wrap(loop.body[1..], after) + after;
    hide UsesDb, Left, BreakTarget;
    assert CollectedIn(COMMIT, left, after) == [Found(COMMIT, left)];
    assert Collected(loop.body, after, after) == [Found(COMMIT, left)];
    assert Collected(loop.orelse, after, []) == [];
    assert CollectedIn(loop, after, []) == [Found(COMMIT, left)];
    assert [loop, last][1..] == [last] && Wrap([last], []) + [] == after;
    assert Collected([loop, last], [], []) == CollectedIn(loop, after, []) + Collected([last], [], []);
  }

  /** The commit that opens the body of a loop is the only one collected, and a run reaches it. */
  lemma LoopCommit(loop: LoopStmt, last: Stmt) returns (p: seq<Config>)
    requires loop.body != [] && loop.body[0] == COMMIT
    requires NoCommit(loop.body[1..]) && NoCommit(loop.orelse) && NoCommit([last])
    ensures Collected([loop, last], [], []) == [Found(COMMIT, Left(LoopRest(loop, last)))]
    ensures JustCommitted([loop, last], ENV, p, COMMIT, LoopRest(loop, last))
    ensures Left(LoopRest(loop, last)) == Wrap(loop.body[1..], [Entry(last, [])]) + [Entry(last, [])]
  {
    Shapes();
    LoopLeft(loop, last);
    LoopCollected(loop, last);
    hide Left, BreakTarget, Collected, UsesDb;
    var n := Then([last], Done);
    var head := Head(loop, false, n);
    p := [Run(head), Run(Then(loop.body, head))];
    assert [loop, last][1..] == [last] && p[1..][1..] == [];
    assert Step(Run(head), ENV, p[1]);
    assert IsRun(p[0], ENV, p[1..]);
    assert StartsWith(loop, ENV, n, p[0]);
    assert IsRun(Run(Then([loop, last], Done)), ENV, p);
  }

  lemma Leaf(s: Stmt)
    requires !IsCommit(s) && (s.ExprStmt? || s.Plain? || s.Break? || s.Continue? || s.Return? || s.Raise?)
    ensures NoCommit([]) && NoCommit([s])
  {
    assert [s][1..] == [];
  }

  lemma MarkedRest(loop: LoopStmt, last: Stmt)
    requires loop.body != []
    ensures MarkOld(LoopRest(loop, last)) == Then(loop.body[1..], Head(loop, true, Then([last], Done)))
  {
    var n := Then([last], Done);
    assert MarkOld(n) == n;
    assert MarkOld(Head(loop, false, n)) == Head(loop, true, n);
  }

  lemma UnsafeUse(n: Cont)
    ensures n.Then? && n.block == [USE] ==> !Clean(n, ENV) && !Clean(MarkOld(n), ENV)
  {
    Shapes();
  }

  const BRANCH := If(CONDITION, [Break], [])

  lemma NoCommitInBranch()
    ensures NoCommit([BRANCH, RESET])
  {
    Shapes();
    Leaf(Break); Leaf(RESET);
    hide UsesDb;
    assert [BRANCH, RESET][1..] == [RESET];
    forall after, brk
      ensures Collected([BRANCH, RESET], after, brk) == []
    {
      assert CollectedIn(BRANCH, Wrap([RESET], brk) + after, brk) == [];
    }
  }

  lemma BranchBreaks(head: Cont)
    requires head.Head? && head.next == Then([USE], Done)
    ensures !Clean(Then([BRANCH, RESET], head), ENV)
  {
    Shapes();
    UnsafeUse(head.next);
    var rest := Then([RESET], head);
    assert !CleanJump(Broke, head, ENV);
    assert [Break][1..] == [];
    assert !CleanJump(Broke, Then([], rest), ENV);
    assert !Clean(Then([Break], rest), ENV);
    assert [BRANCH, RESET][1..] == [RESET];
    assert !CleanStart(BRANCH, rest, ENV);
  }

  lemma BranchPasses(after: seq<Entry>)
    ensures Passes(Wrap([BRANCH, RESET], after) + after, ENV.names)
  {
    Shapes();
    var left := Wrap([BRANCH, RESET], after) + after;
    assert left[0] == Entry(BRANCH, after) && left[1..][0] == Entry(RESET, after);
    assert !UsesDb(BRANCH) by {
      assert !BlockUsesDb([Break]) && !BlockUsesDb([]);
    }
    hide UsesDb;
    assert FirstDb(left[1..]) == Some(RESET);
    assert FirstDb(left) == Some(RESET);
  }

  /** A break inside an if after the commit: the linter's walk goes on behind the if. */
  lemma EscapingBreak()
    ensures Missed([Loop([], [], [COMMIT, BRANCH, RESET], []), USE], ENV)
  {
    assert NoCommit([USE]) && NoCommit([]) by {
      Shapes();
      Leaf(USE);
    }
    NoCommitInBranch();
    var loop, n := Loop([], [], [COMMIT, BRANCH, RESET], []), Then([USE], Done);
    assert loop.body[1..] == [BRANCH, RESET];
    var p := LoopCommit(loop, USE);
    var k := LoopRest(loop, USE);
    BranchBreaks(Head(loop, true, n));
    MarkedRest(loop, USE);
    hide *;
    BranchPasses([Entry(USE, [])]);
    Miss([loop, USE], ENV, p, k);
  }

  /** A direct continue in the last turn: the run goes on behind the loop, the linter stops. */
  lemma ContinueInLastTurn()
    ensures Missed([Loop([], [], [COMMIT, Continue], []), USE], ENV)
  {
    Shapes();
    Leaf(USE); Leaf(Continue);
    var loop := Loop([], [], [COMMIT, Continue], []);
    assert loop.body[1..] == [Continue];
    var p := LoopCommit(loop, USE);
    var k, n := LoopRest(loop, USE), Then([USE], Done);
    assert FirstDb(Left(k)).None?;
    assert MarkOld(n) == n;
    UnsafeUse(n);
    assert !Clean(Then(loop.orelse, n), ENV);
    var head := Head(loop, true, n);
    assert !CleanJump(Continued, head, ENV);
    assert [Continue][1..] == [];
    assert !CleanJump(Continued, Then([], head), ENV);
    assert !Clean(Then([Continue], head), ENV);
    Miss([loop, USE], ENV, p, k);
  }

  /** The else of the loop around the commit is not walked. */
  lemma LoopElse()
    ensures Missed([Loop([], [], [COMMIT], [USE]), RESET], ENV)
  {
    Shapes();
    Leaf(USE); Leaf(RESET);
    var loop := Loop([], [], [COMMIT], [USE]);
    assert loop.body[1..] == [];
    var p := LoopCommit(loop, RESET);
    var k, n := LoopRest(loop, RESET), Then([RESET], Done);
    assert FirstDb(Left(k)) == Some(RESET);
    assert !Clean(Then(loop.orelse, MarkOld(n)), ENV);
    assert !Clean(Head(loop, true, MarkOld(n)), ENV);
    Miss([loop, RESET], ENV, p, k);
  }

  /** Neither is its test. */
  lemma LoopTest()
    ensures Missed([Loop([], [Name("db")], [COMMIT], []), RESET], ENV)
  {
    Shapes();
    Leaf(RESET);
    var loop := Loop([], [Name("db")], [COMMIT], []);
    assert loop.body[1..] == [];
    var p := LoopCommit(loop, RESET);
    var k := LoopRest(loop, RESET);
    assert FirstDb(Left(k)) == Some(RESET);
    assert ExprsUseDb(loop.each);
    assert !Clean(MarkOld(k.next), ENV);
    Miss([loop, RESET], ENV, p, k);
  }

  // ----- commits inside with and try -----

  const WITH := With([Name("db")], [COMMIT])
  const WITH_REST := Then([], Exit(true, Then([RESET], Done)))

  lemma WithLeft()
    ensures Left(WITH_REST) == [Entry(RESET, [])] && FirstDb(Left(WITH_REST)) == Some(RESET)
  {
    Shapes();
    var n := Then([RESET], Done);
    assert Wrap([RESET], []) + [] == [Entry(RESET, [])];
    assert Left(n) == [Entry(RESET, [])];
    assert Left(Exit(true, n)) == [Entry(RESET, [])];
    assert Wrap([], []) + [Entry(RESET, [])] == [Entry(RESET, [])];
  }

  lemma WithCollected()
    ensures Collected([WITH, RESET], [], []) == [Found(COMMIT, Left(WITH_REST))]
  {
    Shapes();
    Leaf(RESET);
    WithLeft();
    var after := [Entry(RESET, [])];
    hide Left, UsesDb, FirstDb;
    assert [WITH, RESET][1..] == [RESET] && [COMMIT][1..] == [];
    assert Wrap([RESET], []) + [] == after && Wrap([], []) + after == after;
    assert CollectedIn(COMMIT, after, []) == [Found(COMMIT, after)];
    assert Collected([COMMIT], after, []) == [Found(COMMIT, after)];
    assert Collected([WITH, RESET], [], []) == CollectedIn(WITH, after, []) + Collected([RESET], [], []);
  }

  lemma WithReached() returns (p: seq<Config>)
    ensures JustCommitted([WITH, RESET], ENV, p, COMMIT, WITH_REST)
  {
    Shapes();
    assert ExprsUseDb(WITH.items);
    hide Left, UsesDb;
    p := [Run(Then([COMMIT], Exit(true, Then([RESET], Done))))];
    assert [WITH, RESET][1..] == [RESET] && [COMMIT][1..] == [] && p[1..] == [];
    assert StartsWith(WITH, ENV, Then([RESET], Done), p[0]);
    assert IsRun(Run(Then([WITH, RESET], Done)), ENV, p);
  }

  lemma OpenExit(n: Cont)
    ensures !Clean(MarkOld(Then([], Exit(true, n))), ENV)
  {
    var left := Exit(true, MarkOld(n));
    assert MarkOld(Exit(true, n)) == left && !Clean(left, ENV);
    assert MarkOld(Then([], Exit(true, n))) == Then([], left);
    assert Clean(Then([], left), ENV) == Clean(left, ENV);
  }

  /** Leaving a with block that uses db. */
  lemma WithExit()
    ensures Missed([WITH, RESET], ENV)
  {
    Shapes();
    WithLeft();
    WithCollected();
    var p := WithReached();
    OpenExit(Then([RESET], Done));
    assert Passes(Left(WITH_REST), ENV.names);
    hide *;
    Miss([WITH, RESET], ENV, p, WITH_REST);
  }

  ghost function InTry(handlers: seq<Arm>, finalbody: seq<Stmt>, last: seq<Stmt>): Cont {
    Catch(handlers, [], Finally(finalbody, Then(last, Done)))
  }

  function TryThen(jump: Stmt, handlers: seq<Arm>, finalbody: seq<Stmt>, last: seq<Stmt>): seq<Stmt> {
    [Try([COMMIT, jump], handlers, [], finalbody)] + last
  }

  lemma TryLeft(jump: Stmt, handlers: seq<Arm>, finalbody: seq<Stmt>, last: seq<Stmt>)
    ensures Left(Then([jump], InTry(handlers, finalbody, last)))
         == [Entry(jump, [])] + (Wrap(finalbody, []) + Wrap(last, []))
  {
    var n, fin, after := Then(last, Done), Wrap(finalbody, []), Wrap(last, []);
    assert after + [] == after && Wrap([], []) + (fin + after) == fin + after;
    assert Left(n) == after && BreakTarget(n) == [] && Left(Finally(finalbody, n)) == fin + after;
    assert BreakTarget(Finally(finalbody, n)) == [] && Left(InTry(handlers, finalbody, last)) == fin + after;
    assert Wrap([jump], []) == [Entry(jump, [])];
  }

  lemma CommitThen(jump: Stmt, after: seq<Entry>)
    requires jump == Return([]) || jump == Raise([])
    ensures Collected([COMMIT, jump], after, []) == [Found(COMMIT, [Entry(jump, [])] + after)]
  {
    Shapes();
    Leaf(jump);
    assert [COMMIT, jump][1..] == [jump];
    assert Wrap([jump], []) + after == [Entry(jump, [])] + after;
    assert CollectedIn(COMMIT, [Entry(jump, [])] + after, []) == [Found(COMMIT, [Entry(jump, [])] + after)];
    assert Collected([jump], after, []) == [];
  }

  lemma TryCollected(jump: Stmt, handlers: seq<Arm>, finalbody: seq<Stmt>, last: seq<Stmt>)
    requires jump == Return([]) || jump == Raise([])
    requires NoCommit(finalbody) && NoCommit(last) && forall after, brk :: CollectedArms(handlers, after, brk) == []
    ensures Collected(TryThen(jump, handlers, finalbody, last), [], [])
         == [Found(COMMIT, [Entry(jump, [])] + (Wrap(finalbody, []) + Wrap(last, [])))]
  {
    hide UsesDb, CollectedArms;
    var s, after := Try([COMMIT, jump], handlers, [], finalbody), Wrap(last, []);
    var fin := Wrap(finalbody, []) + after;
    assert after + [] == after && Wrap([], []) + fin == fin;
    CommitThen(jump, fin);
    var found := Collected(s.body, fin, []);
    assert !IsCommit(s) && Collected([], fin, []) == [] && Collected(finalbody, after, []) == [];
    assert CollectedIn(s, after, []) == found + [] + [] + [];
    var body := TryThen(jump, handlers, finalbody, last);
    assert body[1..] == last && Collected(last, [], []) == [];
    assert Collected(body, [], []) == CollectedIn(s, after, []) + Collected(last, [], []);
  }

  lemma TryReached(jump: Stmt, handlers: seq<Arm>, finalbody: seq<Stmt>, last: seq<Stmt>) returns (p: seq<Config>)
    ensures JustCommitted(TryThen(jump, handlers, finalbody, last), ENV, p, COMMIT,
                          Then([jump], InTry(handlers, finalbody, last)))
  {
    Shapes();
    hide UsesDb;
    var body, n := TryThen(jump, handlers, finalbody, last), Then(last, Done);
    var s := body[0];
    p := [Run(Then(s.body, InTry(handlers, finalbody, last)))];
    assert body[1..] == last && s.body[1..] == [jump] && p[1..] == [];
    assert Then(body[1..], Done) == n && StartsWith(s, ENV, n, p[0]);
    assert IsRun(Run(Then(body, Done)), ENV, p);
  }

  /** A jump right after the commit at the start of a try: handlers and finally are not walked. */
  lemma TryJump(jump: Stmt, handlers: seq<Arm>, finalbody: seq<Stmt>, last: seq<Stmt>)
    requires jump == Return([]) || jump == Raise([])
    requires NoCommit(finalbody) && NoCommit(last) && forall after, brk :: CollectedArms(handlers, after, brk) == []
    requires var j: Jump := if jump.Return? then Returned else Raised;
             !CleanJump(j, InTry(handlers, finalbody, last), ENV)
    ensures Missed(TryThen(jump, handlers, finalbody, last), ENV)
  {
    var inTry := InTry(handlers, finalbody, last);
    var k := Then([jump], inTry);
    TryLeft(jump, handlers, finalbody, last);
    TryCollected(jump, handlers, finalbody, last);
    var p := TryReached(jump, handlers, finalbody, last);
    assert FirstDb(Left(k)).None?;
    assert !Clean(MarkOld(k), ENV) by {
      assert MarkOld(inTry.next.next) == inTry.next.next && MarkOld(inTry.next) == inTry.next && MarkOld(inTry) == inTry;
      var j: Jump := if jump.Return? then Returned else Raised;
      assert [jump][1..] == [] && !OwnUse(jump);
      assert !CleanJump(j, Then([], inTry), ENV);
    }
    hide *;
    Miss(TryThen(jump, handlers, finalbody, last), ENV, p, k);
  }

  /** A return goes through a finally block that uses db. */
  lemma ReturnUnderFinally()
    ensures Missed([Try([COMMIT, Return([])], [], [], [USE])], ENV)
  {
    Leaf(USE);
    Shapes();
    UnsafeUse(Then([USE], Resume(Returned, Then([], Done))));
    assert !CleanJump(Returned, Finally([USE], Then([], Done)), ENV);
    assert TryThen(Return([]), [], [USE], []) == [Try([COMMIT, Return([])], [], [], [USE])];
    TryJump(Return([]), [], [USE], []);
  }

  lemma NoCommitInArm(arm: Arm)
    requires NoCommit(arm.body)
    ensures forall after, brk :: CollectedArms([arm], after, brk) == []
  {
    assert [arm][1..] == [];
    forall after, brk
      ensures CollectedArms([arm], after, brk) == []
    {
      assert CollectedArms([], after, brk) == [];
      assert Collected(arm.body, after, brk) == [];
    }
  }

  lemma UnsafeArm(arm: Arm, k: Cont)
    requires !Clean(Then(arm.body, k), ENV)
    ensures !CleanJump(Raised, Catch([arm], [], k), ENV)
  {
    assert !CleanArms([arm], k, ENV);
  }

  /** A raise goes on in a handler that uses db. */
  lemma RaiseIntoHandler()
    ensures Missed([Try([COMMIT, Raise([])], [Arm([], [USE])], [], [])], ENV)
  {
    Leaf(USE);
    Shapes();
    var arm, fin := Arm([], [USE]), Finally([], Then([], Done));
    UnsafeUse(Then([USE], fin));
    NoCommitInArm(arm);
    UnsafeArm(arm, fin);
    assert TryThen(Raise([]), [arm], [], []) == [Try([COMMIT, Raise([])], [arm], [], [])];
    TryJump(Raise([]), [arm], [], []);
  }

  /** A handler that ends normally leads behind the try. */
  lemma HandlerEndsNormally()
    ensures Missed([Try([COMMIT, Raise([])], [Arm([], [SKIP])], [], []), USE], ENV)
  {
    Leaf(SKIP);
    Leaf(USE);
    Shapes();
    var arm, n := Arm([], [SKIP]), Then([USE], Done);
    var fin := Finally([], n);
    UnsafeUse(n);
    assert [SKIP][1..] == [] && !OwnUse(SKIP);
    assert !Clean(Then([], n), ENV);
    assert !Clean(fin, ENV);
    assert !Clean(Then([], fin), ENV);
    assert !CleanStart(SKIP, Then([], fin), ENV);
    assert !Clean(Then([SKIP], fin), ENV);
    NoCommitInArm(arm);
    UnsafeArm(arm, fin);
    assert TryThen(Raise([]), [arm], [], [USE]) == [Try([COMMIT, Raise([])], [arm], [], []), USE];
    hide *;
    TryJump(Raise([]), [arm], [], [USE]);
  }

  // ----- a finally block that breaks -----

  const RETURN := Return([])
  const TRY := Try([COMMIT, RETURN], [], [], [Break])
  const TURN := Loop([], [], [TRY], [])

  function AfterReturn(head: Cont): Cont {
    Then([RETURN], Catch([], [], Finally([Break], Then([], head))))
  }

  lemma BreakLeft()
    ensures Left(AfterReturn(Head(TURN, false, Then([USE], Done))))
         == [Entry(RETURN, [Entry(USE, [])]), Entry(Break, [Entry(USE, [])]), Entry(USE, [])]
  {
    var n, after := Then([USE], Done), [Entry(USE, [])];
    var head := Head(TURN, false, n);
    assert Left(Done) == [] && BreakTarget(Done) == [] && Wrap([USE], []) + [] == after;
    assert Left(n) == after;
    assert Left(head) == after && BreakTarget(head) == after;
    var k1 := Then([], head);
    assert Wrap([], after) + after == after;
    assert Left(k1) == after && BreakTarget(k1) == after;
    var k2 := Finally([Break], k1);
    assert Wrap([Break], after) == [Entry(Break, after)];
    assert Left(k2) == [Entry(Break, after)] + after && BreakTarget(k2) == after;
    var k3 := Catch([], [], k2);
    assert Wrap([], after) + Left(k2) == Left(k2);
    assert Left(k3) == Left(k2) && BreakTarget(k3) == after;
    assert Wrap([RETURN], after) == [Entry(RETURN, after)];
  }

  lemma BreakCollected()
    ensures Collected([TURN, USE], [], [])
         == [Found(COMMIT, [Entry(RETURN, [Entry(USE, [])]), Entry(Break, [Entry(USE, [])]), Entry(USE, [])])]
  {
    Shapes();
    Leaf(RETURN);
    Leaf(Break);
    Leaf(USE);
    hide UsesDb;
    var after := [Entry(USE, [])];
    var fin, left := [Entry(Break, after)] + after, [Entry(RETURN, after)] + ([Entry(Break, after)] + after);
    assert left == [Entry(RETURN, after), Entry(Break, after), Entry(USE, [])];
    assert [COMMIT, RETURN][1..] == [RETURN] && Wrap([RETURN], after) + fin == left;
    assert CollectedIn(COMMIT, left, after) == [Found(COMMIT, left)];
    assert Collected([COMMIT, RETURN], fin, after) == [Found(COMMIT, left)];
    assert Wrap([Break], after) + after == fin && Wrap([], after) + fin == fin;
    assert Collected([], fin, after) == [] && CollectedArms([], fin, after) == [];
    assert CollectedIn(TRY, after, after) == [Found(COMMIT, left)];
    assert [TRY][1..] == [] && Wrap([], after) + after == after;
    assert Collected([TRY], after, after) == CollectedIn(TRY, after, after) + Collected([], after, after);
    assert CollectedIn(TURN, after, []) == [Found(COMMIT, left)];
    assert [TURN, USE][1..] == [USE] && Wrap([USE], []) + [] == after;
    assert Collected([TURN, USE], [], []) == CollectedIn(TURN, after, []) + Collected([USE], [], []);
    assert Collected([USE], [], []) == [];
  }

  lemma BreakReached() returns (p: seq<Config>)
    ensures JustCommitted([TURN, USE], ENV, p, COMMIT, AfterReturn(Head(TURN, false, Then([USE], Done))))
  {
    Shapes();
    hide UsesDb;
    var n := Then([USE], Done);
    var head := Head(TURN, false, n);
    var inTry := Catch([], [], Finally([Break], Then([], head)));
    var c1, c2, c3 := Run(head), Run(Then([TRY], head)), Run(Then([COMMIT, RETURN], inTry));
    p := [c1, c2, c3];
    assert [TURN, USE][1..] == [USE] && [TRY][1..] == [] && [COMMIT, RETURN][1..] == [RETURN];
    assert p[1..] == [c2, c3] && [c2, c3][1..] == [c3] && [c3][1..] == [];
    assert StartsWith(TRY, ENV, Then([], head), c3);
    assert IsRun(c2, ENV, [c3]);
    assert IsRun(c1, ENV, [c2, c3]);
    assert StartsWith(TURN, ENV, n, c1);
    assert IsRun(Run(Then([TURN, USE], Done)), ENV, p);
  }

  lemma BreakIsUnsafe()
    ensures !Clean(AfterReturn(Head(TURN, true, Then([USE], Done))), ENV)
  {
    var n := Then([USE], Done);
    UnsafeUse(n);
    var head := Head(TURN, true, n);
    var k := Then([], head);
    assert !CleanJump(Broke, head, ENV);
    assert !CleanJump(Broke, k, ENV);
    assert !CleanJump(Broke, Resume(Returned, k), ENV);
    assert [Break][1..] == [] && !CleanJump(Broke, Then([], Resume(Returned, k)), ENV);
    assert !Clean(Then([Break], Resume(Returned, k)), ENV);
    var inTry := Catch([], [], Finally([Break], k));
    assert !CleanJump(Returned, Finally([Break], k), ENV);
    assert !CleanJump(Returned, inTry, ENV);
    assert [RETURN][1..] == [] && !OwnUse(RETURN);
    assert !CleanJump(Returned, Then([], inTry), ENV);
  }

  /** A finally block that breaks turns a return into a way out of the loop. */
  lemma FinallyBreaks()
    ensures Missed([TURN, USE], ENV)
  {
    var n := Then([USE], Done);
    var head := Head(TURN, false, n);
    var k := AfterReturn(head);
    BreakLeft();
    BreakCollected();
    var p := BreakReached();
    BreakIsUnsafe();
    assert FirstDb(Left(k)).None?;
    assert MarkOld(n) == n;
    assert MarkOld(head) == Head(TURN, true, n);
    assert MarkOld(Then([], head)) == Then([], Head(TURN, true, n));
    assert MarkOld(k) == AfterReturn(Head(TURN, true, n)) by {
      assert MarkOld(Finally([Break], Then([], head))) == Finally([Break], Then([], Head(TURN, true, n)));
    }
    hide *;
    Miss([TURN, USE], ENV, p, k);
  }
}
