/** How statements end, and what that says about those that never mention db. */
module RuleCEnds {
  import opened PythonAst
  import opened RuleCRuns
  import opened RuleCExact

  // ----- how a statement may end -----

  /** The ways a statement may end. */
  ghost function Ends(s: Stmt, e: Env): set<Outcome>
    decreases s, 0
  {
    match s
    case Break => {Broke}
    case Continue => {Continued}
    case Return(_) => {Returned} + Fault(e)
    case Raise(_) => {Raised}
    case If(_, body, orelse) => Fault(e) + BlockEnds(body, e) + BlockEnds(orelse, e)
    case Loop(_, _, body, orelse) => Fault(e) + BlockEnds(orelse, e) + LoopEnds(BlockEnds(body, e))
    case With(_, body) => Fault(e) + BlockEnds(body, e)
    case Try(body, handlers, orelse, finalbody) =>
      var b := BlockEnds(body, e);
      var before := (b - {Normal})
                    + (if Normal in b then BlockEnds(orelse, e) else {})
                    + (if Raised in b then ArmEnds(handlers, e) else {});
      Fault(e) + Finish(before, BlockEnds(finalbody, e))
    case Match(_, cases) => Fault(e) + {Normal} + ArmEnds(cases, e)
    case _ => Fault(e) + {Normal}
  }

  ghost function Fault(e: Env): set<Outcome> { if e.faults then {Raised} else {} }

  /** Ends of a loop that its body causes. */
  ghost function LoopEnds(body: set<Outcome>): set<Outcome> {
    (if Broke in body then {Normal} else {}) + body * {Returned, Raised}
  }

  /** A finally block keeps the way its try ended unless it jumps itself. */
  ghost function Finish(before: set<Outcome>, fin: set<Outcome>): set<Outcome> {
    if before == {} then {} else (fin - {Normal}) + (if Normal in fin then before else {})
  }

  ghost function BlockEnds(ss: seq<Stmt>, e: Env): set<Outcome>
    decreases ss, 1
  {
    if ss == [] then {Normal}
    else
      var first := Ends(ss[0], e);
      (first - {Normal}) + (if Normal in first then BlockEnds(ss[1..], e) else {})
  }

  ghost function ArmEnds(arms: seq<Arm>, e: Env): set<Outcome>
    decreases arms, 0
  {
    if arms == [] then {} else BlockEnds(arms[0].body, e) + ArmEnds(arms[1..], e)
  }

  // ----- statements without db -----

  /** The ways to reach `k` after which nothing bad happens. */
  ghost function Good(k: Cont, e: Env): (good: set<Outcome>)
    ensures forall o :: o in good <==> CleanAfter(o, k, e)
  {
    set o: Outcome | CleanAfter(o, k, e)
  }

  lemma GoodThen(ss: seq<Stmt>, k: Cont, e: Env)
    ensures Good(Then(ss, k), e) == (Good(k, e) - {Normal}) + (if Clean(Then(ss, k), e) then {Normal} else {})
  {
  }

  lemma GoodExit(k: Cont, e: Env)
    ensures Good(Exit(false, k), e) == Good(k, e)
  {
  }

  lemma GoodAgain(loop: LoopStmt, k: Cont, e: Env)
    ensures Good(Head(loop, true, k), e)
         == Good(k, e) * {Returned, Raised} + (if Clean(k, e) then {Broke} else {})
            + (if Clean(Head(loop, true, k), e) then {Normal, Continued} else {})
  {
  }

  lemma GoodResume(j: Jump, k: Cont, e: Env)
    ensures Good(Resume(j, k), e) == (Good(k, e) - {Normal}) + (if j in Good(k, e) then {Normal} else {})
  {
  }

  lemma GoodCatch(handlers: seq<Arm>, orelse: seq<Stmt>, k: Cont, e: Env)
    requires !ArmExprsUseDb(handlers)
    ensures Good(Catch(handlers, orelse, k), e)
         == (Good(k, e) - {Normal, Raised}) + (if Clean(Then(orelse, k), e) then {Normal} else {})
            + (if CleanArms(handlers, k, e) then Good(k, e) * {Raised} else {})
  {
  }

  lemma {:induction false} QuietArms(arms: seq<Arm>)
    requires !ArmsUseDb(arms)
    ensures !ArmExprsUseDb(arms)
  {
    if arms != [] {
      QuietArms(arms[1..]);
    }
  }

  lemma BlockEndsAt(ss: seq<Stmt>, e: Env)
    requires ss != []
    ensures var first := Ends(ss[0], e);
            BlockEnds(ss, e) == (first - {Normal}) + (if Normal in first then BlockEnds(ss[1..], e) else {})
  {
    hide Ends;
  }

  /** A block that never mentions db is clean exactly when each of its ends is good. */
  lemma {:induction false} QuietBlock(ss: seq<Stmt>, k: Cont, e: Env)
    requires !BlockUsesDb(ss)
    ensures Clean(Then(ss, k), e) <==> BlockEnds(ss, e) <= Good(k, e)
    decreases ss, 2
  {
    if ss == [] {
      assert BlockEnds(ss, e) == {Normal};
    } else {
      var rest := Then(ss[1..], k);
      assert Clean(Then(ss, k), e) == CleanStart(ss[0], rest, e);
      assert !UsesDb(ss[0]) && !BlockUsesDb(ss[1..]);
      hide *;
      BlockEndsAt(ss, e);
      QuietStmt(ss[0], rest, e);
      QuietBlock(ss[1..], k, e);
      GoodThen(ss[1..], k, e);
    }
  }

  lemma StartsAt(s: Stmt, k: Cont, e: Env)
    requires !OwnUse(s) && (s.If? || s.Loop? || s.With? || s.Try? || s.Match?)
    ensures CleanStart(s, k, e) <==> Fault(e) <= Good(k, e) && CleanInside(s, k, e)
  {
    hide Clean, CleanInside, CleanJump;
  }

  lemma EndsAt(s: Stmt, e: Env)
    ensures s.If? ==> Ends(s, e) == Fault(e) + BlockEnds(s.body, e) + BlockEnds(s.orelse, e)
    ensures s.Loop? ==> Ends(s, e) == Fault(e) + BlockEnds(s.orelse, e) + LoopEnds(BlockEnds(s.body, e))
    ensures s.With? ==> Ends(s, e) == Fault(e) + BlockEnds(s.body, e)
    ensures s.Try? ==> Ends(s, e) == Fault(e) + Finish(BeforeFinally(s, e), BlockEnds(s.finalbody, e))
    ensures s.Match? ==> Ends(s, e) == Fault(e) + {Normal} + ArmEnds(s.cases, e)
  {
    hide BlockEnds, ArmEnds;
  }

  lemma QuietParts(s: Stmt)
    requires !UsesDb(s)
    ensures !OwnUse(s)
    ensures s.If? || s.Loop? ==> !BlockUsesDb(s.body) && !BlockUsesDb(s.orelse)
    ensures s.Loop? ==> !ExprsUseDb(s.each)
    ensures s.With? ==> !ExprsUseDb(s.items) && !BlockUsesDb(s.body)
    ensures s.Try? ==>
              !BlockUsesDb(s.body) && !ArmsUseDb(s.handlers) && !BlockUsesDb(s.orelse) && !BlockUsesDb(s.finalbody)
    ensures s.Match? ==> !ArmsUseDb(s.cases)
  {
    OwnUseUses(s);
  }

  /** The same for one statement. */
  lemma {:induction false} QuietStmt(s: Stmt, k: Cont, e: Env)
    requires !UsesDb(s)
    ensures CleanStart(s, k, e) <==> Ends(s, e) <= Good(k, e)
    decreases s, 3
  {
    QuietParts(s);
    match s
    case If(_, body, orelse) =>
      hide Clean, CleanArms, Ends, BlockEnds, ArmEnds, Good, UsesDb;
      StartsAt(s, k, e);
      EndsAt(s, e);
      QuietBlock(body, k, e);
      QuietBlock(orelse, k, e);
    case Loop(_, _, _, _) => QuietLoop(s, k, e);
    case With(_, body) =>
      hide Clean, CleanArms, Ends, BlockEnds, ArmEnds, Good, UsesDb;
      StartsAt(s, k, e);
      EndsAt(s, e);
      QuietBlock(body, Exit(false, k), e);
      GoodExit(k, e);
    case Try(_, _, _, _) => QuietTry(s, k, e);
    case Match(_, cases) =>
      assert Normal in Good(k, e) <==> Clean(k, e);
      hide Clean, CleanArms, Ends, BlockEnds, ArmEnds, Good, UsesDb;
      StartsAt(s, k, e);
      EndsAt(s, e);
      QuietCases(cases, k, e);
    case _ => QuietLeaf(s, k, e);
  }

  lemma QuietLeaf(s: Stmt, k: Cont, e: Env)
    requires !OwnUse(s) && !s.If? && !s.Loop? && !s.With? && !s.Try? && !s.Match?
    ensures CleanStart(s, k, e) <==> Ends(s, e) <= Good(k, e)
  {
    hide Clean, CleanJump;
  }

  lemma {:induction false} QuietCases(arms: seq<Arm>, k: Cont, e: Env)
    requires !ArmsUseDb(arms)
    ensures CleanArms(arms, k, e) <==> ArmEnds(arms, e) <= Good(k, e)
    decreases arms, 0
  {
    if arms != [] {
      QuietBlock(arms[0].body, k, e);
      QuietCases(arms[1..], k, e);
      hide BlockEnds, Clean, Good;
    }
  }

  lemma {:induction false} QuietLoop(s: Stmt, k: Cont, e: Env)
    requires s.Loop? && !UsesDb(s)
    ensures CleanStart(s, k, e) <==> Ends(s, e) <= Good(k, e)
    decreases s, 0
  {
    QuietParts(s);
    var again := Head(s, true, k);
    HeadAt(s, k, e);
    hide Clean, CleanArms, Ends, BlockEnds, ArmEnds, Good, UsesDb, LoopEnds;
    StartsAt(s, k, e);
    EndsAt(s, e);
    QuietBlock(s.orelse, k, e);
    QuietBlock(s.body, again, e);
    GoodAgain(s, k, e);
    if Clean(again, e) {
      LoopIsGood(BlockEnds(s.body, e), Good(k, e), Good(again, e));
    }
  }

  lemma HeadAt(loop: LoopStmt, k: Cont, e: Env)
    requires !ExprsUseDb(loop.each)
    ensures var again := Head(loop, true, k);
            && (Clean(again, e) <==> Clean(Then(loop.orelse, k), e) && Fault(e) <= Good(k, e))
            && (Clean(Head(loop, false, k), e) <==> Clean(again, e) && Clean(Then(loop.body, again), e))
  {
  }

  lemma LoopIsGood(body: set<Outcome>, good: set<Outcome>, again: set<Outcome>)
    requires again == good * {Returned, Raised} + (if Normal in good then {Broke} else {}) + {Normal, Continued}
    ensures body <= again <==> LoopEnds(body) <= good
  {
    if body <= again {
      assert Broke in body ==> Broke in again;
    } else {
      var o :| o in body && o !in again;
      assert o == Broke ==> Normal in LoopEnds(body);
      assert o != Broke ==> o in LoopEnds(body);
    }
  }

  /** Going through a finally block. */
  lemma {:induction false} QuietFinally(o: Outcome, block: seq<Stmt>, k: Cont, e: Env)
    requires !BlockUsesDb(block)
    ensures o in Good(Finally(block, k), e) <==> Finish({o}, BlockEnds(block, e)) <= Good(k, e)
    decreases block, 3
  {
    if o.Normal? {
      assert o in Good(Finally(block, k), e) <==> Clean(Then(block, k), e);
      hide *;
      QuietBlock(block, k, e);
      FinishOne(o, BlockEnds(block, e), Good(k, e), Good(k, e));
    } else {
      var j: Jump := o;
      assert o in Good(Finally(block, k), e) <==> Clean(Then(block, Resume(j, k)), e);
      hide *;
      QuietBlock(block, Resume(j, k), e);
      GoodResume(j, k, e);
      FinishOne(o, BlockEnds(block, e), Good(k, e), Good(Resume(j, k), e));
    }
  }

  lemma FinishOne(o: Outcome, f: set<Outcome>, good: set<Outcome>, later: set<Outcome>)
    requires later == (good - {Normal}) + (if o in good then {Normal} else {})
    ensures Finish({o}, f) <= good <==> f <= later
  {
  }

  /** The ways the part of a try before its finally block may end. */
  ghost function BeforeFinally(s: Stmt, e: Env): set<Outcome>
    requires s.Try?
  {
    var b := BlockEnds(s.body, e);
    (b - {Normal})
    + (if Normal in b then BlockEnds(s.orelse, e) else {})
    + (if Raised in b then ArmEnds(s.handlers, e) else {})
  }

  lemma {:induction false} QuietTry(s: Stmt, k: Cont, e: Env)
    requires s.Try? && !UsesDb(s)
    ensures CleanStart(s, k, e) <==> Ends(s, e) <= Good(k, e)
    decreases s, 1
  {
    QuietParts(s);
    var fin, f := Finally(s.finalbody, k), BlockEnds(s.finalbody, e);
    assert CleanInside(s, k, e) == Clean(Then(s.body, Catch(s.handlers, s.orelse, fin)), e);
    hide *;
    StartsAt(s, k, e);
    EndsAt(s, e);
    QuietBeforeFinally(s, fin, e);
    forall o: Outcome
      ensures o in Good(fin, e) <==> Finish({o}, f) <= Good(k, e)
    {
      QuietFinally(o, s.finalbody, k, e);
    }
    FinishAll(BeforeFinally(s, e), f, Good(fin, e), Good(k, e));
  }

  lemma FinishAll(before: set<Outcome>, f: set<Outcome>, later: set<Outcome>, good: set<Outcome>)
    requires forall o :: o in later <==> Finish({o}, f) <= good
    ensures Finish(before, f) <= good <==> before <= later
  {
    if before <= later {
      forall a | a in Finish(before, f)
        ensures a in good
      {
        var o :| o in before;
        assert a in Finish({o}, f) || a in Finish({a}, f);
      }
    }
    if Finish(before, f) <= good {
      forall o | o in before
        ensures o in later
      {
        assert Finish({o}, f) <= Finish(before, f);
      }
    }
  }

  lemma {:induction false} QuietBeforeFinally(s: Stmt, fin: Cont, e: Env)
    requires s.Try? && !UsesDb(s) && fin.Finally?
    ensures Clean(Then(s.body, Catch(s.handlers, s.orelse, fin)), e) <==> BeforeFinally(s, e) <= Good(fin, e)
    decreases s, 0
  {
    QuietParts(s);
    hide Clean, CleanJump, CleanArms, UsesDb, BlockEnds, ArmEnds, BlockUsesDb, ArmsUseDb, Good;
    var inTry := Catch(s.handlers, s.orelse, fin);
    QuietBlock(s.body, inTry, e);
    QuietBlock(s.orelse, fin, e);
    QuietArms(s.handlers);
    QuietCases(s.handlers, fin, e);
    GoodCatch(s.handlers, s.orelse, fin, e);
  }
}
