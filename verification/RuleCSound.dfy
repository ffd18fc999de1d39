/** What a silent Rule C says about the runs of a function. */
module RuleCSound {
  import opened Wrappers
  import opened PythonAst
  import opened RuleC
  import opened RuleCRuns
  import opened RuleCExact
  import opened RuleCEnds

  // ----- the linter sees what is left to do -----

  /** What the linter takes to be left to do, and the target of a break. */
  ghost function Left(k: Cont): seq<Entry> {
    match k
    case Done => []
    case Then(block, n) => Wrap(block, BreakTarget(n)) + Left(n)
    case Catch(_, orelse, n) => Wrap(orelse, BreakTarget(n)) + Left(n)
    case Finally(block, n) => Wrap(block, BreakTarget(n)) + Left(n)
    case _ => Left(k.next)
  }

  ghost function BreakTarget(k: Cont): seq<Entry> {
    match k
    case Done => []
    case Head(_, _, n) => Left(n)
    case _ => BreakTarget(k.next)
  }

  ghost predicate Subset(found: seq<Found>, all: seq<Found>) {
    forall f | f in found :: f in all
  }

  /** Every commit still to come, in any turn or branch, is among `all`. */
  ghost predicate Covered(k: Cont, all: seq<Found>) {
    match k
    case Done => true
    case Then(block, n) => Subset(Collected(block, Left(n), BreakTarget(n)), all) && Covered(n, all)
    case Head(loop, _, n) =>
      && Subset(Collected(loop.body, Left(n), Left(n)), all)
      && Subset(Collected(loop.orelse, Left(n), BreakTarget(n)), all)
      && Covered(n, all)
    case Catch(handlers, orelse, n) =>
      && Subset(CollectedArms(handlers, Left(n), BreakTarget(n)), all)
      && Subset(Collected(orelse, Left(n), BreakTarget(n)), all)
      && Covered(n, all)
    case Finally(block, n) => Subset(Collected(block, Left(n), BreakTarget(n)), all) && Covered(n, all)
    case _ => Covered(k.next, all)
  }

  lemma {:induction false} CollectedArm(arms: seq<Arm>, i: nat, after: seq<Entry>, brk: seq<Entry>)
    requires i < |arms|
    ensures Subset(Collected(arms[i].body, after, brk), CollectedArms(arms, after, brk))
  {
    if i > 0 {
      CollectedArm(arms[1..], i - 1, after, brk);
    }
  }

  lemma CoveredArm(arms: seq<Arm>, k: Cont, d: Config, all: seq<Found>)
    requires Covered(k, all) && Subset(CollectedArms(arms, Left(k), BreakTarget(k)), all)
    requires EntersArm(arms, k, d)
    ensures Covered(d.k, all)
  {
    var i :| 0 <= i < |arms| && d == Run(Then(arms[i].body, k));
    CollectedArm(arms, i, Left(k), BreakTarget(k));
  }

  lemma {:induction false} CoveredStart(s: Stmt, k: Cont, e: Env, d: Config, all: seq<Found>)
    requires Covered(k, all) && Subset(CollectedIn(s, Left(k), BreakTarget(k)), all)
    requires StartsWith(s, e, k, d)
    ensures Covered(d.k, all)
  {
    if d.k == k {
      return;
    }
    match s
    case Try(body, handlers, orelse, finalbody) =>
      var fin := Finally(finalbody, k);
      assert BreakTarget(fin) == BreakTarget(k) && Left(fin) == Wrap(finalbody, BreakTarget(k)) + Left(k);
      assert Covered(fin, all);
      assert Covered(Catch(handlers, orelse, fin), all);
    case Match(_, cases) =>
      CoveredArm(cases, k, d, all);
    case With(items, body) =>
      assert Left(Exit(ExprsUseDb(items), k)) == Left(k);
    case _ =>
  }

  lemma {:induction false} CoveredStep(c: Config, e: Env, d: Config, all: seq<Found>)
    requires Covered(c.k, all) && Step(c, e, d)
    ensures Covered(d.k, all)
  {
    match c
    case Run(Then(block, k)) =>
      if block != [] {
        var rest := Then(block[1..], k);
        assert Left(rest) == Wrap(block[1..], BreakTarget(k)) + Left(k);
        CoveredStart(block[0], rest, e, d, all);
      }
    case Unwind(j, Catch(handlers, _, k)) =>
      if d != Unwind(j, k) {
        CoveredArm(handlers, k, d, all);
      }
    case Unwind(j, Finally(block, k)) =>
      assert Left(Resume(j, k)) == Left(k);
    case _ =>
  }

  lemma {:induction false} CoveredRun(c: Config, e: Env, p: seq<Config>, all: seq<Found>)
    requires Covered(c.k, all) && IsRun(c, e, p)
    ensures Covered(Last(c, p).k, all)
    decreases |p|
  {
    if p != [] {
      CoveredStep(c, e, p[0], all);
      CoveredRun(p[0], e, p[1..], all);
    }
  }

  /** The run `p` of a function has just executed a commit, with `k` left to do. */
  ghost predicate JustCommitted(body: seq<Stmt>, e: Env, p: seq<Config>, commit: Stmt, k: Cont) {
    var start := Run(Then(body, Done));
    && IsRun(start, e, p)
    && Last(start, p).Run? && Last(start, p).k.Then?
    && var at := Last(start, p).k;
       at.block != [] && at.block[0] == commit && IsCommit(commit) && k == Then(at.block[1..], at.next)
  }

  /** Whichever run reaches a commit, the linter has collected it together with what is left to do. */
  lemma {:induction false} CollectedOnEveryRun(body: seq<Stmt>, e: Env, p: seq<Config>, commit: Stmt, k: Cont)
    requires JustCommitted(body, e, p, commit, k)
    ensures Found(commit, Left(k)) in Collected(body, [], [])
  {
    var start, all := Run(Then(body, Done)), Collected(body, [], []);
    assert Left(Done) == [] && BreakTarget(Done) == [];
    CoveredRun(start, e, p, all);
    var at := Last(start, p).k;
    CommitFirst(at.block, Left(at.next), BreakTarget(at.next));
  }

  // ----- where the linter's walk is enough -----

  /** Break and continue do not leave the statement. */
  ghost predicate Stays(ends: set<Outcome>) {
    Broke !in ends && Continued !in ends
  }

  predicate Jumps(s: Stmt) { s.Break? || s.Continue? || s.Return? || s.Raise? }

  /** From wherever a break or continue leaves the walk, up to its first use of db, the linter would
      accept as well. */
  ghost predicate Onward(rest: seq<Entry>, e: Env) {
    || rest == [] || UsesDb(rest[0].st)
    || ((!Stays(Ends(rest[0].st, e)) ==> Passes(rest[0].brk, e.names) && Onward(rest[0].brk, e))
        && (Jumps(rest[0].st) || Onward(rest[1..], e)))
  }

  ghost predicate WalkPasses(rest: seq<Entry>, e: Env) {
    Passes(rest, e.names) && Onward(rest, e)
  }

  /** An exception may leave the block before it uses db. */
  ghost predicate RaisesBefore(ss: seq<Stmt>, e: Env) {
    ss != [] && !UsesDb(ss[0]) && (Raised in Ends(ss[0], e) || (Normal in Ends(ss[0], e) && RaisesBefore(ss[1..], e)))
  }

  /** Handlers leave db alone, and where they lead to the linter would accept. */
  ghost predicate HandlersPass(arms: seq<Arm>, after: seq<Entry>, brk: seq<Entry>, e: Env) {
    && !ArmsUseDb(arms)
    && (Normal in ArmEnds(arms, e) ==> WalkPasses(after, e))
    && (!Stays(ArmEnds(arms, e)) ==> WalkPasses(brk, e))
  }

  /** What the linter does not walk leaves db alone: tests and the else of loops, the exits of with blocks,
      and, where jumps and exceptions get there, finally blocks and handlers; and where these jump on their
      own account the linter would accept. An exception may come in if `raised`. */
  ghost predicate InFragment(k: Cont, raised: bool, e: Env) {
    match k
    case Done => true
    case Then(block, n) => InFragment(n, raised || RaisesBefore(block, e), e)
    case Head(loop, _, n) =>
      && !ExprsUseDb(loop.each) && !BlockUsesDb(loop.orelse)
      && (!Stays(BlockEnds(loop.orelse, e)) ==> WalkPasses(BreakTarget(n), e))
      && InFragment(n, raised || e.faults || RaisesBefore(loop.orelse, e), e)
    case Exit(usesDb, n) => !usesDb && InFragment(n, raised, e)
    case Catch(handlers, orelse, n) =>
      && (raised ==> HandlersPass(handlers, Left(n), BreakTarget(n), e))
      && InFragment(n, raised || RaisesBefore(orelse, e), e)
    case Finally(block, n) =>
      && !BlockUsesDb(block)
      && (!Stays(BlockEnds(block, e)) ==> WalkPasses(BreakTarget(n), e))
      && InFragment(n, raised || RaisesBefore(block, e), e)
    case Resume(j, n) =>
      && (j.Broke? || j.Continued? ==> WalkPasses(BreakTarget(n), e))
      && InFragment(n, raised || j.Raised?, e)
  }

  /** With fewer exceptions to expect less is asked. */
  lemma {:induction false} FragmentCalmer(k: Cont, more: bool, less: bool, e: Env)
    requires InFragment(k, more, e) && (less ==> more)
    ensures InFragment(k, less, e)
  {
    match k
    case Done =>
    case Then(block, n) => FragmentCalmer(n, more || RaisesBefore(block, e), less || RaisesBefore(block, e), e);
    case Head(loop, _, n) =>
      var own := e.faults || RaisesBefore(loop.orelse, e);
      FragmentCalmer(n, more || own, less || own, e);
    case Exit(_, n) => FragmentCalmer(n, more, less, e);
    case Catch(_, orelse, n) => FragmentCalmer(n, more || RaisesBefore(orelse, e), less || RaisesBefore(orelse, e), e);
    case Finally(block, n) => FragmentCalmer(n, more || RaisesBefore(block, e), less || RaisesBefore(block, e), e);
    case Resume(j, n) => FragmentCalmer(n, more || j.Raised?, less || j.Raised?, e);
  }

  lemma {:induction false} QuietRaises(ss: seq<Stmt>, e: Env)
    requires !BlockUsesDb(ss)
    ensures Raised in BlockEnds(ss, e) ==> RaisesBefore(ss, e)
  {
    if ss != [] {
      BlockEndsAt(ss, e);
      QuietRaises(ss[1..], e);
    }
  }

  // ----- what passes is clean -----

  /** Ends of a quiet block or arm that are good one by one. */
  lemma EndsAreGood(ends: set<Outcome>, good: set<Outcome>)
    requires Normal in ends ==> Normal in good
    requires !Stays(ends) ==> Broke in good && Continued in good
    requires Returned in good && (Raised in ends ==> Raised in good)
    ensures ends <= good
  {
    forall o | o in ends
      ensures o in good
    {
      assert o == Normal || o == Broke || o == Continued || o == Returned || o == Raised;
    }
  }

  /** A jump through a finally block that leaves db alone. */
  lemma FinallyIsClean(j: Jump, block: seq<Stmt>, k: Cont, e: Env)
    requires !BlockUsesDb(block) && CleanJump(j, k, e) && CleanJump(Returned, k, e)
    requires Raised in BlockEnds(block, e) ==> CleanJump(Raised, k, e)
    requires !Stays(BlockEnds(block, e)) ==> CleanJump(Broke, k, e) && CleanJump(Continued, k, e)
    ensures CleanJump(j, Finally(block, k), e)
  {
    var later := Resume(j, k);
    assert CleanJump(j, Finally(block, k), e) == Clean(Then(block, later), e);
    assert forall o: Jump :: CleanJump(o, k, e) ==> CleanJump(o, later, e);
    assert Clean(later, e);
    assert Returned in Good(later, e) && Normal in Good(later, e);
    hide Clean, Ends, BlockEnds, BlockUsesDb;
    QuietBlock(block, later, e);
    EndsAreGood(BlockEnds(block, e), Good(later, e));
  }

  /** Returning, and raising where that is to be expected, never meets db again. */
  lemma {:induction false} LeavingIsClean(k: Cont, raised: bool, e: Env)
    requires InFragment(k, raised, e)
    ensures CleanJump(Returned, MarkOld(k), e) && (raised ==> CleanJump(Raised, MarkOld(k), e))
    decreases k, 0, 0
  {
    match k
    case Done =>
    case Then(block, n) => LeavingIsClean(n, raised || RaisesBefore(block, e), e);
    case Head(loop, _, n) => LeavingIsClean(n, raised || e.faults || RaisesBefore(loop.orelse, e), e);
    case Exit(_, n) => LeavingIsClean(n, raised, e);
    case Catch(handlers, orelse, n) =>
      var inside := raised || RaisesBefore(orelse, e);
      LeavingIsClean(n, inside, e);
      if raised {
        HandlersAreClean(handlers, n, e);
        QuietArms(handlers);
      }
    case Finally(block, n) =>
      var inside := raised || RaisesBefore(block, e);
      LeavingIsClean(n, inside, e);
      QuietRaises(block, e);
      if !Stays(BlockEnds(block, e)) {
        LandingIsClean(n, inside, e);
      }
      FinallyIsClean(Returned, block, MarkOld(n), e);
      if raised {
        FinallyIsClean(Raised, block, MarkOld(n), e);
      }
    case Resume(j, n) => LeavingIsClean(n, raised || j.Raised?, e);
  }

  lemma {:induction false} HandlersAreClean(arms: seq<Arm>, k: Cont, e: Env)
    requires HandlersPass(arms, Left(k), BreakTarget(k), e) && InFragment(k, true, e)
    ensures CleanArms(arms, MarkOld(k), e)
    decreases k, 4, 0
  {
    var n := MarkOld(k);
    LeavingIsClean(k, true, e);
    if Normal in ArmEnds(arms, e) {
      PassingIsClean(k, true, e);
    }
    if !Stays(ArmEnds(arms, e)) {
      LandingIsClean(k, true, e);
    }
    hide *;
    QuietCases(arms, n, e);
    GoodAt(n, e);
    HandlersQuiet(arms, k, e);
    EndsAreGood(ArmEnds(arms, e), Good(n, e));
  }

  lemma HandlersQuiet(arms: seq<Arm>, k: Cont, e: Env)
    requires HandlersPass(arms, Left(k), BreakTarget(k), e)
    ensures !ArmsUseDb(arms)
  {
  }

  lemma GoodAt(k: Cont, e: Env)
    ensures Normal in Good(k, e) <==> Clean(k, e)
    ensures Broke in Good(k, e) <==> CleanJump(Broke, k, e)
    ensures Continued in Good(k, e) <==> CleanJump(Continued, k, e)
    ensures Returned in Good(k, e) <==> CleanJump(Returned, k, e)
    ensures Raised in Good(k, e) <==> CleanJump(Raised, k, e)
  {
    hide Clean, CleanJump;
  }

  /** Standing before a loop, or going on with it: it is left in the end. */
  lemma {:induction false} HeadIsClean(k: Cont, raised: bool, e: Env)
    requires k.Head? && InFragment(k, raised, e) && Clean(MarkOld(k.next), e)
    ensures Clean(MarkOld(k), e)
    decreases k, 0, 1
  {
    var orelse, n := k.loop.orelse, MarkOld(k.next);
    var inside := raised || e.faults || RaisesBefore(orelse, e);
    LeavingIsClean(k.next, inside, e);
    QuietRaises(orelse, e);
    if !Stays(BlockEnds(orelse, e)) {
      LandingIsClean(k.next, inside, e);
    }
    QuietBlock(orelse, n, e);
    GoodAt(n, e);
    EndsAreGood(BlockEnds(orelse, e), Good(n, e));
  }

  /** Break and continue lead to where the linter would accept. */
  lemma {:induction false} LandingIsClean(k: Cont, raised: bool, e: Env)
    requires InFragment(k, raised, e) && WalkPasses(BreakTarget(k), e)
    ensures CleanJump(Broke, MarkOld(k), e) && CleanJump(Continued, MarkOld(k), e)
    decreases k, 1, 0
  {
    match k
    case Done =>
    case Head(loop, _, n) =>
      PassingIsClean(n, raised || e.faults || RaisesBefore(loop.orelse, e), e);
      HeadIsClean(k, raised, e);
    case Finally(block, n) =>
      var inside := raised || RaisesBefore(block, e);
      LandingIsClean(n, inside, e);
      LeavingIsClean(n, inside, e);
      QuietRaises(block, e);
      FinallyIsClean(Broke, block, MarkOld(n), e);
      FinallyIsClean(Continued, block, MarkOld(n), e);
    case Then(block, n) => LandingIsClean(n, raised || RaisesBefore(block, e), e);
    case Exit(_, n) => LandingIsClean(n, raised, e);
    case Catch(_, orelse, n) => LandingIsClean(n, raised || RaisesBefore(orelse, e), e);
    case Resume(j, n) => LandingIsClean(n, raised || j.Raised?, e);
  }

  lemma ResetIsOwnUse(s: Stmt, names: set<string>)
    requires IsReset(s, names)
    ensures OwnUse(s)
  {
    assert ExprUsesDb(Name("db"));
    assert ExprsUseDb(s.value.value.args);
    assert ExprUsesDb(s.value.value);
  }

  /** A statement without db on the walk. */
  lemma QuietIsClean(s: Stmt, rest: Cont, n: Cont, e: Env)
    requires !UsesDb(s) && rest.Then? && rest.next == n
    requires Normal in Ends(s, e) ==> Clean(rest, e)
    requires !Stays(Ends(s, e)) ==> CleanJump(Broke, n, e) && CleanJump(Continued, n, e)
    requires CleanJump(Returned, n, e) && (Raised in Ends(s, e) ==> CleanJump(Raised, n, e))
    ensures CleanStart(s, rest, e)
  {
    assert forall j: Jump :: CleanJump(j, rest, e) == CleanJump(j, n, e);
    hide *;
    GoodAt(rest, e);
    QuietStmt(s, rest, e);
    EndsAreGood(Ends(s, e), Good(rest, e));
  }

  lemma {:induction false} PassingBlockIsClean(ss: seq<Stmt>, k: Cont, raised: bool, e: Env)
    requires InFragment(k, raised || RaisesBefore(ss, e), e)
    requires WalkPasses(Wrap(ss, BreakTarget(k)) + Left(k), e)
    ensures Clean(Then(ss, MarkOld(k)), e)
    decreases k, 3, |ss|
  {
    var brk, inside := BreakTarget(k), raised || RaisesBefore(ss, e);
    var seen := Wrap(ss, brk) + Left(k);
    if ss == [] {
      assert seen == Left(k);
      PassingIsClean(k, inside, e);
    } else {
      var s, rest := ss[0], Then(ss[1..], MarkOld(k));
      assert seen[0] == Entry(s, brk) && seen[1..] == Wrap(ss[1..], brk) + Left(k);
      assert Clean(Then(ss, MarkOld(k)), e) == CleanStart(s, rest, e);
      if UsesDb(s) {
        assert FirstDb(seen) == Some(s);
        ResetIsOwnUse(s, e.names);
      } else {
        LeavingIsClean(k, inside, e);
        if !Stays(Ends(s, e)) {
          LandingIsClean(k, inside, e);
        }
        if Normal in Ends(s, e) {
          assert FirstDb(seen) == FirstDb(seen[1..]);
          FragmentCalmer(k, inside, raised || RaisesBefore(ss[1..], e), e);
          PassingBlockIsClean(ss[1..], k, raised, e);
        }
        QuietIsClean(s, rest, MarkOld(k), e);
      }
    }
  }

  /** What the linter accepts, here and from wherever break and continue lead, is clean. */
  lemma {:induction false} PassingIsClean(k: Cont, raised: bool, e: Env)
    requires InFragment(k, raised, e) && WalkPasses(Left(k), e)
    ensures Clean(MarkOld(k), e)
    decreases k, 2, 0
  {
    match k
    case Done =>
    case Then(block, n) => PassingBlockIsClean(block, n, raised, e);
    case Head(loop, _, n) =>
      PassingIsClean(n, raised || e.faults || RaisesBefore(loop.orelse, e), e);
      HeadIsClean(k, raised, e);
    case Exit(_, n) => PassingIsClean(n, raised, e);
    case Catch(_, orelse, n) => PassingBlockIsClean(orelse, n, raised, e);
    case Finally(block, n) => PassingBlockIsClean(block, n, raised, e);
    case Resume(j, n) =>
      LeavingIsClean(n, raised || j.Raised?, e);
      if j.Broke? || j.Continued? {
        LandingIsClean(n, raised || j.Raised?, e);
      }
  }

  // ----- what is clean passes -----

  /** Up to its first use of db or its first direct jump, every statement can end normally. */
  ghost predicate Flows(ss: seq<Stmt>, e: Env) {
    ss == [] || UsesDb(ss[0]) || Jumps(ss[0]) || (Normal in Ends(ss[0], e) && Flows(ss[1..], e))
  }

  ghost predicate FlowsOn(k: Cont, e: Env) {
    match k
    case Done => true
    case Then(block, n) => Flows(block, e) && FlowsOn(n, e)
    case Head(loop, _, n) => Normal in BlockEnds(loop.orelse, e) && FlowsOn(n, e)
    case Exit(_, n) => FlowsOn(n, e)
    case Catch(_, orelse, n) => Flows(orelse, e) && FlowsOn(n, e)
    case Finally(block, n) => Flows(block, e) && Normal in BlockEnds(block, e) && FlowsOn(n, e)
    case Resume(_, _) => false
  }

  /** The statement the walk stops at uses db by its own expressions, not just somewhere inside. */
  predicate UsesItself(rest: seq<Entry>) {
    FirstDb(rest).None? || OwnUse(FirstDb(rest).value)
  }

  /** So it is from wherever break and continue lead. */
  ghost predicate UsesOnward(rest: seq<Entry>, e: Env) {
    || rest == [] || UsesDb(rest[0].st)
    || ((!Stays(Ends(rest[0].st, e)) ==> UsesItself(rest[0].brk) && UsesOnward(rest[0].brk, e))
        && (Jumps(rest[0].st) || UsesOnward(rest[1..], e)))
  }

  /** A jump that is clean comes, through quiet finally blocks, to a loop that is left cleanly. */
  lemma {:induction false} CleanLandingPasses(j: Jump, k: Cont, e: Env)
    requires InFragment(k, false, e) && FlowsOn(k, e) && UsesItself(BreakTarget(k))
    requires (j.Broke? || j.Continued?) && CleanJump(j, MarkOld(k), e)
    ensures Passes(BreakTarget(k), e.names) && (UsesOnward(BreakTarget(k), e) ==> Onward(BreakTarget(k), e))
    decreases k, 0, 0
  {
    match k
    case Done =>
    case Head(loop, _, n) =>
      FragmentCalmer(n, e.faults || RaisesBefore(loop.orelse, e), false, e);
      if j.Continued? {
        CleanHead(k, e);
      }
      CleanPasses(n, e);
    case Finally(block, n) =>
      FragmentCalmer(n, RaisesBefore(block, e), false, e);
      assert CleanJump(j, MarkOld(k), e) == Clean(Then(block, Resume(j, MarkOld(n))), e);
      QuietBlock(block, Resume(j, MarkOld(n)), e);
      assert Normal in Good(Resume(j, MarkOld(n)), e);
      CleanLandingPasses(j, n, e);
    case Then(block, n) =>
      FragmentCalmer(n, RaisesBefore(block, e), false, e);
      CleanLandingPasses(j, n, e);
    case Exit(_, n) => CleanLandingPasses(j, n, e);
    case Catch(_, orelse, n) =>
      FragmentCalmer(n, RaisesBefore(orelse, e), false, e);
      CleanLandingPasses(j, n, e);
  }

  /** A loop that is clean to stand before is followed by what is clean. */
  lemma CleanHead(k: Cont, e: Env)
    requires k.Head? && InFragment(k, false, e) && FlowsOn(k, e) && Clean(MarkOld(k), e)
    ensures Clean(MarkOld(k.next), e)
  {
    var n := MarkOld(k.next);
    assert MarkOld(k) == Head(k.loop, true, n);
    assert Clean(Then(k.loop.orelse, n), e);
    QuietBlock(k.loop.orelse, n, e);
    GoodAt(n, e);
  }

  lemma {:induction false} CleanBlockPasses(ss: seq<Stmt>, k: Cont, e: Env)
    requires Flows(ss, e) && InFragment(k, false, e) && FlowsOn(k, e)
    requires Clean(Then(ss, MarkOld(k)), e) && UsesItself(Wrap(ss, BreakTarget(k)) + Left(k))
    ensures var seen := Wrap(ss, BreakTarget(k)) + Left(k);
            Passes(seen, e.names) && (UsesOnward(seen, e) ==> Onward(seen, e))
    decreases k, 3, |ss|
  {
    var brk := BreakTarget(k);
    var seen := Wrap(ss, brk) + Left(k);
    if ss == [] {
      assert seen == Left(k);
      CleanPasses(k, e);
    } else {
      var s, rest := ss[0], Then(ss[1..], MarkOld(k));
      assert seen[0] == Entry(s, brk) && seen[1..] == Wrap(ss[1..], brk) + Left(k);
      assert CleanStart(s, rest, e);
      if UsesDb(s) {
        assert FirstDb(seen) == Some(s);
      } else {
        QuietStmt(s, rest, e);
        if !Stays(Ends(s, e)) && (s.Break? || UsesOnward(seen, e)) {
          EscapeLands(s, rest, k, e);
        }
        if !Jumps(s) {
          assert Normal in Good(rest, e);
          assert FirstDb(seen) == FirstDb(seen[1..]);
          CleanBlockPasses(ss[1..], k, e);
        }
      }
    }
  }

  /** A statement that may break or continue, all of whose ends are good. */
  lemma {:induction false} EscapeLands(s: Stmt, rest: Cont, k: Cont, e: Env)
    requires InFragment(k, false, e) && FlowsOn(k, e) && UsesItself(BreakTarget(k))
    requires rest.Then? && rest.next == MarkOld(k) && !Stays(Ends(s, e)) && Ends(s, e) <= Good(rest, e)
    ensures Passes(BreakTarget(k), e.names) && (UsesOnward(BreakTarget(k), e) ==> Onward(BreakTarget(k), e))
    decreases k, 1, 0
  {
    var j: Jump := if Broke in Ends(s, e) then Broke else Continued;
    assert j in Good(rest, e);
    assert CleanJump(j, rest, e) == CleanJump(j, MarkOld(k), e);
    CleanLandingPasses(j, k, e);
  }

  lemma {:induction false} CleanPasses(k: Cont, e: Env)
    requires InFragment(k, false, e) && FlowsOn(k, e) && Clean(MarkOld(k), e) && UsesItself(Left(k))
    ensures Passes(Left(k), e.names) && (UsesOnward(Left(k), e) ==> Onward(Left(k), e))
    decreases k, 2, 0
  {
    match k
    case Done =>
    case Then(block, n) =>
      FragmentCalmer(n, RaisesBefore(block, e), false, e);
      CleanBlockPasses(block, n, e);
    case Head(loop, _, n) =>
      FragmentCalmer(n, e.faults || RaisesBefore(loop.orelse, e), false, e);
      CleanHead(k, e);
      CleanPasses(n, e);
    case Exit(_, n) => CleanPasses(n, e);
    case Catch(_, orelse, n) =>
      FragmentCalmer(n, RaisesBefore(orelse, e), false, e);
      CleanBlockPasses(orelse, n, e);
    case Finally(block, n) =>
      FragmentCalmer(n, RaisesBefore(block, e), false, e);
      CleanBlockPasses(block, n, e);
  }

  // ----- exactly when the linter is right -----

  /** What passes, here and from wherever break and continue lead, is safe; and where nothing on these
      walks bars the way and each stops, if it does, at a statement that uses db itself, only that is. */
  lemma {:induction false} WalkExactlySafe(k: Cont, e: Env)
    requires InFragment(k, false, e)
    ensures WalkPasses(Left(k), e) ==> Safe(Run(MarkOld(k)), e)
    ensures FlowsOn(k, e) && UsesItself(Left(k)) && UsesOnward(Left(k), e) ==>
              (WalkPasses(Left(k), e) <==> Safe(Run(MarkOld(k)), e))
  {
    CleanExactlySafe(MarkOld(k), e);
    if WalkPasses(Left(k), e) {
      PassingIsClean(k, false, e);
    } else if FlowsOn(k, e) && UsesItself(Left(k)) && Clean(MarkOld(k), e) {
      CleanPasses(k, e);
    }
  }

  /** No false alarms: where break and continue lead to what passes, and nothing bars the way, the linter
      accepts exactly what is safe and where its walk stops, if it does, at a statement that uses db
      itself. Where it stops at a compound statement with db inside only, or at a nested function, it
      reports whatever the runs do. */
  lemma {:induction false} PassesExactlySafe(k: Cont, e: Env)
    requires InFragment(k, false, e) && Onward(Left(k), e)
    ensures Passes(Left(k), e.names) ==> Safe(Run(MarkOld(k)), e) && UsesItself(Left(k))
    ensures FlowsOn(k, e) ==>
              (Passes(Left(k), e.names) <==> Safe(Run(MarkOld(k)), e) && UsesItself(Left(k)))
  {
    CleanExactlySafe(MarkOld(k), e);
    if Passes(Left(k), e.names) {
      PassingIsClean(k, false, e);
      if FirstDb(Left(k)).Some? {
        ResetIsOwnUse(FirstDb(Left(k)).value, e.names);
      }
    } else if FlowsOn(k, e) && UsesItself(Left(k)) && Clean(MarkOld(k), e) {
      CleanPasses(k, e);
    }
  }

  /** At a continue the linter always accepts. It is right when it would accept behind the loop as well,
      and, where that walk can be followed, only then. */
  lemma {:induction false} ContinueIsRight(ss: seq<Stmt>, k: Cont, e: Env)
    requires ss != [] && ss[0].Continue? && InFragment(k, false, e)
    ensures Passes(Left(Then(ss, k)), e.names)
    ensures var brk, safe := BreakTarget(k), Safe(Run(MarkOld(Then(ss, k))), e);
            && (WalkPasses(brk, e) ==> safe)
            && (FlowsOn(k, e) && UsesItself(brk) && UsesOnward(brk, e) ==> (safe <==> WalkPasses(brk, e)))
  {
    var n := MarkOld(k);
    assert Left(Then(ss, k))[0] == Entry(ss[0], BreakTarget(k));
    var rest := Then(ss[1..], n);
    assert MarkOld(Then(ss, k)) == Then(ss, n) && Clean(Then(ss, n), e) == CleanStart(ss[0], rest, e);
    assert CleanStart(ss[0], rest, e) == CleanJump(Continued, rest, e) == CleanJump(Continued, n, e);
    CleanExactlySafe(Then(ss, n), e);
    if WalkPasses(BreakTarget(k), e) {
      LandingIsClean(k, false, e);
    }
    if FlowsOn(k, e) && UsesItself(BreakTarget(k)) && CleanJump(Continued, n, e) {
      CleanLandingPasses(Continued, k, e);
    }
  }

  /** A break or continue inside a statement behind the commit is not followed. Where the rest passes, the
      linter is right when it would accept behind the loop as well, and, where that walk can be followed,
      only then. */
  lemma {:induction false} EscapeIsRight(ss: seq<Stmt>, k: Cont, e: Env)
    requires ss != [] && !UsesDb(ss[0]) && !Jumps(ss[0]) && !Stays(Ends(ss[0], e))
    requires InFragment(Then(ss, k), false, e) && WalkPasses(Left(Then(ss[1..], k)), e)
    ensures Passes(Left(Then(ss, k)), e.names)
    ensures var brk, safe := BreakTarget(k), Safe(Run(MarkOld(Then(ss, k))), e);
            && (WalkPasses(brk, e) ==> safe)
            && (FlowsOn(k, e) && UsesItself(brk) && UsesOnward(brk, e) ==> (safe <==> WalkPasses(brk, e)))
  {
    var n, seen := MarkOld(k), Left(Then(ss, k));
    var rest := Then(ss[1..], n);
    assert seen[0] == Entry(ss[0], BreakTarget(k)) && seen[1..] == Left(Then(ss[1..], k));
    assert FirstDb(seen) == FirstDb(seen[1..]);
    CleanExactlySafe(Then(ss, n), e);
    assert MarkOld(Then(ss, k)) == Then(ss, n);
    if WalkPasses(BreakTarget(k), e) {
      assert Onward(seen, e);
      PassingIsClean(Then(ss, k), false, e);
    }
    if FlowsOn(k, e) && UsesItself(BreakTarget(k)) && Clean(Then(ss, n), e) {
      FragmentCalmer(k, RaisesBefore(ss, e), false, e);
      QuietStmt(ss[0], rest, e);
      EscapeLands(ss[0], rest, k, e);
    }
  }
}
