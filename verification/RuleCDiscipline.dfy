/** Functions on which a silent Rule C can be trusted, told from their text. */
module RuleCDiscipline {
  import opened Wrappers
  import opened PythonAst
  import opened RuleC
  import opened RuleCRuns
  import opened RuleCExact
  import opened RuleCEnds
  import opened RuleCSound

  // ----- what stands around the commits -----

  /** A commit outside nested definitions. */
  ghost predicate HasCommit(s: Stmt)
    decreases s, 0
  {
    IsCommit(s) ||
    match s
    case If(_, body, orelse) => BlockHasCommit(body) || BlockHasCommit(orelse)
    case Loop(_, _, body, orelse) => BlockHasCommit(body) || BlockHasCommit(orelse)
    case With(_, body) => BlockHasCommit(body)
    case Try(body, handlers, orelse, finalbody) =>
      BlockHasCommit(body) || ArmsHaveCommit(handlers) || BlockHasCommit(orelse) || BlockHasCommit(finalbody)
    case Match(_, cases) => ArmsHaveCommit(cases)
    case _ => false
  }

  ghost predicate BlockHasCommit(ss: seq<Stmt>)
    decreases ss, 1
  {
    ss != [] && (HasCommit(ss[0]) || BlockHasCommit(ss[1..]))
  }

  ghost predicate ArmsHaveCommit(arms: seq<Arm>)
    decreases arms, 0
  {
    arms != [] && (BlockHasCommit(arms[0].body) || ArmsHaveCommit(arms[1..]))
  }

  /** A commit in a try, but not in its finally block. */
  ghost predicate TryHasCommit(s: Stmt)
    requires s.Try?
  {
    BlockHasCommit(s.body) || ArmsHaveCommit(s.handlers) || BlockHasCommit(s.orelse)
  }

  /** After a commit in it, and before db is used again, an exception may leave the statement. */
  ghost predicate Risky(s: Stmt, e: Env)
    decreases s, 0
  {
    match s
    case If(_, body, orelse) => BlockRisky(body, e) || BlockRisky(orelse, e)
    case Loop(_, _, body, orelse) =>
      || (BlockHasCommit(body) && (e.faults || RaisesBefore(orelse, e)))
      || BlockRisky(body, e) || BlockRisky(orelse, e)
    case With(_, body) => BlockRisky(body, e)
    case Try(body, handlers, orelse, finalbody) =>
      || BlockRisky(body, e) || ArmsRisky(handlers, e) || BlockRisky(orelse, e)
      || (BlockHasCommit(body) && RaisesBefore(orelse, e))
      || (TryHasCommit(s) && RaisesBefore(finalbody, e))
      || BlockHasCommit(finalbody)
    case Match(_, cases) => ArmsRisky(cases, e)
    case _ => false
  }

  ghost predicate BlockRisky(ss: seq<Stmt>, e: Env)
    decreases ss, 1
  {
    ss != [] && (Risky(ss[0], e) || (HasCommit(ss[0]) && RaisesBefore(ss[1..], e)) || BlockRisky(ss[1..], e))
  }

  ghost predicate ArmsRisky(arms: seq<Arm>, e: Env)
    decreases arms, 0
  {
    arms != [] && (BlockRisky(arms[0].body, e) || ArmsRisky(arms[1..], e))
  }

  // ----- the discipline -----

  /** Around a commit: tests and the else of its loops, the exits of its with blocks and the finally
      blocks of its tries leave db alone, and so do the handlers that an exception behind it can reach;
      and wherever break and continue lead from there the linter would accept. As in the collection of
      the commits, `after` follows the block and `brk` is where a break leads. */
  ghost predicate Disciplined(ss: seq<Stmt>, after: seq<Entry>, brk: seq<Entry>, e: Env)
    decreases ss, 1
  {
    ss == [] || (DisciplinedStmt(ss[0], Wrap(ss[1..], brk) + after, brk, e) && Disciplined(ss[1..], after, brk, e))
  }

  ghost predicate DisciplinedStmt(s: Stmt, rest: seq<Entry>, brk: seq<Entry>, e: Env)
    decreases s, 0
  {
    (IsCommit(s) ==> Onward(rest, e)) &&
    match s
    case If(_, body, orelse) => Disciplined(body, rest, brk, e) && Disciplined(orelse, rest, brk, e)
    case Loop(_, each, body, orelse) =>
      && Disciplined(body, rest, rest, e) && Disciplined(orelse, rest, brk, e)
      && (BlockHasCommit(body) ==> !ExprsUseDb(each) && QuietTail(orelse, brk, e))
    case With(items, body) => Disciplined(body, rest, brk, e) && (BlockHasCommit(body) ==> !ExprsUseDb(items))
    case Try(body, handlers, orelse, finalbody) =>
      var fin := Wrap(finalbody, brk) + rest;
      && Disciplined(body, Wrap(orelse, brk) + fin, brk, e) && DisciplinedArms(handlers, fin, brk, e)
      && Disciplined(orelse, fin, brk, e) && Disciplined(finalbody, rest, brk, e)
      && (BlockRisky(body, e) ==> HandlersPass(handlers, fin, brk, e))
      && (TryHasCommit(s) ==> QuietTail(finalbody, brk, e))
      && (BlockHasCommit(finalbody) ==> WalkPasses(brk, e))
    case Match(_, cases) => DisciplinedArms(cases, rest, brk, e)
    case _ => true
  }

  ghost predicate DisciplinedArms(arms: seq<Arm>, after: seq<Entry>, brk: seq<Entry>, e: Env)
    decreases arms, 0
  {
    arms == [] || (Disciplined(arms[0].body, after, brk, e) && DisciplinedArms(arms[1..], after, brk, e))
  }

  /** A block that leaves db alone and breaks or continues only to where the linter would accept. */
  ghost predicate QuietTail(block: seq<Stmt>, brk: seq<Entry>, e: Env) {
    !BlockUsesDb(block) && (!Stays(BlockEnds(block, e)) ==> WalkPasses(brk, e))
  }

  // ----- it is kept on every run -----

  /** Every frame with a commit in it is disciplined, and all below it belongs to the fragment. */
  ghost predicate Held(k: Cont, e: Env) {
    match k
    case Done => true
    case Then(block, n) =>
      && Held(n, e) && Disciplined(block, Left(n), BreakTarget(n), e)
      && (BlockHasCommit(block) ==> InFragment(n, BlockRisky(block, e), e))
    case Head(loop, _, n) =>
      && Held(n, e) && DisciplinedStmt(loop, Left(n), BreakTarget(n), e)
      && (HasCommit(loop) ==> InFragment(n, Risky(loop, e), e))
    case Catch(handlers, orelse, n) =>
      && Held(n, e)
      && DisciplinedArms(handlers, Left(n), BreakTarget(n), e) && Disciplined(orelse, Left(n), BreakTarget(n), e)
      && (ArmsHaveCommit(handlers) ==> InFragment(n, ArmsRisky(handlers, e), e))
      && (BlockHasCommit(orelse) ==> InFragment(n, BlockRisky(orelse, e), e))
    case Finally(block, n) =>
      && Held(n, e) && Disciplined(block, Left(n), BreakTarget(n), e)
      && (BlockHasCommit(block) ==> WalkPasses(BreakTarget(n), e) && InFragment(n, true, e))
    case _ => Held(k.next, e)
  }

  lemma {:induction false} DisciplinedArm(arms: seq<Arm>, i: nat, after: seq<Entry>, brk: seq<Entry>, e: Env)
    requires i < |arms| && DisciplinedArms(arms, after, brk, e)
    ensures Disciplined(arms[i].body, after, brk, e)
    ensures BlockHasCommit(arms[i].body) ==> ArmsHaveCommit(arms)
    ensures BlockRisky(arms[i].body, e) ==> ArmsRisky(arms, e)
  {
    if i > 0 {
      DisciplinedArm(arms[1..], i - 1, after, brk, e);
    }
  }

  lemma HeldArm(arms: seq<Arm>, k: Cont, e: Env, d: Config)
    requires Held(k, e) && DisciplinedArms(arms, Left(k), BreakTarget(k), e)
    requires ArmsHaveCommit(arms) ==> InFragment(k, ArmsRisky(arms, e), e)
    requires EntersArm(arms, k, d)
    ensures Held(d.k, e)
  {
    var i :| 0 <= i < |arms| && d == Run(Then(arms[i].body, k));
    hide Disciplined, DisciplinedArms, InFragment;
    DisciplinedArm(arms, i, Left(k), BreakTarget(k), e);
    HeldBlock(arms[i].body, k, ArmsRisky(arms, e), e);
  }

  /** Entering a block at most as risky as what has been allowed for. */
  lemma HeldBlock(block: seq<Stmt>, k: Cont, raised: bool, e: Env)
    requires Held(k, e) && Disciplined(block, Left(k), BreakTarget(k), e)
    requires BlockHasCommit(block) ==> InFragment(k, raised, e) && (BlockRisky(block, e) ==> raised)
    ensures Held(Then(block, k), e)
  {
    if BlockHasCommit(block) {
      FragmentCalmer(k, raised, BlockRisky(block, e), e);
    }
  }

  /** Below a finally block whose try has a commit. */
  lemma FinalFragment(s: Stmt, k: Cont, raised: bool, e: Env)
    requires s.Try? && TryHasCommit(s) && QuietTail(s.finalbody, BreakTarget(k), e)
    requires InFragment(k, Risky(s, e), e) && (raised ==> Risky(s, e))
    ensures InFragment(Finally(s.finalbody, k), raised, e)
  {
    FragmentCalmer(k, Risky(s, e), raised || RaisesBefore(s.finalbody, e), e);
  }

  lemma HeldTry(s: Stmt, k: Cont, e: Env)
    requires s.Try? && Held(k, e) && DisciplinedStmt(s, Left(k), BreakTarget(k), e)
    requires HasCommit(s) ==> InFragment(k, Risky(s, e), e)
    ensures Held(Then(s.body, Catch(s.handlers, s.orelse, Finally(s.finalbody, k))), e)
  {
    var fin := Finally(s.finalbody, k);
    var caught := Catch(s.handlers, s.orelse, fin);
    assert BreakTarget(fin) == BreakTarget(k) && Left(fin) == Wrap(s.finalbody, BreakTarget(k)) + Left(k);
    if BlockHasCommit(s.finalbody) {
      FragmentCalmer(k, Risky(s, e), true, e);
    }
    assert Held(fin, e);
    if ArmsHaveCommit(s.handlers) {
      FinalFragment(s, k, ArmsRisky(s.handlers, e), e);
    }
    if BlockHasCommit(s.orelse) {
      FinalFragment(s, k, BlockRisky(s.orelse, e), e);
    }
    assert Held(caught, e);
    if BlockHasCommit(s.body) {
      FinalFragment(s, k, BlockRisky(s.body, e) || RaisesBefore(s.orelse, e), e);
    }
  }

  lemma {:induction false} HeldStart(s: Stmt, k: Cont, e: Env, d: Config)
    requires Held(k, e) && DisciplinedStmt(s, Left(k), BreakTarget(k), e)
    requires HasCommit(s) ==> InFragment(k, Risky(s, e), e)
    requires StartsWith(s, e, k, d)
    ensures Held(d.k, e)
  {
    if d.k == k {
      return;
    }
    match s
    case If(_, body, orelse) =>
      HeldBlock(if d.k.block == body then body else orelse, k, Risky(s, e), e);
    case With(items, body) =>
      HeldBlock(body, Exit(ExprsUseDb(items), k), Risky(s, e), e);
    case Try(_, _, _, _) =>
      HeldTry(s, k, e);
    case Match(_, cases) =>
      HeldArm(cases, k, e, d);
    case Loop(_, _, _, _) =>
  }

  /** A loop is entered, or left for its else. */
  lemma HeldLoop(k: Cont, e: Env)
    requires k.Head? && Held(k, e)
    ensures Held(Then(k.loop.body, k), e) && Held(Then(k.loop.orelse, k.next), e)
  {
    var body, orelse, risky := k.loop.body, k.loop.orelse, Risky(k.loop, e);
    HeldBlock(orelse, k.next, risky, e);
    if BlockHasCommit(body) {
      FragmentCalmer(k.next, risky, BlockRisky(body, e) || e.faults || RaisesBefore(orelse, e), e);
    }
  }

  lemma {:induction false} HeldStep(c: Config, e: Env, d: Config)
    requires Held(c.k, e) && Step(c, e, d)
    ensures Held(d.k, e)
  {
    match c
    case Run(Then(block, k)) =>
      if block != [] {
        HeldFirst(block, k, e);
        HeldStart(block[0], Then(block[1..], k), e, d);
      }
    case Run(Head(loop, marked, k)) =>
      HeldLoop(c.k, e);
    case Run(Finally(block, k)) =>
      HeldFinal(Returned, block, k, e);
    case Unwind(j, Catch(handlers, _, k)) =>
      if d != Unwind(j, k) {
        HeldArm(handlers, k, e, d);
      }
    case Unwind(j, Finally(block, k)) =>
      HeldFinal(j, block, k, e);
    case _ =>
  }

  /** The first statement of a block, and the rest of it. */
  lemma HeldFirst(block: seq<Stmt>, k: Cont, e: Env)
    requires block != [] && Held(Then(block, k), e)
    ensures var rest := Then(block[1..], k);
            && Held(rest, e) && DisciplinedStmt(block[0], Left(rest), BreakTarget(rest), e)
            && (HasCommit(block[0]) ==> InFragment(rest, Risky(block[0], e), e))
  {
    var risky := BlockRisky(block, e);
    if HasCommit(block[0]) {
      FragmentCalmer(k, risky, Risky(block[0], e) || RaisesBefore(block[1..], e), e);
    }
    if BlockHasCommit(block[1..]) {
      FragmentCalmer(k, risky, BlockRisky(block[1..], e), e);
    }
  }

  /** A finally block is entered, because of a jump or not. */
  lemma HeldFinal(j: Jump, block: seq<Stmt>, k: Cont, e: Env)
    requires Held(Finally(block, k), e)
    ensures Held(Then(block, Resume(j, k)), e) && Held(Then(block, k), e)
  {
    if BlockHasCommit(block) {
      FragmentCalmer(k, true, BlockRisky(block, e), e);
      assert InFragment(Resume(j, k), true, e);
      FragmentCalmer(Resume(j, k), true, BlockRisky(block, e), e);
    }
  }

  lemma {:induction false} HeldRun(c: Config, e: Env, p: seq<Config>)
    requires Held(c.k, e) && IsRun(c, e, p)
    ensures Held(Last(c, p).k, e)
    decreases |p|
  {
    if p != [] {
      HeldStep(c, e, p[0]);
      HeldRun(p[0], e, p[1..]);
    }
  }

  /** Whatever is left to do after a commit of a disciplined function belongs to the fragment. */
  lemma DisciplinedIsInFragment(body: seq<Stmt>, e: Env, p: seq<Config>, commit: Stmt, k: Cont)
    requires Disciplined(body, [], [], e) && JustCommitted(body, e, p, commit, k)
    ensures InFragment(k, false, e) && Onward(Left(k), e)
  {
    var start := Run(Then(body, Done));
    assert Left(Done) == [] && BreakTarget(Done) == [];
    HeldRun(start, e, p);
    var at := Last(start, p).k;
    HeldFirst(at.block, at.next, e);
    assert HasCommit(commit);
    FragmentCalmer(k, Risky(commit, e), false, e);
  }

  /** Rule C is sound on disciplined functions: no violation means that whatever a run does after a
      commit, it first uses db in a tenant reset, or leaves the function or starts another turn of a
      loop around the commit before using it. */
  lemma SilentIsSafe(body: seq<Stmt>, e: Env, p: seq<Config>, commit: Stmt, k: Cont)
    requires Disciplined(body, [], [], e) && Silent(body, e.names)
    requires JustCommitted(body, e, p, commit, k)
    ensures Safe(Run(MarkOld(k)), e)
  {
    CollectedOnEveryRun(body, e, p, commit, k);
    DisciplinedIsInFragment(body, e, p, commit, k);
    var f := Found(commit, Left(k));
    assert Passes(f.rest, e.names);
    PassingIsClean(k, false, e);
    CleanExactlySafe(MarkOld(k), e);
  }
}
